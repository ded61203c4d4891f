/** Orderings used by the hasher: the lexicographic order Rust's `Ord` gives
    byte strings and `String`s, the stable sort `sort_by_key` performs, and
    the fact that makes sorting an order-independence device: a sorted
    arrangement of a multiset of distinct keys is unique. */
module Ordering {

  /** Lexicographic "less than or equal" on integer sequences; a proper
      prefix comes first, as in Rust's slice ordering. */
  predicate LexLe(a: seq<int>, b: seq<int>)
    decreases |a|
  {
    |a| == 0 || (|b| > 0 && (a[0] < b[0] || (a[0] == b[0] && LexLe(a[1..], b[1..]))))
  }

  lemma {:induction false} LexLeTotal(a: seq<int>, b: seq<int>)
    ensures LexLe(a, b) || LexLe(b, a)
    decreases |a|
  {
    if |a| > 0 && |b| > 0 && a[0] == b[0] {
      LexLeTotal(a[1..], b[1..]);
    }
  }

  lemma {:induction false} LexLeReflexive(a: seq<int>)
    ensures LexLe(a, a)
    decreases |a|
  {
    if |a| > 0 {
      LexLeReflexive(a[1..]);
    }
  }

  lemma {:induction false} LexLeAntisymmetric(a: seq<int>, b: seq<int>)
    requires LexLe(a, b) && LexLe(b, a)
    ensures a == b
    decreases |a|
  {
    if |a| > 0 {
      LexLeAntisymmetric(a[1..], b[1..]);
      assert a == [a[0]] + a[1..] && b == [b[0]] + b[1..];
    }
  }

  lemma {:induction false} LexLeTransitive(a: seq<int>, b: seq<int>, c: seq<int>)
    requires LexLe(a, b) && LexLe(b, c)
    ensures LexLe(a, c)
    decreases |a|
  {
    if |a| > 0 && a[0] == b[0] && b[0] == c[0] {
      LexLeTransitive(a[1..], b[1..], c[1..]);
    }
  }

  /** `s` is in non-decreasing order of `key`: each key is at most the
      next one. */
  ghost predicate Sorted<T>(s: seq<T>, key: T -> seq<int>)
    decreases |s|
  {
    |s| <= 1 || (LexLe(key(s[0]), key(s[1])) && Sorted(s[1..], key))
  }

  /** In a sorted sequence every key is at most every later key. */
  lemma {:induction false} SortedPairwise<T>(s: seq<T>, key: T -> seq<int>, i: int, j: int)
    requires Sorted(s, key) && 0 <= i < j < |s|
    ensures LexLe(key(s[i]), key(s[j]))
    decreases j
  {
    if i > 0 {
      SortedPairwise(s[1..], key, i - 1, j - 1);
    } else if j > 1 {
      SortedPairwise(s[1..], key, 0, j - 1);
      LexLeTransitive(key(s[0]), key(s[1]), key(s[j]));
    }
  }

  /** The elements of `s` whose key is `k`, in their order in `s`. */
  function WithKey<T>(s: seq<T>, key: T -> seq<int>, k: seq<int>): seq<T>
  {
    if s == [] then [] else (if key(s[0]) == k then [s[0]] else []) + WithKey(s[1..], key, k)
  }

  /** Inserts `x` before the first element whose key is not smaller, so that
      `x` precedes every element with an equal key. */
  function Insert<T>(x: T, s: seq<T>, key: T -> seq<int>): (r: seq<T>)
    ensures multiset(r) == multiset(s) + multiset{x}
    ensures |r| == |s| + 1
    ensures r[0] == x || (|s| > 0 && r[0] == s[0])
    ensures Sorted(s, key) ==> Sorted(r, key)
  {
    if s == [] then [x]
    else if LexLe(key(x), key(s[0])) then [x] + s
    else
      var rest := Insert(x, s[1..], key);
      assert s == [s[0]] + s[1..];
      assert ([s[0]] + rest)[1..] == rest;
      LexLeTotal(key(x), key(s[0]));
      [s[0]] + rest
  }

  /** `x` lands ahead of every element that shares its key, and the other
      elements with key `k` keep their order. */
  lemma {:induction false} InsertWithKey<T>(x: T, s: seq<T>, key: T -> seq<int>, k: seq<int>)
    ensures WithKey(Insert(x, s, key), key, k) == (if key(x) == k then [x] else []) + WithKey(s, key, k)
    decreases |s|
  {
    if s == [] {
    } else if LexLe(key(x), key(s[0])) {
      WithKeyCons(x, s, key, k);
    } else {
      var rest := Insert(x, s[1..], key);
      assert Insert(x, s, key) == [s[0]] + rest;
      assert [s[0]] + s[1..] == s;
      InsertWithKey(x, s[1..], key, k);
      LexLeReflexive(key(x));
      PassOver(x, s[0], s[1..], rest, key, k);
    }
  }

  /** Filtering a sequence with one element put in front. */
  lemma WithKeyCons<T>(x: T, s: seq<T>, key: T -> seq<int>, k: seq<int>)
    ensures WithKey([x] + s, key, k) == (if key(x) == k then [x] else []) + WithKey(s, key, k)
  {
    assert ([x] + s)[1..] == s;
  }

  /** Moving `x` past an element `y` with a different key leaves the
      elements of each key in the same order. */
  lemma PassOver<T>(x: T, y: T, s: seq<T>, rest: seq<T>, key: T -> seq<int>, k: seq<int>)
    requires key(x) != key(y)
    requires WithKey(rest, key, k) == (if key(x) == k then [x] else []) + WithKey(s, key, k)
    ensures WithKey([y] + rest, key, k) == (if key(x) == k then [x] else []) + WithKey([y] + s, key, k)
  {
    WithKeyCons(y, rest, key, k);
    WithKeyCons(y, s, key, k);
    if key(x) == k {
      assert key(y) != k;
    } else {
      assert WithKey([y] + rest, key, k) == WithKey([y] + s, key, k);
    }
  }

  /** The stable sort by `key` that Rust's `sort_by_key` produces. */
  function SortBy<T>(s: seq<T>, key: T -> seq<int>): (r: seq<T>)
    ensures multiset(r) == multiset(s)
    ensures |r| == |s|
    ensures Sorted(r, key)
  {
    if s == [] then []
    else
      assert s == [s[0]] + s[1..];
      Insert(s[0], SortBy(s[1..], key), key)
  }

  /** The sort is stable: for every key, the elements with that key appear
      in the sorted sequence in the order they had in `s`. */
  lemma {:induction false} SortByStable<T>(s: seq<T>, key: T -> seq<int>)
    ensures forall k :: WithKey(SortBy(s, key), key, k) == WithKey(s, key, k)
    decreases |s|
  {
    if s != [] {
      SortByStable(s[1..], key);
      forall k ensures WithKey(SortBy(s, key), key, k) == WithKey(s, key, k) {
        InsertWithKey(s[0], SortBy(s[1..], key), key, k);
      }
    }
  }

  /** The elements after the head are the elements less the head. */
  lemma {:induction false} MultisetTail<T>(s: seq<T>)
    requires |s| > 0
    ensures multiset(s[1..]) == multiset(s) - multiset{s[0]}
  {
    assert s == [s[0]] + s[1..];
  }

  /** The least key of a sorted sequence sits at its head. */
  lemma HeadIsLeast<T>(s: seq<T>, key: T -> seq<int>, i: int)
    requires Sorted(s, key) && 0 <= i < |s|
    ensures LexLe(key(s[0]), key(s[i]))
  {
    if i == 0 {
      LexLeReflexive(key(s[0]));
    } else {
      SortedPairwise(s, key, 0, i);
    }
  }

  /** Two non-empty sorted arrangements of the same elements start with the
      same element when no two of those elements share a key. */
  lemma SameHead<T>(a: seq<T>, b: seq<T>, key: T -> seq<int>)
    requires |a| > 0 && |b| > 0
    requires Sorted(a, key) && Sorted(b, key)
    requires multiset(a) == multiset(b)
    requires forall x, y :: x in a && y in a && key(x) == key(y) ==> x == y
    ensures a[0] == b[0]
  {
    assert a[0] in multiset(b) && b[0] in multiset(a);
    var i :| 0 <= i < |b| && b[i] == a[0];
    var j :| 0 <= j < |a| && a[j] == b[0];
    HeadIsLeast(b, key, i);
    HeadIsLeast(a, key, j);
    LexLeAntisymmetric(key(a[0]), key(b[0]));
  }

  /** Dropping the head keeps the keys distinct. */
  lemma DistinctTail<T>(s: seq<T>, key: T -> seq<int>)
    requires |s| > 0
    requires forall x, y :: x in s && y in s && key(x) == key(y) ==> x == y
    ensures forall x, y :: x in s[1..] && y in s[1..] && key(x) == key(y) ==> x == y
  {
    forall x, y | x in s[1..] && y in s[1..] && key(x) == key(y) ensures x == y {
      assert x in s && y in s;
    }
  }

  /** Two sorted arrangements of the same elements coincide when no two of
      those elements share a key. */
  lemma {:induction false} SortedUnique<T>(a: seq<T>, b: seq<T>, key: T -> seq<int>)
    requires Sorted(a, key) && Sorted(b, key)
    requires multiset(a) == multiset(b)
    requires forall x, y :: x in a && y in a && key(x) == key(y) ==> x == y
    ensures a == b
    decreases |a|
  {
    assert |a| == |multiset(a)| == |b|;
    if |a| > 0 {
      SameHead(a, b, key);
      MultisetTail(a);
      MultisetTail(b);
      DistinctTail(a, key);
      SortedUnique(a[1..], b[1..], key);
      assert a == [a[0]] + a[1..] && b == [b[0]] + b[1..];
    }
  }

  /** Applies `f` to every element, keeping the order. */
  function MapSeq<A, B>(f: A -> B, s: seq<A>): (r: seq<B>)
    ensures |r| == |s|
    ensures forall i :: 0 <= i < |s| ==> r[i] == f(s[i])
  {
    if s == [] then [] else [f(s[0])] + MapSeq(f, s[1..])
  }

  lemma {:induction false} MapSeqConcat<A, B>(f: A -> B, s: seq<A>, t: seq<A>)
    ensures MapSeq(f, s + t) == MapSeq(f, s) + MapSeq(f, t)
  {
  }

  /** Removing the element at `k` removes one occurrence of it. */
  lemma {:induction false} MultisetRemoveAt<T>(t: seq<T>, k: int)
    requires 0 <= k < |t|
    ensures multiset(t[..k] + t[k + 1..]) == multiset(t) - multiset{t[k]}
  {
    assert t == t[..k] + [t[k]] + t[k + 1..];
  }

  /** Mapping commutes with removing the element at `k`. */
  lemma {:induction false} MapSeqRemoveAt<A, B>(f: A -> B, t: seq<A>, k: int)
    requires 0 <= k < |t|
    ensures multiset(MapSeq(f, t)) == multiset{f(t[k])} + multiset(MapSeq(f, t[..k] + t[k + 1..]))
  {
    var l, r := MapSeq(f, t[..k]), MapSeq(f, t[k + 1..]);
    assert t == t[..k] + ([t[k]] + t[k + 1..]);
    MapSeqConcat(f, t[..k], [t[k]] + t[k + 1..]);
    MapSeqConcat(f, [t[k]], t[k + 1..]);
    MapSeqConcat(f, t[..k], t[k + 1..]);
    assert MapSeq(f, t) == l + ([f(t[k])] + r);
    assert multiset(l + ([f(t[k])] + r)) == multiset{f(t[k])} + multiset(l + r);
  }

  /** Rearranging the input rearranges the output: images of permutations
      are permutations. */
  lemma {:induction false} MapSeqMultiset<A, B>(f: A -> B, s: seq<A>, t: seq<A>)
    requires multiset(s) == multiset(t)
    ensures multiset(MapSeq(f, s)) == multiset(MapSeq(f, t))
    decreases |s|
  {
    assert |s| == |multiset(s)| == |t|;
    if |s| > 0 {
      assert s[0] in multiset(t);
      var k :| 0 <= k < |t| && t[k] == s[0];
      MultisetRemoveAt(t, k);
      MultisetTail(s);
      MapSeqMultiset(f, s[1..], t[..k] + t[k + 1..]);
      MapSeqRemoveAt(f, t, k);
      assert MapSeq(f, s) == [f(s[0])] + MapSeq(f, s[1..]);
    }
  }
}
