/** What the hasher takes from outside its own code, and the shapes of its
    results. The 256-bit hash and the SCALE encoders of names, paths,
    primitives, storage modifiers and hashers belong to other libraries; the
    model receives them as a `Codec` value and assumes nothing about them
    beyond their types (in particular, no collision resistance). */
module Primitives {
  import opened Basics
  import opened ScaleInfo
  import opened FrameMetadata

  datatype Codec = Codec(
    hash: seq<uint8> -> Digest,                       // SHA-256
    encodeStr: string -> seq<uint8>,                  // SCALE `String`
    encodeOptionStr: Option<string> -> seq<uint8>,    // SCALE `Option<String>`
    encodePath: seq<string> -> seq<uint8>,            // SCALE `Vec<String>`
    encodePrimitive: TypeDefPrimitive -> seq<uint8>,  // SCALE `TypeDefPrimitive`
    encodeModifier: StorageEntryModifier -> seq<uint8>,
    encodeHashers: seq<StorageHasher> -> seq<uint8>,  // SCALE `Vec<StorageHasher>`
    utf8: string -> seq<uint8>)                       // `str::as_bytes`

  // Domain-separation tags: the `u8` discriminants of the hashable
  // categories, in their declaration order.
  const FieldTag: uint8 := 0
  const VariantTag: uint8 := 1
  const TypeDefTag: uint8 := 2
  const TypeTag: uint8 := 3
  const PalletTag: uint8 := 4
  const ExtrinsicTag: uint8 := 5

  /** A registry lookup that fails reports the id it could not resolve. */
  datatype Result<+T> = Ok(value: T) | UnknownTypeId(id: TypeId) {
    predicate IsFailure() { UnknownTypeId? }
    function PropagateFailure<U>(): Result<U>
      requires UnknownTypeId?
    {
      UnknownTypeId(id)
    }
    function Extract(): T
      requires Ok?
    {
      value
    }
  }

  /** The bytes a hasher fed to the hash, the digest it returned, and the set
      of type ids visited once it was done. */
  datatype Hashed = Hashed(preimage: seq<uint8>, digest: Digest, visited: set<TypeId>)

  /** A stretch of preimage built by a loop, and the visited set after it. */
  datatype Built = Built(bytes: seq<uint8>, visited: set<TypeId>)

  function Finish(c: Codec, preimage: seq<uint8>, visited: set<TypeId>): Hashed
  {
    Hashed(preimage, c.hash(preimage), visited)
  }

  /** `h` is the hash of a preimage that opens with the category byte `tag`. */
  predicate Tagged(c: Codec, h: Hashed, tag: uint8)
  {
    |h.preimage| > 0 && h.preimage[0] == tag && h.digest == c.hash(h.preimage)
  }

  /** Hashes of different categories never share a preimage: the category
      byte at the front tells them apart. */
  lemma DomainSeparation(c: Codec, a: Hashed, b: Hashed, s: uint8, t: uint8)
    requires Tagged(c, a, s) && Tagged(c, b, t) && s != t
    ensures a.preimage != b.preimage
  {
  }

  /** A section's outcome, appended to the buffer built so far. */
  function Append(bytes: seq<uint8>, section: Result<Built>): Result<Built>
  {
    match section
    case Ok(b) => Ok(Built(bytes + b.bytes, b.visited))
    case UnknownTypeId(id) => UnknownTypeId(id)
  }

  /** Runs `step` over `items` from left to right, handing each call the
      visited set the previous one returned and concatenating their bytes;
      the first failure ends the run. */
  function Fold<T>(step: (T, set<TypeId>) -> Result<Built>, items: seq<T>, visited: set<TypeId>): (r: Result<Built>)
    decreases |items|
  {
    if items == [] then Ok(Built([], visited))
    else
      var init :- Fold(step, items[..|items| - 1], visited);
      var last :- step(items[|items| - 1], init.visited);
      Ok(Built(init.bytes + last.bytes, last.visited))
  }

  /** When every failure of `step` names an id missing from `reg`, so does
      every failure of the run. */
  lemma {:induction false} FoldFailsOutside<T>(step: (T, set<TypeId>) -> Result<Built>, items: seq<T>, visited: set<TypeId>,
                                             reg: Registry)
    requires forall x, w :: step(x, w).UnknownTypeId? ==> step(x, w).id !in reg
    ensures Fold(step, items, visited).UnknownTypeId? ==> Fold(step, items, visited).id !in reg
    decreases |items|
  {
    if items != [] {
      FoldFailsOutside(step, items[..|items| - 1], visited, reg);
    }
  }

  /** When `step` succeeds on every item whatever the visited set, the run
      succeeds. */
  lemma {:induction false} FoldSucceeds<T>(step: (T, set<TypeId>) -> Result<Built>, items: seq<T>, visited: set<TypeId>)
    requires forall x, w :: x in items ==> step(x, w).Ok?
    ensures Fold(step, items, visited).Ok?
    decreases |items|
  {
    if items != [] {
      var n := |items| - 1;
      forall x | x in items[..n] ensures x in items { }
      assert items[n] in items;
      FoldSucceeds(step, items[..n], visited);
    }
  }

  /** One more item that succeeds appends its bytes to the prefix's. */
  lemma FoldNext<T>(step: (T, set<TypeId>) -> Result<Built>, items: seq<T>, visited: set<TypeId>, i: nat, done: Built, next: Built)
    requires i < |items| && Fold(step, items[..i], visited) == Ok(done)
    requires step(items[i], done.visited) == Ok(next)
    ensures Fold(step, items[..i + 1], visited) == Ok(Built(done.bytes + next.bytes, next.visited))
  {
    assert items[..i + 1][..i] == items[..i];
  }

  /** One more item that fails makes the whole run fail with its id. */
  lemma FoldStops<T>(step: (T, set<TypeId>) -> Result<Built>, items: seq<T>, visited: set<TypeId>, i: nat, done: Built)
    requires i < |items| && Fold(step, items[..i], visited) == Ok(done)
    requires step(items[i], done.visited).UnknownTypeId?
    ensures Fold(step, items, visited) == UnknownTypeId(step(items[i], done.visited).id)
  {
    assert items[..i + 1][..i] == items[..i];
    FoldPrefixFailure(step, items, visited, i + 1);
  }

  /** A failure on a prefix is the failure of the whole run. */
  lemma {:induction false} FoldPrefixFailure<T>(step: (T, set<TypeId>) -> Result<Built>, items: seq<T>, visited: set<TypeId>, k: nat)
    requires k <= |items| && Fold(step, items[..k], visited).UnknownTypeId?
    ensures Fold(step, items, visited) == Fold(step, items[..k], visited)
    decreases |items|
  {
    if k < |items| {
      var n := |items| - 1;
      assert items[..n][..k] == items[..k];
      FoldPrefixFailure(step, items[..n], visited, k);
    } else {
      assert items[..k] == items;
    }
  }

  /** Running over `a + b` is running over `a`, then over `b` from the
      visited set `a` left, the bytes following on. */
  lemma {:induction false} FoldSplit<T>(step: (T, set<TypeId>) -> Result<Built>, a: seq<T>, b: seq<T>, visited: set<TypeId>)
    requires Fold(step, a, visited).Ok?
    ensures var first := Fold(step, a, visited).value;
      Fold(step, a + b, visited) == Append(first.bytes, Fold(step, b, first.visited))
    decreases |b|
  {
    var first := Fold(step, a, visited).value;
    if b == [] {
      assert a + b == a;
      assert first.bytes + [] == first.bytes;
    } else {
      var n := |b| - 1;
      assert (a + b)[..|a + b| - 1] == a + b[..n];
      assert (a + b)[|a + b| - 1] == b[n];
      FoldSplit(step, a, b[..n], visited);
      var init := Fold(step, b[..n], first.visited);
      if init.Ok? && step(b[n], init.value.visited).Ok? {
        var last := step(b[n], init.value.visited).value;
        assert first.bytes + (init.value.bytes + last.bytes) == (first.bytes + init.value.bytes) + last.bytes;
      }
    }
  }

  /** Running over one item is that item's step. */
  lemma FoldSingle<T>(step: (T, set<TypeId>) -> Result<Built>, x: T, visited: set<TypeId>)
    ensures Fold(step, [x], visited) == Append([], step(x, visited))
  {
    assert [x][..0] == [];
  }

  /** `changed` is `r` with its trailing `t` replaced by `t'`, leaving the
      same visited set. */
  predicate SwapsTail(r: Built, changed: Result<Built>, t: seq<uint8>, t': seq<uint8>)
  {
    && changed.Ok? && changed.value.visited == r.visited
    && |r.bytes| >= |t|
    && r.bytes == r.bytes[..|r.bytes| - |t|] + t
    && changed.value.bytes == r.bytes[..|r.bytes| - |t|] + t'
  }

  /** A run that starts with `y` instead of `x`, where `y`'s step only swaps
      `x`'s trailing `t` for `t'`, differs in that stretch alone. */
  lemma FoldSwapHead<T>(step: (T, set<TypeId>) -> Result<Built>, x: T, y: T, b: seq<T>, w: set<TypeId>,
                        t: seq<uint8>, t': seq<uint8>)
    returns (head: seq<uint8>, z: seq<uint8>)
    requires Fold(step, [x] + b, w).Ok?
    requires step(x, w).Ok? ==> SwapsTail(step(x, w).value, step(y, w), t, t')
    ensures Fold(step, [y] + b, w).Ok?
    ensures Fold(step, [x] + b, w).value.bytes == head + t + z
    ensures Fold(step, [y] + b, w).value.bytes == head + t' + z
  {
    FoldSingle(step, x, w);
    FoldSingle(step, y, w);
    if step(x, w).UnknownTypeId? {
      assert ([x] + b)[..1] == [x];
      FoldPrefixFailure(step, [x] + b, w, 1);
    }
    var one := step(x, w).value;
    var one' := step(y, w).value;
    assert [] + one.bytes == one.bytes && [] + one'.bytes == one'.bytes;
    FoldSplit(step, [x], b, w);
    FoldSplit(step, [y], b, w);
    var rest := Fold(step, b, one.visited).value;
    head, z := one.bytes[..|one.bytes| - |t|], rest.bytes;
  }

  /** Replacing item `i` by one whose step only swaps a trailing `t` for
      `t'` swaps that one stretch of the run's bytes. */
  lemma FoldSwapOne<T>(step: (T, set<TypeId>) -> Result<Built>, items: seq<T>, i: nat, y: T, visited: set<TypeId>,
                       t: seq<uint8>, t': seq<uint8>)
    returns (x: seq<uint8>, z: seq<uint8>)
    requires i < |items| && Fold(step, items, visited).Ok?
    requires forall w :: step(items[i], w).Ok? ==> SwapsTail(step(items[i], w).value, step(y, w), t, t')
    ensures Fold(step, items[i := y], visited).Ok?
    ensures Fold(step, items, visited).value.bytes == x + t + z
    ensures Fold(step, items[i := y], visited).value.bytes == x + t' + z
  {
    var a, b := items[..i], items[i + 1..];
    assert items == a + ([items[i]] + b);
    assert items[i := y] == a + ([y] + b);
    if Fold(step, a, visited).UnknownTypeId? {
      FoldPrefixFailure(step, items, visited, i);
    }
    var first := Fold(step, a, visited).value;
    FoldSplit(step, a, [items[i]] + b, visited);
    FoldSplit(step, a, [y] + b, visited);
    var head;
    head, z := FoldSwapHead(step, items[i], y, b, first.visited, t, t');
    x := first.bytes + head;
  }
}
