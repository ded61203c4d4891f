/** The digest of the whole metadata: every pallet's digest (looked up
    through the cache), sorted by digest value, concatenated, followed by the
    extrinsic digest and the digest of the outer call type (hashed with a
    fresh visited set). Pallet names do not enter the preimage; sorting by
    digest makes the result independent of the order pallets are declared
    in.

    The lookups are stated for any way `compute` of obtaining a pallet's
    digest on a cache miss; the hasher uses `FreshDigest`. */
module MetadataHasher {
  import opened Basics
  import opened Ordering
  import opened ScaleInfo
  import opened FrameMetadata
  import opened Primitives
  import opened TypeHasher
  import opened ExtrinsicHasher
  import opened PalletHasher

  /** The `(name, digest)` pairs in pallet order and the cache afterwards. */
  datatype Collected = Collected(pairs: seq<(string, Digest)>, cache: map<string, Digest>)

  function Names(pallets: seq<Pallet>): set<string>
  {
    set p | p in pallets :: p.name
  }

  /** Each pallet looked up through the cache in declared order, the cache
      growing as it goes. */
  function PalletDigests(compute: Pallet -> Result<Digest>, pallets: seq<Pallet>, cache: map<string, Digest>): (r: Result<Collected>)
    decreases |pallets|
    ensures r.Ok? ==> |r.value.pairs| == |pallets|
    ensures r.Ok? ==> forall i :: 0 <= i < |pallets| ==> r.value.pairs[i].0 == pallets[i].name
  {
    if pallets == [] then Ok(Collected([], cache))
    else
      var n := |pallets| - 1;
      var init :- PalletDigests(compute, pallets[..n], cache);
      var found :- CachedLookup(compute, pallets[n], init.cache);
      Ok(Collected(init.pairs + [(pallets[n].name, found.digest)], found.cache))
  }

  /** When every failure of `compute` names an id missing from `reg`, so
      does every failure of the run. */
  lemma {:induction false} PalletDigestsFailOutside(compute: Pallet -> Result<Digest>, pallets: seq<Pallet>,
                                                    cache: map<string, Digest>, reg: Registry)
    requires forall p :: compute(p).UnknownTypeId? ==> compute(p).id !in reg
    ensures PalletDigests(compute, pallets, cache).UnknownTypeId? ==> PalletDigests(compute, pallets, cache).id !in reg
    decreases |pallets|
  {
    if pallets != [] {
      PalletDigestsFailOutside(compute, pallets[..|pallets| - 1], cache, reg);
    }
  }

  /** When every pallet's digest can be computed, the run succeeds, whatever
      the cache holds. */
  lemma {:induction false} PalletDigestsSucceed(compute: Pallet -> Result<Digest>, pallets: seq<Pallet>, cache: map<string, Digest>)
    requires forall p :: p in pallets ==> compute(p).Ok?
    ensures PalletDigests(compute, pallets, cache).Ok?
    decreases |pallets|
  {
    if pallets != [] {
      var n := |pallets| - 1;
      forall p | p in pallets[..n] ensures p in pallets { }
      assert pallets[n] in pallets;
      PalletDigestsSucceed(compute, pallets[..n], cache);
    }
  }

  /** One more pallet whose lookup succeeds adds its pair. */
  lemma PalletDigestsNext(compute: Pallet -> Result<Digest>, pallets: seq<Pallet>, cache: map<string, Digest>,
                          i: nat, done: Collected, found: Cached)
    requires i < |pallets| && PalletDigests(compute, pallets[..i], cache) == Ok(done)
    requires CachedLookup(compute, pallets[i], done.cache) == Ok(found)
    ensures PalletDigests(compute, pallets[..i + 1], cache)
            == Ok(Collected(done.pairs + [(pallets[i].name, found.digest)], found.cache))
  {
    assert pallets[..i + 1][..i] == pallets[..i];
  }

  /** A failure on a prefix of the pallets is the failure of the whole run. */
  lemma {:induction false} PalletDigestsPrefixFailure(compute: Pallet -> Result<Digest>, pallets: seq<Pallet>,
                                                      cache: map<string, Digest>, k: nat)
    requires k <= |pallets| && PalletDigests(compute, pallets[..k], cache).UnknownTypeId?
    ensures PalletDigests(compute, pallets, cache) == PalletDigests(compute, pallets[..k], cache)
    decreases |pallets|
  {
    if k < |pallets| {
      var n := |pallets| - 1;
      assert pallets[..n][..k] == pallets[..k];
      PalletDigestsPrefixFailure(compute, pallets[..n], cache, k);
    } else {
      assert pallets[..k] == pallets;
    }
  }

  /** One more pallet whose lookup fails makes the whole run fail with its
      id. */
  lemma PalletDigestsStops(compute: Pallet -> Result<Digest>, pallets: seq<Pallet>, cache: map<string, Digest>,
                           i: nat, done: Collected)
    requires i < |pallets| && PalletDigests(compute, pallets[..i], cache) == Ok(done)
    requires CachedLookup(compute, pallets[i], done.cache).UnknownTypeId?
    ensures PalletDigests(compute, pallets, cache) == UnknownTypeId(CachedLookup(compute, pallets[i], done.cache).id)
  {
    assert pallets[..i + 1][..i] == pallets[..i];
    PalletDigestsPrefixFailure(compute, pallets, cache, i + 1);
  }

  /** A successful run has recorded every pallet's name and kept every
      digest that was already cached. */
  lemma {:induction false} PalletDigestsCache(compute: Pallet -> Result<Digest>, pallets: seq<Pallet>, cache: map<string, Digest>)
    requires PalletDigests(compute, pallets, cache).Ok?
    ensures var r := PalletDigests(compute, pallets, cache).value;
      && r.cache.Keys == cache.Keys + Names(pallets)
      && forall n :: n in cache ==> r.cache[n] == cache[n]
    decreases |pallets|
  {
    if pallets != [] {
      var n := |pallets| - 1;
      NamesSnoc(pallets);
      PalletDigestsCache(compute, pallets[..n], cache);
      var init := PalletDigests(compute, pallets[..n], cache).value;
      var found := CachedLookup(compute, pallets[n], init.cache).value;
      assert PalletDigests(compute, pallets, cache).value.cache == found.cache;
    }
  }

  lemma NamesSnoc(pallets: seq<Pallet>)
    requires pallets != []
    ensures Names(pallets) == Names(pallets[..|pallets| - 1]) + {pallets[|pallets| - 1].name}
  {
    assert pallets == pallets[..|pallets| - 1] + [pallets[|pallets| - 1]];
  }

  function Second(pair: (string, Digest)): Digest
  {
    pair.1
  }

  function DigestKey(d: Digest): seq<int>
  {
    ByteKey(d)
  }

  /** Pairs are ordered by their digest, compared as byte strings. */
  function PairKey(pair: (string, Digest)): seq<int>
  {
    DigestKey(pair.1)
  }

  /** The digests of `pairs`, concatenated in order; names are dropped. */
  function ConcatDigests(pairs: seq<(string, Digest)>): (b: seq<uint8>)
    ensures |b| == 32 * |pairs|
  {
    if pairs == [] then [] else ConcatDigests(pairs[..|pairs| - 1]) + pairs[|pairs| - 1].1
  }

  /** The first `n` 32-byte blocks of `b`. */
  function Blocks(b: seq<uint8>, n: nat): (r: seq<Digest>)
    requires 32 * n <= |b|
    ensures |r| == n
  {
    if n == 0 then [] else Blocks(b, n - 1) + [b[32 * (n - 1) .. 32 * n]]
  }

  /** Cutting the concatenation back into blocks gives the digests. */
  lemma {:induction false} BlocksOfConcat(pairs: seq<(string, Digest)>)
    ensures Blocks(ConcatDigests(pairs), |pairs|) == MapSeq(Second, pairs)
    decreases |pairs|
  {
    if pairs != [] {
      var n := |pairs| - 1;
      var b := ConcatDigests(pairs);
      BlocksOfConcat(pairs[..n]);
      assert b == ConcatDigests(pairs[..n]) + pairs[n].1;
      assert ConcatDigests(pairs[..n]) == b[..32 * n];
      BlocksPrefix(ConcatDigests(pairs[..n]), b, n);
      assert b[32 * n .. 32 * (n + 1)] == pairs[n].1;
      assert MapSeq(Second, pairs) == MapSeq(Second, pairs[..n]) + [pairs[n].1] by {
        assert pairs == pairs[..n] + [pairs[n]];
        MapSeqConcat(Second, pairs[..n], [pairs[n]]);
      }
    }
  }

  /** Blocks read only the bytes they cover. */
  lemma {:induction false} BlocksPrefix(a: seq<uint8>, b: seq<uint8>, n: nat)
    requires 32 * n <= |a| <= |b| && a == b[..|a|]
    ensures Blocks(a, n) == Blocks(b, n)
  {
    if n > 0 {
      BlocksPrefix(a, b, n - 1);
      assert a[32 * (n - 1) .. 32 * n] == b[32 * (n - 1) .. 32 * n];
    }
  }

  /** The concatenation reads only the digests, not the names beside them. */
  lemma {:induction false} ConcatDigestsReadsDigests(s: seq<(string, Digest)>, t: seq<(string, Digest)>)
    requires MapSeq(Second, s) == MapSeq(Second, t)
    ensures ConcatDigests(s) == ConcatDigests(t)
    decreases |s|
  {
    if s != [] {
      var n := |s| - 1;
      assert |t| == |s|;
      assert MapSeq(Second, s[..n]) == MapSeq(Second, t[..n]) by {
        forall i | 0 <= i < n ensures MapSeq(Second, s[..n])[i] == MapSeq(Second, t[..n])[i] {
          assert MapSeq(Second, s)[i] == MapSeq(Second, t)[i];
        }
      }
      assert MapSeq(Second, s)[n] == MapSeq(Second, t)[n];
      ConcatDigestsReadsDigests(s[..n], t[..n]);
    }
  }

  /** The digests of a sequence sorted by digest are sorted by digest. */
  lemma {:induction false} SortedDigests(s: seq<(string, Digest)>)
    requires Sorted(s, PairKey)
    ensures Sorted(MapSeq(Second, s), DigestKey)
    decreases |s|
  {
    if |s| > 1 {
      SortedDigests(s[1..]);
      assert MapSeq(Second, s)[1..] == MapSeq(Second, s[1..]);
    }
  }

  /** Whatever follows the sorted concatenation, its leading blocks are the
      digests of the pairs, each once, in ascending byte order. */
  lemma SortedConcatBlocks(pairs: seq<(string, Digest)>, tail: seq<uint8>)
    ensures var blocks := Blocks(ConcatDigests(SortBy(pairs, PairKey)) + tail, |pairs|);
      && Sorted(blocks, DigestKey)
      && multiset(blocks) == multiset(MapSeq(Second, pairs))
  {
    var sorted := SortBy(pairs, PairKey);
    var b := ConcatDigests(sorted);
    assert b == (b + tail)[..|b|];
    BlocksOfConcat(sorted);
    BlocksPrefix(b, b + tail, |pairs|);
    SortedDigests(sorted);
    MapSeqMultiset(Second, sorted, pairs);
  }

  /** After sorting by digest, the concatenation depends only on which
      digests occur, with their multiplicities: not on the order of the
      pairs, nor on the names beside the digests. */
  lemma SortedConcatDetermined(s: seq<(string, Digest)>, t: seq<(string, Digest)>)
    requires multiset(MapSeq(Second, s)) == multiset(MapSeq(Second, t))
    ensures ConcatDigests(SortBy(s, PairKey)) == ConcatDigests(SortBy(t, PairKey))
  {
    var ss, st := SortBy(s, PairKey), SortBy(t, PairKey);
    var ds, dt := MapSeq(Second, ss), MapSeq(Second, st);
    MapSeqMultiset(Second, ss, s);
    MapSeqMultiset(Second, st, t);
    SortedDigests(ss);
    SortedDigests(st);
    forall x, y | x in ds && y in ds && DigestKey(x) == DigestKey(y) ensures x == y {
      ByteKeyInjective(x, y);
    }
    SortedUnique(ds, dt, DigestKey);
    ConcatDigestsReadsDigests(ss, st);
  }

  /** Collecting the pallet digests fails only on an unregistered id, and
      succeeds when the registry is closed and every pallet's types are
      registered. */
  lemma PalletSectionOutcome(c: Codec, md: Metadata, cache: map<string, Digest>)
    ensures var collected := PalletDigests(FreshDigest(c, md.types), md.pallets, cache);
      && (collected.UnknownTypeId? ==> collected.id !in md.types)
      && (Closed(md.types) && MetadataIn(md) ==> collected.Ok?)
  {
    PalletDigestsFailOutside(FreshDigest(c, md.types), md.pallets, cache, md.types);
    if Closed(md.types) && MetadataIn(md) {
      PalletDigestsSucceed(FreshDigest(c, md.types), md.pallets, cache);
    }
  }

  /** The metadata preimage and the cache afterwards. */
  datatype Staged = Staged(preimage: seq<uint8>, cache: map<string, Digest>)

  /** The pallet digests sorted by value, then the extrinsic digest, then the
      digest of the outer call type with a fresh visited set. The cache is
      what the pallet lookups leave behind. */
  function MetadataPreimage(c: Codec, md: Metadata, cache: map<string, Digest>): (r: Result<Staged>)
    ensures var collected := PalletDigests(FreshDigest(c, md.types), md.pallets, cache);
      && (r.Ok? <==> collected.Ok? && ExtrinsicHash(c, md.types, md.extrinsic).Ok?
                                   && TypeHash(c, md.types, md.ty, {}).Ok?)
      && (collected.UnknownTypeId? ==> r == UnknownTypeId(collected.id))
      && (collected.Ok? && ExtrinsicHash(c, md.types, md.extrinsic).UnknownTypeId? ==>
            r == UnknownTypeId(ExtrinsicHash(c, md.types, md.extrinsic).id))
      && (collected.Ok? && ExtrinsicHash(c, md.types, md.extrinsic).Ok?
          && TypeHash(c, md.types, md.ty, {}).UnknownTypeId? ==>
            r == UnknownTypeId(TypeHash(c, md.types, md.ty, {}).id))
    ensures r.Ok? ==> r.value.cache == PalletDigests(FreshDigest(c, md.types), md.pallets, cache).value.cache
    ensures r.Ok? ==> |r.value.preimage| == 32 * |md.pallets| + 64
    ensures r.Ok? ==> var k := 32 * |md.pallets|;
      && r.value.preimage[k .. k + 32] == ExtrinsicHash(c, md.types, md.extrinsic).value.digest
      && r.value.preimage[k + 32 ..] == TypeHash(c, md.types, md.ty, {}).value.digest
    ensures r.UnknownTypeId? ==> r.id !in md.types
    ensures Closed(md.types) && MetadataIn(md) ==> r.Ok?
  {
    PalletSectionOutcome(c, md, cache);
    var collected :- PalletDigests(FreshDigest(c, md.types), md.pallets, cache);
    var sorted := SortBy(collected.pairs, PairKey);
    var extrinsic :- ExtrinsicHash(c, md.types, md.extrinsic);
    var root :- TypeHash(c, md.types, md.ty, {});
    var preimage := ConcatDigests(sorted) + extrinsic.digest + root.digest;
    assert preimage[32 * |md.pallets| .. 32 * |md.pallets| + 32] == extrinsic.digest;
    Ok(Staged(preimage, collected.cache))
  }

  function MetadataHash(c: Codec, md: Metadata, cache: map<string, Digest>): (r: Result<Cached>)
    ensures r.Ok? <==> MetadataPreimage(c, md, cache).Ok?
    ensures MetadataPreimage(c, md, cache).UnknownTypeId? ==> r == UnknownTypeId(MetadataPreimage(c, md, cache).id)
    ensures r.Ok? ==> r.value.digest == c.hash(MetadataPreimage(c, md, cache).value.preimage)
                      && r.value.cache == MetadataPreimage(c, md, cache).value.cache
    ensures r.UnknownTypeId? ==> r.id !in md.types
    ensures Closed(md.types) && MetadataIn(md) ==> r.Ok?
  {
    var staged :- MetadataPreimage(c, md, cache);
    Ok(Cached(c.hash(staged.preimage), staged.cache))
  }

  /** When every part hashes, the preimage is the three sections in order. */
  lemma PreimageSections(c: Codec, md: Metadata, cache: map<string, Digest>)
    requires PalletDigests(FreshDigest(c, md.types), md.pallets, cache).Ok?
    requires ExtrinsicHash(c, md.types, md.extrinsic).Ok? && TypeHash(c, md.types, md.ty, {}).Ok?
    ensures var collected := PalletDigests(FreshDigest(c, md.types), md.pallets, cache).value;
      MetadataPreimage(c, md, cache)
        == Ok(Staged(ConcatDigests(SortBy(collected.pairs, PairKey))
                     + ExtrinsicHash(c, md.types, md.extrinsic).value.digest
                     + TypeHash(c, md.types, md.ty, {}).value.digest,
                     collected.cache))
  {
  }

  /** The pallet section of the preimage holds exactly the pallet digests
      (with multiplicity), as 32-byte blocks in ascending byte order. */
  lemma PalletSectionSorted(c: Codec, md: Metadata, cache: map<string, Digest>)
    requires MetadataPreimage(c, md, cache).Ok?
    ensures var preimage := MetadataPreimage(c, md, cache).value.preimage;
      var blocks := Blocks(preimage, |md.pallets|);
      && Sorted(blocks, DigestKey)
      && multiset(blocks) == multiset(MapSeq(Second, PalletDigests(FreshDigest(c, md.types), md.pallets, cache).value.pairs))
  {
    var pairs := PalletDigests(FreshDigest(c, md.types), md.pallets, cache).value.pairs;
    PreimageSections(c, md, cache);
    var tail := ExtrinsicHash(c, md.types, md.extrinsic).value.digest + TypeHash(c, md.types, md.ty, {}).value.digest;
    assert MetadataPreimage(c, md, cache).value.preimage == ConcatDigests(SortBy(pairs, PairKey)) + tail;
    SortedConcatBlocks(pairs, tail);
  }

  /** Looks every pallet up through `cache`, in declared order. */
  method CollectPalletDigests(c: Codec, reg: Registry, pallets: seq<Pallet>, cache: MetadataHasherCache)
    returns (r: Result<seq<(string, Digest)>>)
    modifies cache
    ensures match PalletDigests(FreshDigest(c, reg), pallets, old(cache.pallets))
      case Ok(collected) => r == Ok(collected.pairs) && cache.pallets == collected.cache
      case UnknownTypeId(id) => r == UnknownTypeId(id)
  {
    var pairs: seq<(string, Digest)> := [];
    ghost var done := Collected([], cache.pallets);
    for i := 0 to |pallets|
      invariant PalletDigests(FreshDigest(c, reg), pallets[..i], old(cache.pallets)) == Ok(done)
      invariant pairs == done.pairs && cache.pallets == done.cache
    {
      ghost var found := PalletLookup(c, reg, pallets[i], cache.pallets);
      var h := GetPalletHash(c, reg, pallets[i], cache);
      if h.UnknownTypeId? {
        PalletDigestsStops(FreshDigest(c, reg), pallets, old(cache.pallets), i, done);
        return UnknownTypeId(h.id);
      }
      PalletDigestsNext(FreshDigest(c, reg), pallets, old(cache.pallets), i, done, found.value);
      pairs := pairs + [(pallets[i].name, h.value)];
      done := Collected(done.pairs + [(pallets[i].name, found.value.digest)], found.value.cache);
    }
    assert pallets[..|pallets|] == pallets;
    return Ok(pairs);
  }

  /** Extends the buffer with every digest of `pairs`, in order. */
  method ExtendWithDigests(bytes: seq<uint8>, pairs: seq<(string, Digest)>) returns (r: seq<uint8>)
    ensures r == bytes + ConcatDigests(pairs)
  {
    r := bytes;
    for j := 0 to |pairs|
      invariant r == bytes + ConcatDigests(pairs[..j])
    {
      assert pairs[..j + 1][..j] == pairs[..j];
      r := r + pairs[j].1;
    }
    assert pairs[..|pairs|] == pairs;
  }

  /** Hashes the whole metadata, looking every pallet up through `cache`. */
  method GetMetadataHash(c: Codec, md: Metadata, cache: MetadataHasherCache) returns (r: Result<Digest>)
    modifies cache
    ensures match MetadataHash(c, md, old(cache.pallets))
      case Ok(result) => r == Ok(result.digest) && cache.pallets == result.cache
      case UnknownTypeId(id) => r == UnknownTypeId(id)
    ensures PalletDigests(FreshDigest(c, md.types), md.pallets, old(cache.pallets)).Ok? ==>
              cache.pallets == PalletDigests(FreshDigest(c, md.types), md.pallets, old(cache.pallets)).value.cache
  {
    var pairs := CollectPalletDigests(c, md.types, md.pallets, cache);
    if pairs.UnknownTypeId? {
      return UnknownTypeId(pairs.id);
    }
    var sorted := SortBy(pairs.value, PairKey);
    var bytes := ExtendWithDigests([], sorted);
    assert bytes == ConcatDigests(sorted);
    var extrinsic := ExtrinsicHash(c, md.types, md.extrinsic);
    if extrinsic.UnknownTypeId? {
      return UnknownTypeId(extrinsic.id);
    }
    bytes := bytes + extrinsic.value.digest;
    var root := TypeHash(c, md.types, md.ty, {});
    if root.UnknownTypeId? {
      return UnknownTypeId(root.id);
    }
    bytes := bytes + root.value.digest;
    PreimageSections(c, md, old(cache.pallets));
    return Ok(c.hash(bytes));
  }

  /** No two pallets share a name unless they are the same pallet. */
  predicate NamesDetermine(pallets: seq<Pallet>)
  {
    forall p, q :: p in pallets && q in pallets && p.name == q.name ==> p == q
  }

  /** Every digest the cache holds under one of the pallets' names is what
      `compute` gives for that pallet. */
  predicate CacheAgrees(compute: Pallet -> Result<Digest>, pallets: seq<Pallet>, cache: map<string, Digest>)
  {
    forall p :: p in pallets && p.name in cache ==> compute(p) == Ok(cache[p.name])
  }

  /** Stands in for the digest of a pallet that does not hash; the lemmas
      below use it only for pallets that do. */
  const NoDigest: Digest := seq(32, _ => 0 as uint8)

  /** A pallet's name beside the digest `compute` gives for it. */
  function FreshPair(compute: Pallet -> Result<Digest>, p: Pallet): (string, Digest)
  {
    (p.name, if compute(p).Ok? then compute(p).value else NoDigest)
  }

  function FreshPairs(compute: Pallet -> Result<Digest>): Pallet -> (string, Digest)
  {
    p => FreshPair(compute, p)
  }

  /** A lookup of one of the pallets through a cache that agrees with them
      returns the fresh digest, fails exactly when the pallet does not hash,
      and leaves a cache that still agrees. */
  lemma LookupAgrees(compute: Pallet -> Result<Digest>, pallets: seq<Pallet>, p: Pallet, cache: map<string, Digest>)
    requires p in pallets && NamesDetermine(pallets)
    requires CacheAgrees(compute, pallets, cache)
    ensures var found := CachedLookup(compute, p, cache);
      && (found.Ok? <==> compute(p).Ok?)
      && (found.Ok? ==> found.value.digest == compute(p).value
                        && CacheAgrees(compute, pallets, found.value.cache))
  {
    var found := CachedLookup(compute, p, cache);
    if found.Ok? {
      forall q | q in pallets && q.name in found.value.cache
        ensures compute(q) == Ok(found.value.cache[q.name])
      {
        if q.name == p.name {
          assert q == p;
        }
      }
    }
  }

  /** After the lookups of a prefix, the cache agrees with all the pallets. */
  lemma PrefixKeepsAgreement(compute: Pallet -> Result<Digest>, pallets: seq<Pallet>, n: nat, cache: map<string, Digest>)
    requires n <= |pallets| && NamesDetermine(pallets)
    requires CacheAgrees(compute, pallets, cache)
    requires PalletDigests(compute, pallets[..n], cache).Ok?
    requires CacheAgrees(compute, pallets[..n], PalletDigests(compute, pallets[..n], cache).value.cache)
    ensures CacheAgrees(compute, pallets, PalletDigests(compute, pallets[..n], cache).value.cache)
  {
    var known := PalletDigests(compute, pallets[..n], cache).value.cache;
    PalletDigestsCache(compute, pallets[..n], cache);
    forall p | p in pallets && p.name in known
      ensures compute(p) == Ok(known[p.name])
    {
      if p.name !in cache {
        var q :| q in pallets[..n] && q.name == p.name;
        assert q == p;
      }
    }
  }

  /** Every pallet hashes. */
  predicate AllHash(compute: Pallet -> Result<Digest>, pallets: seq<Pallet>)
  {
    forall p :: p in pallets ==> compute(p).Ok?
  }

  lemma AllHashSnoc(compute: Pallet -> Result<Digest>, pallets: seq<Pallet>)
    requires pallets != []
    ensures AllHash(compute, pallets)
            <==> AllHash(compute, pallets[..|pallets| - 1]) && compute(pallets[|pallets| - 1]).Ok?
  {
    assert pallets == pallets[..|pallets| - 1] + [pallets[|pallets| - 1]];
  }

  /** A prefix keeps both conditions of the whole. */
  lemma PrefixInherits(compute: Pallet -> Result<Digest>, pallets: seq<Pallet>, n: nat, cache: map<string, Digest>)
    requires n <= |pallets|
    requires NamesDetermine(pallets) && CacheAgrees(compute, pallets, cache)
    ensures NamesDetermine(pallets[..n]) && CacheAgrees(compute, pallets[..n], cache)
  {
    forall p | p in pallets[..n] ensures p in pallets {
    }
  }

  /** With pallet names that identify pallets and a cache that agrees with
      them, the lookups through the cache give, position by position, the
      fresh digests; they succeed exactly when every pallet hashes, and the
      cache still agrees afterwards. */
  lemma {:induction false} CachedDigestsAreFreshAt(compute: Pallet -> Result<Digest>, pallets: seq<Pallet>, cache: map<string, Digest>)
    requires NamesDetermine(pallets)
    requires CacheAgrees(compute, pallets, cache)
    ensures var r := PalletDigests(compute, pallets, cache);
      && (r.Ok? <==> AllHash(compute, pallets))
      && (r.Ok? ==> (forall i :: 0 <= i < |pallets| ==> r.value.pairs[i] == FreshPair(compute, pallets[i]))
                    && CacheAgrees(compute, pallets, r.value.cache))
    decreases |pallets|
  {
    if pallets != [] {
      var n := |pallets| - 1;
      var prefix, p := pallets[..n], pallets[n];
      AllHashSnoc(compute, pallets);
      PrefixInherits(compute, pallets, n, cache);
      CachedDigestsAreFreshAt(compute, prefix, cache);
      var init := PalletDigests(compute, prefix, cache);
      if init.Ok? {
        PrefixKeepsAgreement(compute, pallets, n, cache);
        LookupAgrees(compute, pallets, p, init.value.cache);
      }
    }
  }

  /** The same, with the pairs stated as the fresh pairs of the pallets in
      order. */
  lemma CachedDigestsAreFresh(compute: Pallet -> Result<Digest>, pallets: seq<Pallet>, cache: map<string, Digest>)
    requires NamesDetermine(pallets)
    requires CacheAgrees(compute, pallets, cache)
    ensures var r := PalletDigests(compute, pallets, cache);
      && (r.Ok? <==> AllHash(compute, pallets))
      && (r.Ok? ==> r.value.pairs == MapSeq(FreshPairs(compute), pallets)
                    && CacheAgrees(compute, pallets, r.value.cache))
  {
    CachedDigestsAreFreshAt(compute, pallets, cache);
  }

  /** Lookups of the same pallets, in any order, through the same agreeing
      cache leave the same cache behind. */
  lemma SameCacheAnyOrder(compute: Pallet -> Result<Digest>, ps: seq<Pallet>, qs: seq<Pallet>, cache: map<string, Digest>)
    requires forall p :: p in ps <==> p in qs
    requires PalletDigests(compute, ps, cache).Ok? && PalletDigests(compute, qs, cache).Ok?
    requires CacheAgrees(compute, ps, PalletDigests(compute, ps, cache).value.cache)
    requires CacheAgrees(compute, qs, PalletDigests(compute, qs, cache).value.cache)
    ensures PalletDigests(compute, ps, cache).value.cache == PalletDigests(compute, qs, cache).value.cache
  {
    var a := PalletDigests(compute, ps, cache).value.cache;
    var b := PalletDigests(compute, qs, cache).value.cache;
    PalletDigestsCache(compute, ps, cache);
    PalletDigestsCache(compute, qs, cache);
    assert Names(ps) == Names(qs);
    forall n | n in a ensures a[n] == b[n] {
      if n !in cache {
        var p :| p in ps && p.name == n;
        assert compute(p) == Ok(a[n]) && compute(p) == Ok(b[n]);
      }
    }
  }

  /** Starting from an empty cache, the lookups succeed exactly when every
      pallet hashes, and give the fresh digests. */
  lemma FreshRunDigests(compute: Pallet -> Result<Digest>, pallets: seq<Pallet>)
    requires NamesDetermine(pallets)
    ensures var r := PalletDigests(compute, pallets, map[]);
      && (r.Ok? <==> AllHash(compute, pallets))
      && (r.Ok? ==> MapSeq(Second, r.value.pairs) == MapSeq(Second, MapSeq(FreshPairs(compute), pallets)))
  {
    CachedDigestsAreFresh(compute, pallets, map[]);
  }

  /** If every pallet hashes, so does every pallet of a list that hashes
      the same, position by position. */
  lemma AllHashPointwise(compute: Pallet -> Result<Digest>, ps: seq<Pallet>, qs: seq<Pallet>)
    requires |ps| == |qs|
    requires forall i :: 0 <= i < |ps| ==> compute(qs[i]) == compute(ps[i])
    ensures AllHash(compute, ps) ==> AllHash(compute, qs)
  {
    if AllHash(compute, ps) {
      forall q | q in qs ensures compute(q).Ok? {
        var i :| 0 <= i < |qs| && qs[i] == q;
        assert ps[i] in ps;
      }
    }
  }

  /** Lists that hash the same, position by position, have the same fresh
      digests. */
  lemma FreshDigestsPointwise(compute: Pallet -> Result<Digest>, ps: seq<Pallet>, qs: seq<Pallet>)
    requires |ps| == |qs|
    requires forall i :: 0 <= i < |ps| ==> compute(qs[i]) == compute(ps[i])
    ensures MapSeq(Second, MapSeq(FreshPairs(compute), ps)) == MapSeq(Second, MapSeq(FreshPairs(compute), qs))
  {
    var a, b := MapSeq(Second, MapSeq(FreshPairs(compute), ps)), MapSeq(Second, MapSeq(FreshPairs(compute), qs));
    forall i | 0 <= i < |ps| ensures a[i] == b[i] {
      assert a[i] == FreshPair(compute, ps[i]).1;
      assert b[i] == FreshPair(compute, qs[i]).1;
    }
  }

  /** Pallets that hash the same, position by position, give the same
      digests, whatever their names. */
  lemma SameDigestsPointwise(compute: Pallet -> Result<Digest>, ps: seq<Pallet>, qs: seq<Pallet>)
    requires |ps| == |qs|
    requires forall i :: 0 <= i < |ps| ==> compute(qs[i]) == compute(ps[i])
    requires NamesDetermine(ps) && NamesDetermine(qs)
    ensures PalletDigests(compute, ps, map[]).Ok? <==> PalletDigests(compute, qs, map[]).Ok?
    ensures PalletDigests(compute, ps, map[]).Ok? ==>
      MapSeq(Second, PalletDigests(compute, ps, map[]).value.pairs)
        == MapSeq(Second, PalletDigests(compute, qs, map[]).value.pairs)
  {
    FreshRunDigests(compute, ps);
    FreshRunDigests(compute, qs);
    AllHashPointwise(compute, ps, qs);
    AllHashPointwise(compute, qs, ps);
    FreshDigestsPointwise(compute, ps, qs);
  }

  /** The metadata outcome depends on the pallets only through the digests
      their lookups produce, taken as a multiset. */
  lemma SameDigestsSameHash(c: Codec, md: Metadata, other: Metadata, cache: map<string, Digest>, cache': map<string, Digest>)
    requires other.types == md.types && other.extrinsic == md.extrinsic && other.ty == md.ty
    requires PalletDigests(FreshDigest(c, md.types), other.pallets, cache').Ok?
             <==> PalletDigests(FreshDigest(c, md.types), md.pallets, cache).Ok?
    requires PalletDigests(FreshDigest(c, md.types), md.pallets, cache).Ok? ==>
      multiset(MapSeq(Second, PalletDigests(FreshDigest(c, md.types), other.pallets, cache').value.pairs))
        == multiset(MapSeq(Second, PalletDigests(FreshDigest(c, md.types), md.pallets, cache).value.pairs))
    ensures MetadataHash(c, other, cache').Ok? <==> MetadataHash(c, md, cache).Ok?
    ensures MetadataHash(c, md, cache).Ok? ==>
      MetadataHash(c, other, cache').value.digest == MetadataHash(c, md, cache).value.digest
  {
    if MetadataHash(c, md, cache).Ok? {
      var a := PalletDigests(FreshDigest(c, md.types), md.pallets, cache).value.pairs;
      var b := PalletDigests(FreshDigest(c, md.types), other.pallets, cache').value.pairs;
      SortedConcatDetermined(b, a);
      PreimageSections(c, md, cache);
      PreimageSections(c, other, cache');
    }
  }

  /** Reordering the pallets changes neither whether hashing succeeds, nor
      the digest, nor the cache left behind, provided names identify
      pallets and the cache agrees with them. Which unknown id a failure
      reports may change: the first failing pallet comes first. */
  lemma MetadataPermutation(c: Codec, md: Metadata, pallets: seq<Pallet>, cache: map<string, Digest>)
    requires multiset(pallets) == multiset(md.pallets)
    requires NamesDetermine(md.pallets)
    requires CacheAgrees(FreshDigest(c, md.types), md.pallets, cache)
    ensures MetadataHash(c, md.(pallets := pallets), cache).Ok? <==> MetadataHash(c, md, cache).Ok?
    ensures MetadataHash(c, md, cache).Ok? ==>
      MetadataHash(c, md.(pallets := pallets), cache).value == MetadataHash(c, md, cache).value
  {
    var compute := FreshDigest(c, md.types);
    forall p ensures p in pallets <==> p in md.pallets {
      assert p in pallets <==> p in multiset(pallets);
    }
    CachedDigestsAreFresh(compute, md.pallets, cache);
    CachedDigestsAreFresh(compute, pallets, cache);
    var r1 := PalletDigests(compute, md.pallets, cache);
    var r2 := PalletDigests(compute, pallets, cache);
    if r1.Ok? {
      MapSeqMultiset(FreshPairs(compute), pallets, md.pallets);
      MapSeqMultiset(Second, r2.value.pairs, r1.value.pairs);
      SameCacheAnyOrder(compute, md.pallets, pallets, cache);
    }
    SameDigestsSameHash(c, md, md.(pallets := pallets), cache, cache);
  }

  /** Hashing with a cache that agrees with the pallets, warm or not, gives
      what hashing with an empty cache gives. */
  lemma AgreeingCacheSameDigest(c: Codec, md: Metadata, cache: map<string, Digest>)
    requires NamesDetermine(md.pallets)
    requires CacheAgrees(FreshDigest(c, md.types), md.pallets, cache)
    ensures MetadataHash(c, md, cache).Ok? <==> MetadataHash(c, md, map[]).Ok?
    ensures MetadataHash(c, md, cache).Ok? ==>
      MetadataHash(c, md, cache).value.digest == MetadataHash(c, md, map[]).value.digest
  {
    CachedDigestsAreFresh(FreshDigest(c, md.types), md.pallets, cache);
    CachedDigestsAreFresh(FreshDigest(c, md.types), md.pallets, map[]);
    SameDigestsSameHash(c, md, md, map[], cache);
  }

  /** Looking the same pallets up again, through the cache the first
      lookups filled, gives the same pairs and leaves that cache as it is. */
  lemma WarmLookupsSame(compute: Pallet -> Result<Digest>, pallets: seq<Pallet>, cache: map<string, Digest>)
    requires NamesDetermine(pallets)
    requires CacheAgrees(compute, pallets, cache)
    requires PalletDigests(compute, pallets, cache).Ok?
    ensures var first := PalletDigests(compute, pallets, cache).value;
      PalletDigests(compute, pallets, first.cache) == Ok(first)
  {
    CachedDigestsAreFresh(compute, pallets, cache);
    var r1 := PalletDigests(compute, pallets, cache).value;
    CachedDigestsAreFresh(compute, pallets, r1.cache);
    var r2 := PalletDigests(compute, pallets, r1.cache).value;
    PalletDigestsCache(compute, pallets, cache);
    PalletDigestsCache(compute, pallets, r1.cache);
    assert r2.cache == r1.cache;
  }

  /** A second run with the cache the first one filled returns the first
      run's digest and cache. */
  lemma WarmCacheSameResult(c: Codec, md: Metadata, cache: map<string, Digest>)
    requires NamesDetermine(md.pallets)
    requires CacheAgrees(FreshDigest(c, md.types), md.pallets, cache)
    requires MetadataHash(c, md, cache).Ok?
    ensures var first := MetadataHash(c, md, cache).value;
      MetadataHash(c, md, first.cache) == Ok(first)
  {
    WarmLookupsSame(FreshDigest(c, md.types), md.pallets, cache);
    var r1 := PalletDigests(FreshDigest(c, md.types), md.pallets, cache).value;
    PreimageSections(c, md, cache);
    PreimageSections(c, md, r1.cache);
  }

  /** Looking every pallet up through one shared cache gives, pallet by
      pallet, what looking it up through a new cache of its own gives, and
      both succeed together, provided names identify pallets. */
  lemma OneCacheMatchesFreshCaches(c: Codec, reg: Registry, pallets: seq<Pallet>)
    requires NamesDetermine(pallets)
    ensures var shared := PalletDigests(FreshDigest(c, reg), pallets, map[]);
      && (shared.Ok? <==> forall p :: p in pallets ==> PalletLookup(c, reg, p, map[]).Ok?)
      && (shared.Ok? ==> forall i :: 0 <= i < |pallets| ==>
            shared.value.pairs[i] == (pallets[i].name, PalletLookup(c, reg, pallets[i], map[]).value.digest))
  {
    var compute := FreshDigest(c, reg);
    CachedDigestsAreFresh(compute, pallets, map[]);
    var shared := PalletDigests(compute, pallets, map[]);
    assert AllHash(compute, pallets) <==> forall p :: p in pallets ==> PalletLookup(c, reg, p, map[]).Ok?;
    if shared.Ok? {
      forall i | 0 <= i < |pallets|
        ensures shared.value.pairs[i] == (pallets[i].name, PalletLookup(c, reg, pallets[i], map[]).value.digest)
      {
        assert pallets[i] in pallets;
        assert shared.value.pairs[i] == FreshPair(compute, pallets[i]);
      }
    }
  }

  /** After hashing the metadata with a new cache, the cache holds, for
      every pallet, the digest that hashing the pallet alone with a new cache
      gives, and looking the pallet up again returns that entry and changes
      nothing. */
  lemma MetadataCacheHoldsFreshDigests(c: Codec, md: Metadata)
    requires NamesDetermine(md.pallets)
    requires MetadataHash(c, md, map[]).Ok?
    ensures var cache := MetadataHash(c, md, map[]).value.cache;
      forall p :: p in md.pallets ==>
        && PalletHash(c, md.types, p).Ok?
        && p.name in cache && cache[p.name] == PalletHash(c, md.types, p).value.digest
        && PalletLookup(c, md.types, p, cache) == Ok(Cached(cache[p.name], cache))
  {
    var compute := FreshDigest(c, md.types);
    CachedDigestsAreFresh(compute, md.pallets, map[]);
    PalletDigestsCache(compute, md.pallets, map[]);
    var cache := PalletDigests(compute, md.pallets, map[]).value.cache;
    forall p | p in md.pallets
      ensures PalletHash(c, md.types, p).Ok? && p.name in cache
              && cache[p.name] == PalletHash(c, md.types, p).value.digest
    {
      assert p.name in Names(md.pallets);
      assert compute(p) == Ok(cache[p.name]);
    }
  }

  /** Renaming pallets leaves the metadata digest as it is: names only key
      the cache. */
  lemma PalletNamesExcluded(c: Codec, md: Metadata, renamed: seq<Pallet>)
    requires |renamed| == |md.pallets|
    requires forall i :: 0 <= i < |renamed| ==> renamed[i] == md.pallets[i].(name := renamed[i].name)
    requires NamesDetermine(md.pallets) && NamesDetermine(renamed)
    ensures MetadataHash(c, md.(pallets := renamed), map[]).Ok? <==> MetadataHash(c, md, map[]).Ok?
    ensures MetadataHash(c, md, map[]).Ok? ==>
      MetadataHash(c, md.(pallets := renamed), map[]).value.digest == MetadataHash(c, md, map[]).value.digest
  {
    var compute := FreshDigest(c, md.types);
    forall i | 0 <= i < |renamed| ensures compute(renamed[i]) == compute(md.pallets[i]) {
      PalletNameNotHashed(c, md.types, md.pallets[i], renamed[i].name);
    }
    SameDigestsPointwise(compute, md.pallets, renamed);
    SameDigestsSameHash(c, md, md.(pallets := renamed), map[], map[]);
  }
}
