/** The digest of a pallet and the caller-owned cache of pallet digests.

    The pallet preimage is, in this order: the pallet tag; the digest of the
    calls type, if any; of the event type, if any; for each constant its name
    bytes, its encoded value and its type's digest; the digest of the error
    type, if any; and, if the pallet has storage, the storage prefix followed,
    per entry, by the entry name, its encoded modifier, either the plain value
    type's digest or the encoded hashers with the key and value types'
    digests, and the entry's encoded default. One visited set, started empty,
    runs through the whole pallet. The pallet's name is not hashed; it keys
    the cache. */
module PalletHasher {
  import opened Basics
  import opened ScaleInfo
  import opened FrameMetadata
  import opened Primitives
  import opened TypeHasher

  /** The digest of an optional type reference, or nothing. */
  function OptionalTypeBytes(c: Codec, reg: Registry, ty: Option<TypeId>, visited: set<TypeId>): (r: Result<Built>)
    ensures r.Ok? ==> visited <= r.value.visited
    ensures r.Ok? ==> |r.value.bytes| == if ty.Some? then 32 else 0
    ensures ty.None? ==> r == Ok(Built([], visited))
    ensures ty.Some? && r.Ok? ==> var t := TypeHash(c, reg, ty.value, visited);
      t.Ok? && r.value == Built(t.value.digest, t.value.visited)
    ensures r.UnknownTypeId? ==> r.id !in reg
    ensures Closed(reg) && OptionIn(ty, reg) ==> r.Ok?
  {
    match ty
    case None => Ok(Built([], visited))
    case Some(id) =>
      var t :- TypeHash(c, reg, id, visited);
      Ok(Built(t.digest, t.visited))
  }

  function ConstantBytes(c: Codec, reg: Registry, k: PalletConstant, visited: set<TypeId>): (r: Result<Built>)
    ensures r.Ok? ==> visited + {k.ty} <= r.value.visited
    ensures r.Ok? ==> |r.value.bytes| == |c.utf8(k.name)| + |k.value| + 32
    ensures r.UnknownTypeId? ==> r.id !in reg
    ensures Closed(reg) && k.ty in reg ==> r.Ok?
  {
    var t :- TypeHash(c, reg, k.ty, visited);
    Ok(Built(c.utf8(k.name) + k.value + t.digest, t.visited))
  }

  function ConstantStep(c: Codec, reg: Registry): (PalletConstant, set<TypeId>) -> Result<Built>
  {
    (k, visited) => ConstantBytes(c, reg, k, visited)
  }

  /** The part of a storage entry that comes before its default bytes. */
  function EntryTypeBytes(c: Codec, reg: Registry, ty: StorageEntryType, visited: set<TypeId>): (r: Result<Built>)
    ensures r.Ok? ==> visited <= r.value.visited
    ensures r.Ok? && ty.Plain? ==> |r.value.bytes| == 32
    ensures r.Ok? && ty.Map? ==> |r.value.bytes| == |c.encodeHashers(ty.hashers)| + 64
    ensures r.UnknownTypeId? ==> r.id !in reg
    ensures Closed(reg) && EntryTypeIn(ty, reg) ==> r.Ok?
  {
    match ty
    case Plain(value) =>
      var v :- TypeHash(c, reg, value, visited);
      Ok(Built(v.digest, v.visited))
    case Map(hashers, key, value) =>
      var k :- TypeHash(c, reg, key, visited);
      var v :- TypeHash(c, reg, value, k.visited);
      Ok(Built(c.encodeHashers(hashers) + k.digest + v.digest, v.visited))
  }

  function EntryBytes(c: Codec, reg: Registry, e: StorageEntry, visited: set<TypeId>): (r: Result<Built>)
    ensures r.Ok? ==> visited <= r.value.visited
    ensures r.Ok? ==> |r.value.bytes| >= |e.default|
                      && r.value.bytes[|r.value.bytes| - |e.default|..] == e.default
    ensures r.UnknownTypeId? ==> r.id !in reg
    ensures Closed(reg) && EntryTypeIn(e.ty, reg) ==> r.Ok?
  {
    var ty :- EntryTypeBytes(c, reg, e.ty, visited);
    var bytes := c.utf8(e.name) + c.encodeModifier(e.modifier) + ty.bytes + e.default;
    assert bytes[|bytes| - |e.default|..] == e.default;
    Ok(Built(bytes, ty.visited))
  }

  function EntryStep(c: Codec, reg: Registry): (StorageEntry, set<TypeId>) -> Result<Built>
  {
    (e, visited) => EntryBytes(c, reg, e, visited)
  }

  function StorageBytes(c: Codec, reg: Registry, storage: Option<PalletStorage>, visited: set<TypeId>): (r: Result<Built>)
    ensures storage.None? ==> r == Ok(Built([], visited))
    ensures storage.Some? && r.Ok? ==>
      var entries := Fold(EntryStep(c, reg), storage.value.entries, visited);
      entries.Ok? && r.value == Built(c.utf8(storage.value.prefix) + entries.value.bytes, entries.value.visited)
    ensures r.UnknownTypeId? ==> r.id !in reg
    ensures Closed(reg) && StorageIn(storage, reg) ==> r.Ok?
  {
    match storage
    case None => Ok(Built([], visited))
    case Some(s) =>
      FoldFailsOutside(EntryStep(c, reg), s.entries, visited, reg);
      assert Closed(reg) && StorageIn(storage, reg) ==> Fold(EntryStep(c, reg), s.entries, visited).Ok? by {
        if Closed(reg) && StorageIn(storage, reg) {
          FoldSucceeds(EntryStep(c, reg), s.entries, visited);
        }
      }
      var entries :- Fold(EntryStep(c, reg), s.entries, visited);
      Ok(Built(c.utf8(s.prefix) + entries.bytes, entries.visited))
  }

  /** A constant contributes its name bytes, its value bytes, then its
      type's digest. */
  lemma ConstantLayout(c: Codec, reg: Registry, k: PalletConstant, visited: set<TypeId>)
    requires ConstantBytes(c, reg, k, visited).Ok?
    ensures var t := TypeHash(c, reg, k.ty, visited);
      && t.Ok?
      && ConstantBytes(c, reg, k, visited).value == Built(c.utf8(k.name) + k.value + t.value.digest, t.value.visited)
  {
  }

  /** A storage entry contributes its name bytes and encoded modifier, then
      either the plain value type's digest or the encoded hashers followed by
      the key and value types' digests (the value's computed with the
      visited set the key's left), then its default bytes. */
  lemma EntryLayout(c: Codec, reg: Registry, e: StorageEntry, visited: set<TypeId>)
    requires EntryBytes(c, reg, e, visited).Ok?
    ensures e.ty.Plain? ==>
      var v := TypeHash(c, reg, e.ty.value, visited);
      && v.Ok?
      && EntryBytes(c, reg, e, visited).value.bytes
         == c.utf8(e.name) + c.encodeModifier(e.modifier) + v.value.digest + e.default
    ensures e.ty.Map? ==>
      var k := TypeHash(c, reg, e.ty.key, visited);
      && k.Ok? && TypeHash(c, reg, e.ty.value, k.value.visited).Ok?
      && EntryBytes(c, reg, e, visited).value.bytes
         == c.utf8(e.name) + c.encodeModifier(e.modifier) + c.encodeHashers(e.ty.hashers) + k.value.digest
            + TypeHash(c, reg, e.ty.value, k.value.visited).value.digest + e.default
  {
  }

  /** An entry's default bytes come last, and nothing before them depends
      on them. */
  lemma EntryDefaultLast(c: Codec, reg: Registry, e: StorageEntry, d: seq<uint8>, visited: set<TypeId>)
    requires EntryBytes(c, reg, e, visited).Ok?
    ensures SwapsTail(EntryBytes(c, reg, e, visited).value, EntryBytes(c, reg, e.(default := d), visited), e.default, d)
  {
    var r := EntryBytes(c, reg, e, visited).value;
    var ty := EntryTypeBytes(c, reg, e.ty, visited).value;
    var head := c.utf8(e.name) + c.encodeModifier(e.modifier) + ty.bytes;
    assert r.bytes == head + e.default;
    assert r.bytes[..|r.bytes| - |e.default|] == head;
  }

  /** Changing the default of entry `i` changes just that stretch of the
      storage entries' bytes. */
  lemma EntriesWithDefault(c: Codec, reg: Registry, entries: seq<StorageEntry>, i: nat, d: seq<uint8>, visited: set<TypeId>)
    returns (x: seq<uint8>, y: seq<uint8>)
    requires i < |entries| && Fold(EntryStep(c, reg), entries, visited).Ok?
    ensures var changed := Fold(EntryStep(c, reg), entries[i := entries[i].(default := d)], visited);
      && changed.Ok?
      && Fold(EntryStep(c, reg), entries, visited).value.bytes == x + entries[i].default + y
      && changed.value.bytes == x + d + y
  {
    var e := entries[i];
    forall w | EntryStep(c, reg)(e, w).Ok?
      ensures SwapsTail(EntryStep(c, reg)(e, w).value, EntryStep(c, reg)(e.(default := d), w), e.default, d)
    {
      EntryDefaultLast(c, reg, e, d, w);
    }
    x, y := FoldSwapOne(EntryStep(c, reg), entries, i, e.(default := d), visited, e.default, d);
  }

  /** The pallet preimage up to the storage section: the tag, then the calls,
      event, constants and error sections, with one visited set started
      empty. */
  function BeforeStorage(c: Codec, reg: Registry, p: Pallet): (r: Result<Built>)
    ensures r.Ok? ==> |r.value.bytes| > 0 && r.value.bytes[0] == PalletTag
    ensures p.calls.Some? && p.calls.value !in reg ==> r == UnknownTypeId(p.calls.value)
    ensures r.UnknownTypeId? ==> r.id !in reg
    ensures Closed(reg) && PalletIn(p, reg) ==> r.Ok?
  {
    var calls :- OptionalTypeBytes(c, reg, p.calls, {});
    var event :- OptionalTypeBytes(c, reg, p.event, calls.visited);
    FoldFailsOutside(ConstantStep(c, reg), p.constants, event.visited, reg);
    assert Closed(reg) && PalletIn(p, reg) ==> Fold(ConstantStep(c, reg), p.constants, event.visited).Ok? by {
      if Closed(reg) && PalletIn(p, reg) {
        FoldSucceeds(ConstantStep(c, reg), p.constants, event.visited);
      }
    }
    var constants :- Fold(ConstantStep(c, reg), p.constants, event.visited);
    var error :- OptionalTypeBytes(c, reg, p.error, constants.visited);
    Ok(Built([PalletTag] + calls.bytes + event.bytes + constants.bytes + error.bytes, error.visited))
  }

  /** The sections before storage do not look at the storage. */
  lemma BeforeStorageIgnoresStorage(c: Codec, reg: Registry, p: Pallet, storage: Option<PalletStorage>)
    ensures BeforeStorage(c, reg, p.(storage := storage)) == BeforeStorage(c, reg, p)
  {
  }

  /** The pallet digest, computed afresh. */
  function PalletHash(c: Codec, reg: Registry, p: Pallet): (r: Result<Hashed>)
    ensures r.Ok? ==> Tagged(c, r.value, PalletTag)
    ensures p.calls.Some? && p.calls.value !in reg ==> r == UnknownTypeId(p.calls.value)
    ensures r.UnknownTypeId? ==> r.id !in reg
    ensures Closed(reg) && PalletIn(p, reg) ==> r.Ok?
  {
    var front :- BeforeStorage(c, reg, p);
    var storage :- StorageBytes(c, reg, p.storage, front.visited);
    Ok(Finish(c, front.bytes + storage.bytes, storage.visited))
  }

  /** The pallet preimage in order: the tag, the calls, event, constants,
      error and storage sections, each computed with the visited set the
      one before it left; in particular the calls type's digest, when there
      is one, directly follows the tag. */
  lemma PalletLayout(c: Codec, reg: Registry, p: Pallet)
    requires PalletHash(c, reg, p).Ok?
    ensures var calls := OptionalTypeBytes(c, reg, p.calls, {});
      var event := OptionalTypeBytes(c, reg, p.event, calls.value.visited);
      var constants := Fold(ConstantStep(c, reg), p.constants, event.value.visited);
      var error := OptionalTypeBytes(c, reg, p.error, constants.value.visited);
      var storage := StorageBytes(c, reg, p.storage, error.value.visited);
      && calls.Ok? && event.Ok? && constants.Ok? && error.Ok? && storage.Ok?
      && PalletHash(c, reg, p).value.preimage
         == [PalletTag] + calls.value.bytes + event.value.bytes + constants.value.bytes
            + error.value.bytes + storage.value.bytes
    ensures p.calls.Some? ==>
      var t := TypeHash(c, reg, p.calls.value, {});
      t.Ok? && PalletHash(c, reg, p).value.preimage[1..33] == t.value.digest
  {
    StorageSection(c, reg, p);
  }

  /** The pallet's name is not part of its digest. */
  lemma PalletNameNotHashed(c: Codec, reg: Registry, p: Pallet, name: string)
    ensures PalletHash(c, reg, p.(name := name)) == PalletHash(c, reg, p)
  {
  }

  /** A pallet hashes exactly when the sections before storage and the
      storage section do, and its preimage is the one followed by the
      other. */
  lemma StorageSection(c: Codec, reg: Registry, p: Pallet)
    ensures var front := BeforeStorage(c, reg, p);
      && (PalletHash(c, reg, p).Ok? <==> front.Ok? && StorageBytes(c, reg, p.storage, front.value.visited).Ok?)
      && (PalletHash(c, reg, p).Ok? ==>
            PalletHash(c, reg, p).value.preimage
              == front.value.bytes + StorageBytes(c, reg, p.storage, front.value.visited).value.bytes)
  {
  }

  /** Changing the default bytes of any one storage entry changes the
      pallet preimage (the digest itself is only as distinct as the hash
      makes it). */
  lemma DefaultChangesPreimage(c: Codec, reg: Registry, p: Pallet, i: nat, d: seq<uint8>)
    requires p.storage.Some? && i < |p.storage.value.entries|
    requires d != p.storage.value.entries[i].default
    requires PalletHash(c, reg, p).Ok?
    ensures var s := p.storage.value;
      var q := p.(storage := Some(s.(entries := s.entries[i := s.entries[i].(default := d)])));
      PalletHash(c, reg, q).Ok? && PalletHash(c, reg, q).value.preimage != PalletHash(c, reg, p).value.preimage
  {
    var s := p.storage.value;
    var q := p.(storage := Some(s.(entries := s.entries[i := s.entries[i].(default := d)])));
    BeforeStorageIgnoresStorage(c, reg, p, q.storage);
    StorageSection(c, reg, p);
    StorageSection(c, reg, q);
    var front := BeforeStorage(c, reg, p).value;
    var x, z := EntriesWithDefault(c, reg, s.entries, i, d, front.visited);
    var head := front.bytes + c.utf8(s.prefix);
    var sp := StorageBytes(c, reg, p.storage, front.visited).value.bytes;
    var sq := StorageBytes(c, reg, q.storage, front.visited).value.bytes;
    var u, t := c.utf8(s.prefix), s.entries[i].default;
    assert sp == u + (x + t + z);
    assert sq == u + (x + d + z);
    assert PalletHash(c, reg, p).value.preimage == front.bytes + sp;
    assert PalletHash(c, reg, q).value.preimage == front.bytes + sq;
    Regroup(front.bytes, u, x, t, z);
    Regroup(front.bytes, u, x, d, z);
    MiddleDiffers(head + x, t, d, z);
  }

  /** A digest and the cache contents that come with it. */
  datatype Cached = Cached(digest: Digest, cache: map<string, Digest>)

  /** A pallet's digest computed afresh. */
  function FreshDigest(c: Codec, reg: Registry): Pallet -> Result<Digest>
  {
    p => match PalletHash(c, reg, p)
      case Ok(h) => Ok(h.digest)
      case UnknownTypeId(id) => UnknownTypeId(id)
  }

  /** A lookup through the cache of the digest `compute` gives: the cached
      digest when the pallet's name is present (whatever the pallet's
      content), otherwise the fresh digest, which is then recorded under the
      name. */
  function CachedLookup(compute: Pallet -> Result<Digest>, p: Pallet, cache: map<string, Digest>): (r: Result<Cached>)
    ensures p.name in cache ==> r == Ok(Cached(cache[p.name], cache))
    ensures p.name !in cache ==> (r.Ok? <==> compute(p).Ok?)
    ensures p.name !in cache && r.Ok? ==> r.value.digest == compute(p).value
    ensures r.Ok? ==> p.name in r.value.cache && r.value.cache[p.name] == r.value.digest
    ensures r.Ok? ==> r.value.cache.Keys == cache.Keys + {p.name}
    ensures r.Ok? ==> forall n :: n in cache ==> r.value.cache[n] == cache[n]
  {
    if p.name in cache then Ok(Cached(cache[p.name], cache))
    else
      var d :- compute(p);
      Ok(Cached(d, cache[p.name := d]))
  }

  /** The lookup `get_pallet_hash` performs: through the cache, computing
      the pallet digest afresh on a miss. */
  function PalletLookup(c: Codec, reg: Registry, p: Pallet, cache: map<string, Digest>): (r: Result<Cached>)
    ensures r.Ok? <==> p.name in cache || PalletHash(c, reg, p).Ok?
    ensures p.name !in cache && r.Ok? ==> r.value.digest == PalletHash(c, reg, p).value.digest
  {
    CachedLookup(FreshDigest(c, reg), p, cache)
  }

  /** A second lookup returns the digest of the first and changes nothing. */
  lemma LookupTwice(c: Codec, reg: Registry, p: Pallet, cache: map<string, Digest>)
    requires PalletLookup(c, reg, p, cache).Ok?
    ensures var first := PalletLookup(c, reg, p, cache).value;
      PalletLookup(c, reg, p, first.cache) == Ok(first)
  {
  }

  /** The hasher's cache of pallet digests, keyed by pallet name. It records
      nothing about the registry it was filled from: one cache belongs to one
      hashing run over one metadata. */
  class MetadataHasherCache {
    var pallets: map<string, Digest>

    constructor ()
      ensures pallets == map[]
    {
      pallets := map[];
    }
  }

  /** Extends the buffer with the digest of an optional type (calls, event
      or error). */
  method ExtendWithOptionalType(c: Codec, reg: Registry, ty: Option<TypeId>, bytes: seq<uint8>, visited: set<TypeId>)
    returns (r: Result<Built>)
    ensures r == Append(bytes, OptionalTypeBytes(c, reg, ty, visited))
  {
    if ty.None? {
      assert bytes + [] == bytes;
      return Ok(Built(bytes, visited));
    }
    var t := TypeHash(c, reg, ty.value, visited);
    if t.UnknownTypeId? {
      return UnknownTypeId(t.id);
    }
    return Ok(Built(bytes + t.value.digest, t.value.visited));
  }

  /** Extends the buffer item by item with what `step` produces, threading
      the visited set, and stops at the first unknown type id. */
  method ExtendWithEach<T>(step: (T, set<TypeId>) -> Result<Built>, items: seq<T>, bytes: seq<uint8>, visited: set<TypeId>)
    returns (r: Result<Built>)
    ensures r == Append(bytes, Fold(step, items, visited))
  {
    var buffer, seen := bytes, visited;
    ghost var done := Built([], visited);
    for i := 0 to |items|
      invariant Fold(step, items[..i], visited) == Ok(done)
      invariant buffer == bytes + done.bytes && seen == done.visited
    {
      var next := step(items[i], seen);
      if next.UnknownTypeId? {
        FoldStops(step, items, visited, i, done);
        return UnknownTypeId(next.id);
      }
      FoldNext(step, items, visited, i, done, next.value);
      buffer, seen := buffer + next.value.bytes, next.value.visited;
      done := Built(done.bytes + next.value.bytes, next.value.visited);
    }
    assert items[..|items|] == items;
    return Ok(Built(buffer, seen));
  }

  /** Extends the buffer with the storage section, if the pallet has one:
      the prefix, then every entry in declared order. */
  method ExtendWithStorage(c: Codec, reg: Registry, storage: Option<PalletStorage>, bytes: seq<uint8>, visited: set<TypeId>)
    returns (r: Result<Built>)
    ensures r == Append(bytes, StorageBytes(c, reg, storage, visited))
  {
    if storage.None? {
      assert bytes + [] == bytes;
      return Ok(Built(bytes, visited));
    }
    var prefix := c.utf8(storage.value.prefix);
    r := ExtendWithEach(EntryStep(c, reg), storage.value.entries, bytes + prefix, visited);
    if r.Ok? {
      ghost var all := Fold(EntryStep(c, reg), storage.value.entries, visited).value;
      assert r.value.bytes == bytes + (prefix + all.bytes);
    }
  }

  /** Looks the pallet up in `cache`; on a miss hashes it and records the
      digest under the pallet's name. On an unknown type id the cache is left
      as it was. */
  method GetPalletHash(c: Codec, reg: Registry, pallet: Pallet, cache: MetadataHasherCache) returns (r: Result<Digest>)
    modifies cache
    ensures match PalletLookup(c, reg, pallet, old(cache.pallets))
      case Ok(found) => r == Ok(found.digest) && cache.pallets == found.cache
      case UnknownTypeId(id) => r == UnknownTypeId(id) && cache.pallets == old(cache.pallets)
  {
    if pallet.name in cache.pallets {
      return Ok(cache.pallets[pallet.name]);
    }
    var calls := ExtendWithOptionalType(c, reg, pallet.calls, [PalletTag], {});
    if calls.UnknownTypeId? {
      return UnknownTypeId(calls.id);
    }
    var event := ExtendWithOptionalType(c, reg, pallet.event, calls.value.bytes, calls.value.visited);
    if event.UnknownTypeId? {
      return UnknownTypeId(event.id);
    }
    var constants := ExtendWithEach(ConstantStep(c, reg), pallet.constants, event.value.bytes, event.value.visited);
    if constants.UnknownTypeId? {
      return UnknownTypeId(constants.id);
    }
    var error := ExtendWithOptionalType(c, reg, pallet.error, constants.value.bytes, constants.value.visited);
    if error.UnknownTypeId? {
      return UnknownTypeId(error.id);
    }
    var storage := ExtendWithStorage(c, reg, pallet.storage, error.value.bytes, error.value.visited);
    if storage.UnknownTypeId? {
      return UnknownTypeId(storage.id);
    }
    var digest := c.hash(storage.value.bytes);
    cache.pallets := cache.pallets[pallet.name := digest];
    return Ok(digest);
  }
}
