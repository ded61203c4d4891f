/** Concrete schemas: a one-type registry with a `Balances` pallet holding a
    single plain storage entry, the same pallet pointing at a missing type,
    and a type that contains itself. */
module Scenarios {
  import opened Basics
  import opened ScaleInfo
  import opened FrameMetadata
  import opened Primitives
  import opened TypeHasher
  import opened PalletHasher

  /** A registry holding only `u32`, under id 7. */
  function U32Registry(): Registry
  {
    map[7 := Type([], Primitive(U32))]
  }

  /** `Balances` with no calls, event, constants or error, and one storage
      entry `TotalIssuance` of type `ty` with the given default bytes. */
  function Balances(ty: TypeId, default: seq<uint8>): Pallet
  {
    Pallet("Balances",
           Some(PalletStorage("Balances", [StorageEntry("TotalIssuance", Default, Plain(ty), default)])),
           None, None, [], None, 0)
  }

  /** The pallet hashes, and changing the default from `[0, 0, 0, 0]` to
      `[1, 0, 0, 0]` changes its preimage. */
  lemma BalancesDefaultMatters(c: Codec)
    ensures PalletHash(c, U32Registry(), Balances(7, [0, 0, 0, 0])).Ok?
    ensures PalletHash(c, U32Registry(), Balances(7, [1, 0, 0, 0])).Ok?
    ensures PalletHash(c, U32Registry(), Balances(7, [0, 0, 0, 0])).value.preimage
            != PalletHash(c, U32Registry(), Balances(7, [1, 0, 0, 0])).value.preimage
  {
    var p := Balances(7, [0, 0, 0, 0]);
    assert TypeHash(c, U32Registry(), 7, {}).Ok?;
    var s := p.storage.value;
    var e := s.entries[0].(default := [1, 0, 0, 0]);
    assert e == StorageEntry("TotalIssuance", Default, Plain(7), [1, 0, 0, 0]);
    assert s.entries[0 := e] == [e];
    assert p.(storage := Some(s.(entries := s.entries[0 := e]))) == Balances(7, [1, 0, 0, 0]);
    DefaultChangesPreimage(c, U32Registry(), p, 0, [1, 0, 0, 0]);
  }

  /** A storage entry whose type id 99 is not registered makes the pallet
      fail with that id. */
  lemma BalancesUnknownType(c: Codec)
    ensures PalletHash(c, U32Registry(), Balances(99, [0, 0, 0, 0])) == UnknownTypeId(99)
  {
    assert TypeHash(c, U32Registry(), 99, {}) == UnknownTypeId(99);
  }

  /** A node type whose only field is of its own type. */
  function NodeRegistry(): Registry
  {
    map[1 := Type(["Node"], Composite([Field(None, 1, None)]))]
  }

  /** The self-referential type hashes; its field, met again inside its own
      definition, is hashed from its path alone. */
  lemma SelfReferenceTerminates(c: Codec)
    ensures TypeHash(c, NodeRegistry(), 1, {}).Ok?
    ensures TypeHash(c, NodeRegistry(), 1, {1}) == Ok(Finish(c, [TypeTag] + c.encodePath(["Node"]), {1}))
  {
    assert Closed(NodeRegistry());
  }
}
