/** The runtime metadata (version 14 shape) as the hasher sees it: pallets,
    the extrinsic envelope and the outer call type, over one registry.
    Documentation strings and pallet indices are not hashed. */
module FrameMetadata {
  import opened Basics
  import opened ScaleInfo

  datatype StorageEntryModifier = Optional | Default

  datatype StorageHasher =
    | Blake2_128 | Blake2_256 | Blake2_128Concat
    | Twox128 | Twox256 | Twox64Concat | Identity

  datatype StorageEntryType =
    | Plain(value: TypeId)
    | Map(hashers: seq<StorageHasher>, key: TypeId, value: TypeId)

  datatype StorageEntry = StorageEntry(
    name: string,
    modifier: StorageEntryModifier,
    ty: StorageEntryType,
    default: seq<uint8>)

  datatype PalletStorage = PalletStorage(prefix: string, entries: seq<StorageEntry>)

  datatype PalletConstant = PalletConstant(name: string, ty: TypeId, value: seq<uint8>)

  datatype Pallet = Pallet(
    name: string,
    storage: Option<PalletStorage>,
    calls: Option<TypeId>,
    event: Option<TypeId>,
    constants: seq<PalletConstant>,
    error: Option<TypeId>,
    index: uint8)

  datatype SignedExtension = SignedExtension(identifier: string, ty: TypeId, additionalSigned: TypeId)

  datatype Extrinsic = Extrinsic(ty: TypeId, version: uint8, signedExtensions: seq<SignedExtension>)

  datatype Metadata = Metadata(
    types: Registry,
    pallets: seq<Pallet>,
    extrinsic: Extrinsic,
    ty: TypeId)

  /** An optional type reference, if present, is registered. */
  predicate OptionIn(ty: Option<TypeId>, reg: Registry)
  {
    ty.Some? ==> ty.value in reg
  }

  /** Every type a storage entry's type refers to is registered. */
  predicate EntryTypeIn(ty: StorageEntryType, reg: Registry)
  {
    match ty
    case Plain(value) => value in reg
    case Map(_, key, value) => key in reg && value in reg
  }

  /** Every type the storage entries refer to is registered. */
  predicate StorageIn(storage: Option<PalletStorage>, reg: Registry)
  {
    storage.Some? ==> forall e :: e in storage.value.entries ==> EntryTypeIn(e.ty, reg)
  }

  /** Every type a pallet refers to is registered. */
  predicate PalletIn(p: Pallet, reg: Registry)
  {
    && OptionIn(p.calls, reg) && OptionIn(p.event, reg) && OptionIn(p.error, reg)
    && (forall k :: k in p.constants ==> k.ty in reg)
    && StorageIn(p.storage, reg)
  }

  /** Every type the extrinsic envelope refers to is registered. */
  predicate ExtrinsicIn(x: Extrinsic, reg: Registry)
  {
    && x.ty in reg
    && forall e :: e in x.signedExtensions ==> e.ty in reg && e.additionalSigned in reg
  }

  /** Every type the metadata refers to is registered. */
  predicate MetadataIn(md: Metadata)
  {
    && (forall p :: p in md.pallets ==> PalletIn(p, md.types))
    && ExtrinsicIn(md.extrinsic, md.types)
    && md.ty in md.types
  }
}
