# Structural metadata hasher

This project models subxt's metadata hasher (`metadata/src/lib.rs`) and proves properties of the model.
The hasher reduces a runtime's version-14 metadata to 32-byte digests. A client compares these digests with the ones it was generated against.

- **Type registry.** Every type is addressed by a numeric id. A type hashes to SHA-256 of the byte 3, its encoded path, and the digest of its definition.
- **Definitions.** A definition hashes to SHA-256 of the byte 2 and the digests of whatever it refers to:
  - fields, each hashed as tag 0, name, type name and type digest;
  - enum variants, each hashed as tag 1, name and field digests, and sorted by name first;
  - element types;
  - an array's length as four little-endian bytes;
  - a primitive's encoding.
- **Cycle guard.** One set of visited ids is threaded through each top-level call. A type already visited is hashed from its path alone, which is how recursive types terminate.
- **Pallets.** A pallet hashes to SHA-256 of tag 4 and its sections in this order:
  1. calls type
  2. event type
  3. constants: name, value, type
  4. error type
  5. storage: prefix, then per entry the name, modifier, type digests or hashers, and default bytes

  The digest is stored under the pallet's name in a caller-owned cache (`MetadataHasherCache`). A later lookup of the same name returns the stored digest.
- **Extrinsic.** The extrinsic envelope hashes to SHA-256 of tag 5, its type's digest, its version byte, and per signed extension the identifier and two type digests.
- **Whole metadata.** The metadata hashes to SHA-256 of:
  - every pallet's digest, sorted by digest value;
  - then the extrinsic digest;
  - then the digest of the outer call type.

  Pallet names never enter a preimage.

Modules:

- `Basics`: byte and integer types and the `u32` little-endian encoding.
- `Ordering`: lexicographic order, the stable sort `sort_by_key` performs, and the uniqueness of sorted arrangements.
- `ScaleInfo`, `FrameMetadata`: the data model.
- `Primitives`: the external hash and encoders, passed in as a `Codec` value, plus the category tags, the `Result` type and the generic loop fold.
- `TypeHasher`: field, variant, definition and type hashes.
- `ExtrinsicHasher`: the extrinsic envelope's digest.
- `PalletHasher`: the pallet digest, the cache class and the imperative `GetPalletHash`.
- `MetadataHasher`: the imperative `GetMetadataHash`, its specification `MetadataHash`, and the order, cache and name-independence lemmas.
- `Scenarios`: small concrete schemas.

Modelling decisions:

- The type, definition, field, variant and extrinsic hashers are functions. Each returns the preimage, the digest and the new visited set, so the Rust `&mut HashSet` becomes an input/output value.
- `get_pallet_hash` and `get_metadata_hash` change the caller's cache. They become module-level methods that take a `MetadataHasherCache` object and reassign its `pallets` map. Each method's buffer-building loops are proved against the functions `PalletLookup` and `MetadataHash`.
- In Rust an unknown type id panics (`registry.resolve(id).unwrap()`). Here it is a `Result` failure, `UnknownTypeId(id)`, that propagates outward.
- The code and a comment disagree about how pallets are ordered. The comment before the sort (lib.rs:289) says pallets are sorted by name. The code sorts by digest (`key.1`, lib.rs:290). The model follows the code.
- The visited set is one set for the whole top-level call. Nothing is ever removed from it, so a type reached on two independent branches is expanded on the first and hashed from its path alone on the second (`RepeatIsShallow`). It is not a per-path set.

## Model

| member | source | states |
|---|---|---|
| Basics.EncodeU32 | metadata/src/lib.rs:121-130 | the array length is written as exactly four bytes, and decoding them gives back the length |
| Basics.DecodeEncodeU32 | metadata/src/lib.rs:121-130 | every four-byte string is the encoding of the length it decodes to, so the encoding is a bijection |
| Basics.ByteKeyInjective | metadata/src/lib.rs:290 | the order key of a digest determines the digest |
| Basics.CharKeyInjective | metadata/src/lib.rs:104-106 | the order key of a variant name determines the name |
| Ordering.SortBy | metadata/src/lib.rs:105-106 | the sort by key returns a permutation of its input, in non-decreasing key order |
| Ordering.Insert | metadata/src/lib.rs:290 | inserting into a sorted sequence keeps it sorted and adds exactly one occurrence of the element |
| Ordering.InsertWithKey | metadata/src/lib.rs:106 | the inserted element lands ahead of every element with its key, and the elements of every key keep their order |
| Ordering.SortByStable | metadata/src/lib.rs:105-106 | the sort is stable: for every key, the elements with that key appear in the order they had in the input |
| Ordering.SortedUnique | metadata/src/lib.rs:104-106 | two sorted arrangements of the same multiset with distinct keys are equal, which is why sorting removes declaration order |
| Primitives.DomainSeparation | metadata/src/lib.rs:37-45 | preimages that open with different category tags are different |
| Primitives.FoldNext | metadata/src/lib.rs:76-78 | one more loop iteration appends that item's bytes and passes on its visited set |
| Primitives.FoldStops | metadata/src/lib.rs:94-96 | the first item that fails makes the whole loop fail with its id |
| Primitives.FoldSplit | metadata/src/lib.rs:202-214 | a loop over `a + b` is the loop over `a` followed by the loop over `b`, started from the visited set `a` left |
| Primitives.FoldSwapOne | metadata/src/lib.rs:248-266 | replacing one item whose bytes end in `t` by one whose bytes end in `t'` (same visited set) replaces just that stretch of the loop's bytes |
| Primitives.FoldFailsOutside | metadata/src/lib.rs:202-214 | when no single step can fail on a registered id, neither can the loop |
| Primitives.FoldSucceeds | metadata/src/lib.rs:202-214 | when every item's step succeeds from any visited set, the loop succeeds |
| TypeHasher.SortedVariants | metadata/src/lib.rs:105-106 | the variants to hash are a permutation of the declared ones, in name order, and variants that share a name keep their declared order |
| TypeHasher.SortedVariantsIn | metadata/src/lib.rs:105-108 | sorting keeps every field type registered |
| TypeHasher.SortedVariantsDetermined | metadata/src/lib.rs:101-106 | two variant lists holding the same variants, with names that identify them, sort to the same list |
| TypeHasher.FieldHash | metadata/src/lib.rs:53-65 | a field digest opens with tag 0 and visits the field's type; a failure names an unregistered id; success in a closed registry that holds the field's type |
| TypeHasher.FieldLayout | metadata/src/lib.rs:58-64 | a field preimage is tag, encoded optional name, encoded optional type name, then the type digest |
| TypeHasher.FieldsBytes | metadata/src/lib.rs:92-98 | 32 bytes per field; the visited set only grows; a failure names an unregistered id; success in a closed registry that holds every field type |
| TypeHasher.FieldsBytesAt | metadata/src/lib.rs:94-96 | the digest at position `i` is field `i`'s, computed with the visited set the earlier fields left |
| TypeHasher.VariantHash | metadata/src/lib.rs:68-81 | a variant digest opens with tag 1; its preimage is one byte, the encoded name and 32 bytes per field |
| TypeHasher.VariantLayout | metadata/src/lib.rs:73-80 | a variant preimage is tag, encoded name, then the field digests in declared order |
| TypeHasher.VariantsBytes | metadata/src/lib.rs:107-109 | 32 bytes per variant; the visited set only grows; a failure names an unregistered id; success in a closed registry that holds every field type of every variant |
| TypeHasher.VariantsBytesAt | metadata/src/lib.rs:107-109 | the digest at position `i` is variant `i`'s, computed with the visited set the earlier variants left |
| TypeHasher.TupleBytes | metadata/src/lib.rs:131-137 | 32 bytes per element type; the visited set only grows; a failure names an unregistered id; success in a closed registry that holds every element type |
| TypeHasher.TupleBytesAt | metadata/src/lib.rs:133-135 | the digest at position `i` is element type `i`'s, computed with the visited set the earlier elements left |
| TypeHasher.TypeDefData | metadata/src/lib.rs:91-166 | data length per kind; a primitive visits nothing; an array's first four bytes decode to its length; success in a closed registry that holds every id the definition names |
| TypeHasher.TypeDefHash | metadata/src/lib.rs:84-169 | a definition digest is the hash of tag 2 followed by exactly the definition's data, and passes on the visited set the data left; it fails exactly as the data does; the array length sits at bytes 1..5 |
| TypeHasher.TypeDefLayout | metadata/src/lib.rs:112-165 | the preimage of each of the eight kinds; the bit-store digest is computed with the visited set the bit-order digest left |
| TypeHasher.VariantOrderIrrelevant | metadata/src/lib.rs:99-111 | reordering the variants of an enum changes neither its digest nor the visited set |
| TypeHasher.TypeHash | metadata/src/lib.rs:172-190 | a type digest opens with tag 3 and adds its id to the visited set; it fails with its own id exactly when that id is unregistered, and any failure (its own or one met inside its definition) names an unregistered id; in a closed registry every registered id hashes |
| TypeHasher.CycleGuard | metadata/src/lib.rs:177-189 | a visited id is hashed from tag and path alone, with the visited set unchanged; otherwise the id is recorded before the definition is hashed, and the definition digest follows the path |
| TypeHasher.RepeatIsShallow | metadata/src/lib.rs:182-184 | every id a hasher visited is hashed shallowly by any later hasher that shares the visited set |
| ExtrinsicHasher.SignedExtensionBytes | metadata/src/lib.rs:203-213 | an extension adds its encoded identifier, the digest of its type and then the digest of its additional-signed type, the second computed with the visited set the first left; a failure names an unregistered id; success in a closed registry holding both types |
| ExtrinsicHasher.ExtrinsicHash | metadata/src/lib.rs:193-217 | the preimage is tag 5, the envelope type's digest (from an empty visited set), the version byte, then every signed extension's bytes in order, threading one visited set from the envelope type on; an unregistered envelope type fails with its id; any failure names an unregistered id; success in a closed registry holding every referenced type |
| ExtrinsicHasher.ExtensionsOutcome | metadata/src/lib.rs:202-214 | the signed-extension loop fails only on an unregistered id, and succeeds in a closed registry holding every type the extensions name |
| PalletHasher.OptionalTypeBytes | metadata/src/lib.rs:232-237 | an absent section adds nothing and keeps the visited set; a present one adds exactly its type's digest and passes on that type's visited set; a failure names an unregistered id; success in a closed registry holding the type |
| PalletHasher.ConstantBytes | metadata/src/lib.rs:238-242 | a constant adds its name bytes, its value and a 32-byte digest, and visits its type; a failure names an unregistered id; success in a closed registry holding its type |
| PalletHasher.ConstantLayout | metadata/src/lib.rs:239-241 | a constant's bytes are its UTF-8 name, its value, then its type's digest, and it passes on that type's visited set |
| PalletHasher.EntryTypeBytes | metadata/src/lib.rs:251-264 | a plain entry adds one digest; a map adds the encoded hashers and two digests; a failure names an unregistered id; success in a closed registry holding the entry's types |
| PalletHasher.EntryBytes | metadata/src/lib.rs:248-266 | an entry's bytes end with its default bytes; a failure names an unregistered id; success in a closed registry holding the entry's types |
| PalletHasher.EntryLayout | metadata/src/lib.rs:249-265 | an entry's bytes are its UTF-8 name, encoded modifier, then for a plain entry the value digest, for a map the encoded hashers, key digest and value digest (computed with the visited set the key left), then the default bytes |
| PalletHasher.EntryDefaultLast | metadata/src/lib.rs:249-265 | nothing in an entry's bytes before the default depends on the default |
| PalletHasher.EntriesWithDefault | metadata/src/lib.rs:248-266 | changing one entry's default replaces exactly that stretch of the storage bytes |
| PalletHasher.StorageBytes | metadata/src/lib.rs:246-267 | a pallet without storage adds nothing; with storage, the bytes are the UTF-8 prefix followed by every entry's bytes in order, threading the visited set; a failure names an unregistered id; success in a closed registry holding every entry type |
| PalletHasher.BeforeStorage | metadata/src/lib.rs:225-245 | the pallet preimage opens with tag 4; an unregistered calls type fails with its id; any failure names an unregistered id; success in a closed registry holding every type the pallet names |
| PalletHasher.BeforeStorageIgnoresStorage | metadata/src/lib.rs:232-245 | the sections before storage do not depend on the storage |
| PalletHasher.PalletHash | metadata/src/lib.rs:220-272 | a pallet digest is the hash of a preimage opening with tag 4; an unregistered calls type fails with its id; any failure names an unregistered id; success in a closed registry holding every type the pallet names |
| PalletHasher.PalletLayout | metadata/src/lib.rs:225-267 | the pallet preimage is tag, calls, event, constants, error and storage sections in that order, each computed with the visited set the one before left; the calls digest directly follows the tag |
| PalletHasher.StorageSection | metadata/src/lib.rs:246-267 | a pallet hashes exactly when the earlier sections and the storage section do, and its preimage is one followed by the other |
| PalletHasher.DefaultChangesPreimage | metadata/src/lib.rs:246-267 | changing any one storage entry's default changes the pallet preimage |
| PalletHasher.PalletNameNotHashed | metadata/src/lib.rs:225-267 | renaming a pallet does not change its digest |
| PalletHasher.CachedLookup | metadata/src/lib.rs:228-271 | a hit returns the stored digest and leaves the cache as it is; a miss computes the digest, fails exactly when that fails, and records the digest under the name, changing no other entry |
| PalletHasher.PalletLookup | metadata/src/lib.rs:220-272 | the lookup succeeds exactly on a hit or when the pallet hashes; on a miss its digest is the fresh pallet digest |
| PalletHasher.LookupTwice | metadata/src/lib.rs:228-230 | a second lookup returns the first's digest and changes nothing |
| PalletHasher.MetadataHasherCache.constructor | metadata/src/lib.rs:319-326 | a new cache is empty |
| PalletHasher.ExtendWithOptionalType | metadata/src/lib.rs:232-237 | appends the optional section's bytes to the buffer |
| PalletHasher.ExtendWithEach | metadata/src/lib.rs:238-242 | appends each item's bytes in order, threading the visited set |
| PalletHasher.ExtendWithStorage | metadata/src/lib.rs:246-267 | appends the storage section's bytes to the buffer |
| PalletHasher.GetPalletHash | metadata/src/lib.rs:220-272 | returns the lookup's digest and leaves the cache the lookup leaves; on failure the cache is untouched |
| MetadataHasher.PalletDigests | metadata/src/lib.rs:280-288 | one `(name, digest)` pair per pallet, in declared order, carrying the pallet's name |
| MetadataHasher.PalletDigestsFailOutside | metadata/src/lib.rs:280-288 | collecting fails only on an unregistered id when each pallet digest does |
| MetadataHasher.PalletDigestsSucceed | metadata/src/lib.rs:280-288 | collecting succeeds when every pallet's digest does |
| MetadataHasher.PalletSectionOutcome | metadata/src/lib.rs:280-288 | collecting the pallet digests fails only on an unregistered id, and succeeds in a closed registry when every pallet names only registered types |
| MetadataHasher.PalletDigestsCache | metadata/src/lib.rs:280-288 | after collecting, the cache holds exactly the old names plus the pallets' names, and keeps every old entry |
| MetadataHasher.CollectPalletDigests | metadata/src/lib.rs:280-288 | the loop returns the collected pairs and leaves the cache the collection leaves |
| MetadataHasher.ConcatDigests | metadata/src/lib.rs:295-298 | the pallet section is 32 bytes per pallet |
| MetadataHasher.BlocksOfConcat | metadata/src/lib.rs:295-298 | cutting the pallet section into 32-byte blocks gives back the digests in order |
| MetadataHasher.ExtendWithDigests | metadata/src/lib.rs:295-298 | appends every digest of the pairs, in order |
| MetadataHasher.SortedDigests | metadata/src/lib.rs:290 | pairs sorted by digest give digests in ascending byte order |
| MetadataHasher.SortedConcatBlocks | metadata/src/lib.rs:289-298 | the pallet section's blocks are sorted and are a permutation of the pallets' digests |
| MetadataHasher.SortedConcatDetermined | metadata/src/lib.rs:289-298 | the pallet section depends only on the multiset of digests |
| MetadataHasher.MetadataPreimage | metadata/src/lib.rs:275-309 | success exactly when the pallets, the extrinsic and the outer call type all hash; otherwise the first failure in that order; any failure names an unregistered id; success in a closed registry whose pallets, extrinsic and outer type name only registered types; length `32 * pallets + 64`; extrinsic digest then outer-type digest at the end |
| MetadataHasher.MetadataHash | metadata/src/lib.rs:275-310 | the digest is the hash of that preimage, and the cache is the one the pallet lookups leave; any failure names an unregistered id; success in a closed registry whose metadata names only registered types |
| MetadataHasher.PreimageSections | metadata/src/lib.rs:289-307 | the preimage is the sorted pallet digests, then the extrinsic digest, then the outer-type digest |
| MetadataHasher.PalletSectionSorted | metadata/src/lib.rs:289-298 | the first `32 * pallets` bytes are the pallet digests in ascending order |
| MetadataHasher.GetMetadataHash | metadata/src/lib.rs:275-310 | returns `MetadataHash`'s digest and leaves its cache; on failure returns the same id; once every pallet lookup has succeeded the cache is the one the lookups leave, even if the extrinsic or outer type then fails |
| MetadataHasher.LookupAgrees | metadata/src/lib.rs:228-230 | through a cache that agrees with the pallets, a lookup gives the fresh digest and keeps the agreement |
| MetadataHasher.CachedDigestsAreFreshAt | metadata/src/lib.rs:404-434 | through an agreeing cache, every collected pair is the pallet's fresh digest; collection fails exactly when some pallet does not hash |
| MetadataHasher.CachedDigestsAreFresh | metadata/src/lib.rs:404-434 | the collected pairs are the fresh pairs of the pallets, in order |
| MetadataHasher.OneCacheMatchesFreshCaches | metadata/src/lib.rs:404-434 | one shared cache gives, pallet by pallet, the same pairs as a fresh cache per pallet |
| MetadataHasher.SameCacheAnyOrder | metadata/src/lib.rs:280-288 | collecting the same pallets in any order leaves the same cache |
| MetadataHasher.SameDigestsPointwise | metadata/src/lib.rs:280-292 | pallets with the same digests pointwise collect the same digest list |
| MetadataHasher.SameDigestsSameHash | metadata/src/lib.rs:289-309 | metadata whose pallets give the same multiset of digests have the same metadata digest |
| MetadataHasher.MetadataPermutation | metadata/src/lib.rs:289-290 | reordering the pallets changes neither whether the metadata hashes nor its digest or cache |
| MetadataHasher.AgreeingCacheSameDigest | metadata/src/lib.rs:436-442 | a cache that agrees with the pallets gives the same metadata digest as an empty one |
| MetadataHasher.WarmLookupsSame | metadata/src/lib.rs:452-454 | collecting again through the cache a collection left returns the same pairs and cache |
| MetadataHasher.WarmCacheSameResult | metadata/src/lib.rs:436-456 | hashing the metadata again with the cache the first call left gives the same digest and cache |
| MetadataHasher.MetadataCacheHoldsFreshDigests | metadata/src/lib.rs:436-456 | after hashing the metadata, the cache holds each pallet's fresh digest under its name, and a re-lookup returns it unchanged |
| MetadataHasher.PalletNamesExcluded | metadata/src/lib.rs:292 | renaming pallets changes neither whether the metadata hashes nor its digest |
| Scenarios.BalancesDefaultMatters | metadata/src/lib.rs:246-267 | a `Balances` pallet with a `TotalIssuance` entry hashes, and changing its default from `[0,0,0,0]` to `[1,0,0,0]` changes the preimage |
| Scenarios.BalancesUnknownType | metadata/src/lib.rs:177 | the same pallet pointing at unregistered id 99 fails with id 99 |
| Scenarios.SelfReferenceTerminates | metadata/src/lib.rs:181-184 | a type whose field is of its own type hashes, and its inner occurrence is hashed from its path alone |

A registry is *closed* (`Closed`) when every id its own types refer to is registered. `PalletIn`, `ExtrinsicIn` and `MetadataIn` say that every type id a pallet, the extrinsic envelope or the whole metadata names is registered. Under those conditions every hasher succeeds, which is the model's counterpart of the Rust code never reaching its `unwrap` panic.

Throughout the `MetadataHasher` lemmas, two side conditions hold:

- `NamesDetermine`: pallets that share a name are the same pallet.
- `CacheAgrees`: the cache holds, under each pallet's name, that pallet's fresh digest. An empty cache agrees trivially.

## Left out

- SHA-256, the SCALE encoders of strings, optional strings, paths, primitives, storage modifiers and hasher lists, and the UTF-8 encoding `str::as_bytes` of constant names, storage prefixes and entry names (`Codec.utf8`, lib.rs:239, 247, 249) come from other libraries. They are parameters of the `Codec` value, and nothing is assumed about them. In particular there is no collision resistance, so "changes the digest" is stated as "changes the preimage". Only the `u32` little-endian length encoding is modelled concretely.
- Documentation strings, generic type parameters, variant indices and pallet indices are carried by the metadata but never hashed, so they are absent or inert in the data model.
- In Rust, an unregistered type id makes the hasher panic. In the model it is the failure `UnknownTypeId(id)`. The pure hashing functions therefore leave no partial state behind. The cache is the exception: when a later pallet fails, `CollectPalletDigests` and `GetMetadataHash` leave the entries that `GetPalletHash` already inserted for earlier pallets, as Rust's `&mut` cache would hold them after the panic.
- `GetMetadataHash`: when a pallet lookup fails, its contract does not state the cache contents (the entries already inserted for earlier pallets). Rust would have panicked at that point. When the pallet lookups succeed and the extrinsic or outer type fails afterwards, the cache is stated.
- `MetadataPermutation`: states that reordering preserves success and the result. It does not state which unknown id a failing permutation reports first.
- `Ordering.SortBy`: Rust's in-place `sort_by_key` is modelled as a function returning the insertion-sorted sequence; its stability is the separate lemma `SortByStable`. Updating the vector in place is not modelled.
- The cache is keyed by name alone and is not tied to a registry. A hit returns whatever digest is stored, even if the pallet's content changed (`CachedLookup`). The agreement lemmas therefore assume `CacheAgrees` and `NamesDetermine`.
- `DefaultChangesPreimage`: covers storage defaults only. Changing a constant's value, or the order of a type's fields, is not stated as changing the preimage.
- The `Default` implementation of `MetadataHasherCache` (lib.rs:328-332) is the constructor again and is not modelled separately.
- Loading `.scale` metadata files and rejecting metadata versions other than 14 happen only in the tests (lib.rs:359-381). They are I/O and are not part of this model.
- Code generation that consumes the digests is not part of this model.
- Parallel hashing of pallets is not part of this model. It has no counterpart in this code, which hashes sequentially.
