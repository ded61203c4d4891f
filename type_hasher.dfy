/** The structural hasher over the type registry: fields, variants, type
    definitions and types. Each hasher threads the set of visited type ids
    through its children from left to right and returns the set it ends with;
    the set is only ever added to, so within one top-level hashing call any
    second occurrence of a type id (not only a true cycle) is hashed shallowly,
    from its path alone.

    Termination: every call either removes an unvisited registered id from
    `reg.Keys - visited`, or leaves that set unchanged and descends to a
    structurally smaller argument (the level and length components). */
module TypeHasher {
  import opened Basics
  import opened Ordering
  import opened ScaleInfo
  import opened Primitives

  function NameKey(v: Variant): seq<int>
  {
    CharKey(v.name)
  }

  /** The order in which a variant type's variants are hashed: a stable sort
      by name, so variants that share a name keep their declared order. */
  function SortedVariants(variants: seq<Variant>): (r: seq<Variant>)
    ensures multiset(r) == multiset(variants)
    ensures Sorted(r, NameKey)
    ensures forall name: string :: WithKey(r, NameKey, CharKey(name)) == WithKey(variants, NameKey, CharKey(name))
  {
    SortByStable(variants, NameKey);
    SortBy(variants, NameKey)
  }

  /** Sorting keeps every variant's field types registered. */
  lemma SortedVariantsIn(variants: seq<Variant>, reg: Registry)
    ensures VariantsIn(variants, reg) ==> VariantsIn(SortedVariants(variants), reg)
  {
    var sorted := SortedVariants(variants);
    forall v | v in sorted ensures v in variants {
      assert v in multiset(sorted);
    }
  }

  /** Sorting by name puts two rearrangements of the same variants, whose
      names identify them, in the same order. */
  lemma SortedVariantsDetermined(a: seq<Variant>, b: seq<Variant>)
    requires multiset(a) == multiset(b)
    requires forall v, w :: v in a && w in a && v.name == w.name ==> v == w
    ensures SortedVariants(a) == SortedVariants(b)
  {
    var sa, sb := SortedVariants(a), SortedVariants(b);
    forall v, w | v in sa && w in sa && NameKey(v) == NameKey(w) ensures v == w {
      assert v in multiset(sa) && w in multiset(sa);
      CharKeyInjective(v.name, w.name);
    }
    SortedUnique(sa, sb, NameKey);
  }

  /** Length of the part of a type definition's preimage after its tag. */
  function DataLength(c: Codec, def: TypeDef): nat
  {
    match def
    case Composite(fields) => 32 * |fields|
    case VariantDef(variants) => 32 * |variants|
    case Sequence(_) => 32
    case Array(_, _) => 4 + 32
    case Tuple(elems) => 32 * |elems|
    case Primitive(p) => |c.encodePrimitive(p)|
    case Compact(_) => 32
    case BitSequence(_, _) => 64
  }

  function FieldHash(c: Codec, reg: Registry, f: Field, visited: set<TypeId>): (r: Result<Hashed>)
    decreases reg.Keys - visited, 1, 0
    ensures r.Ok? ==> visited + {f.ty} <= r.value.visited
    ensures r.Ok? ==> Tagged(c, r.value, FieldTag)
    ensures r.UnknownTypeId? ==> r.id !in reg
    ensures Closed(reg) && f.ty in reg ==> r.Ok?
  {
    var ty :- TypeHash(c, reg, f.ty, visited);
    var preimage := [FieldTag] + c.encodeOptionStr(f.name) + c.encodeOptionStr(f.typeName) + ty.digest;
    Ok(Finish(c, preimage, ty.visited))
  }

  /** The concatenated digests of `fields`, in declared order. */
  function FieldsBytes(c: Codec, reg: Registry, fields: seq<Field>, visited: set<TypeId>): (r: Result<Built>)
    decreases reg.Keys - visited, 2, |fields|
    ensures r.Ok? ==> visited <= r.value.visited && |r.value.bytes| == 32 * |fields|
    ensures r.UnknownTypeId? ==> r.id !in reg
    ensures Closed(reg) && FieldsIn(fields, reg) ==> r.Ok?
  {
    if fields == [] then Ok(Built([], visited))
    else
      var n := |fields| - 1;
      assert FieldsIn(fields, reg) ==> FieldsIn(fields[..n], reg) && fields[n].ty in reg by {
        if FieldsIn(fields, reg) {
          forall f | f in fields[..n] ensures f.ty in reg { assert f in fields; }
          assert fields[n] in fields;
        }
      }
      var init :- FieldsBytes(c, reg, fields[..n], visited);
      var last :- FieldHash(c, reg, fields[n], init.visited);
      Ok(Built(init.bytes + last.digest, last.visited))
  }

  function VariantHash(c: Codec, reg: Registry, v: Variant, visited: set<TypeId>): (r: Result<Hashed>)
    decreases reg.Keys - visited, 3, 0
    ensures r.Ok? ==> visited <= r.value.visited
    ensures r.Ok? ==> Tagged(c, r.value, VariantTag)
    ensures r.Ok? ==> |r.value.preimage| == 1 + |c.encodeStr(v.name)| + 32 * |v.fields|
    ensures r.UnknownTypeId? ==> r.id !in reg
    ensures Closed(reg) && FieldsIn(v.fields, reg) ==> r.Ok?
  {
    var fields :- FieldsBytes(c, reg, v.fields, visited);
    Ok(Finish(c, [VariantTag] + c.encodeStr(v.name) + fields.bytes, fields.visited))
  }

  /** The concatenated digests of `variants`, in the order given. */
  function VariantsBytes(c: Codec, reg: Registry, variants: seq<Variant>, visited: set<TypeId>): (r: Result<Built>)
    decreases reg.Keys - visited, 4, |variants|
    ensures r.Ok? ==> visited <= r.value.visited && |r.value.bytes| == 32 * |variants|
    ensures r.UnknownTypeId? ==> r.id !in reg
    ensures Closed(reg) && VariantsIn(variants, reg) ==> r.Ok?
  {
    if variants == [] then Ok(Built([], visited))
    else
      var n := |variants| - 1;
      assert VariantsIn(variants, reg) ==> VariantsIn(variants[..n], reg) && FieldsIn(variants[n].fields, reg) by {
        if VariantsIn(variants, reg) {
          forall v | v in variants[..n] ensures FieldsIn(v.fields, reg) { assert v in variants; }
          assert variants[n] in variants;
        }
      }
      var init :- VariantsBytes(c, reg, variants[..n], visited);
      var last :- VariantHash(c, reg, variants[n], init.visited);
      Ok(Built(init.bytes + last.digest, last.visited))
  }

  /** The concatenated digests of the tuple element types, in order. */
  function TupleBytes(c: Codec, reg: Registry, elems: seq<TypeId>, visited: set<TypeId>): (r: Result<Built>)
    decreases reg.Keys - visited, 2, |elems|
    ensures r.Ok? ==> visited <= r.value.visited && |r.value.bytes| == 32 * |elems|
    ensures r.UnknownTypeId? ==> r.id !in reg
    ensures Closed(reg) && (forall id :: id in elems ==> id in reg) ==> r.Ok?
  {
    if elems == [] then Ok(Built([], visited))
    else
      var n := |elems| - 1;
      assert (forall id :: id in elems ==> id in reg) ==> (forall id :: id in elems[..n] ==> id in reg) by {
        forall id | id in elems[..n] ensures id in elems { }
      }
      assert elems[n] in elems;
      var init :- TupleBytes(c, reg, elems[..n], visited);
      var last :- TypeHash(c, reg, elems[n], init.visited);
      Ok(Built(init.bytes + last.digest, last.visited))
  }

  /** The part of a type definition's preimage that follows its tag. */
  function TypeDefData(c: Codec, reg: Registry, def: TypeDef, visited: set<TypeId>): (r: Result<Built>)
    decreases reg.Keys - visited, 5, 0
    ensures r.Ok? ==> visited <= r.value.visited && |r.value.bytes| == DataLength(c, def)
    ensures r.Ok? && def.Primitive? ==> r.value.visited == visited
    ensures r.Ok? && def.Array? ==> DecodeU32(r.value.bytes[..4]) == def.len
    ensures r.UnknownTypeId? ==> r.id !in reg
    ensures Closed(reg) && DefIn(def, reg) ==> r.Ok?
  {
    match def
    case Composite(fields) => FieldsBytes(c, reg, fields, visited)
    case VariantDef(variants) =>
      SortedVariantsIn(variants, reg);
      VariantsBytes(c, reg, SortedVariants(variants), visited)
    case Sequence(elem) =>
      var t :- TypeHash(c, reg, elem, visited);
      Ok(Built(t.digest, t.visited))
    case Array(len, elem) =>
      var t :- TypeHash(c, reg, elem, visited);
      assert (EncodeU32(len) + t.digest)[..4] == EncodeU32(len);
      Ok(Built(EncodeU32(len) + t.digest, t.visited))
    case Tuple(elems) => TupleBytes(c, reg, elems, visited)
    case Primitive(p) => Ok(Built(c.encodePrimitive(p), visited))
    case Compact(elem) =>
      var t :- TypeHash(c, reg, elem, visited);
      Ok(Built(t.digest, t.visited))
    case BitSequence(bitOrder, bitStore) =>
      var order :- TypeHash(c, reg, bitOrder, visited);
      var store :- TypeHash(c, reg, bitStore, order.visited);
      Ok(Built(order.digest + store.digest, store.visited))
  }

  function TypeDefHash(c: Codec, reg: Registry, def: TypeDef, visited: set<TypeId>): (r: Result<Hashed>)
    decreases reg.Keys - visited, 6, 0
    ensures r.Ok? ==> visited <= r.value.visited
    ensures r.Ok? ==> Tagged(c, r.value, TypeDefTag) && |r.value.preimage| == 1 + DataLength(c, def)
    ensures r.Ok? && def.Primitive? ==> r.value.visited == visited
    ensures r.Ok? && def.Array? ==> DecodeU32(r.value.preimage[1..5]) == def.len
    ensures r.Ok? ==> TypeDefData(c, reg, def, visited).Ok?
                      && r.value.preimage == [TypeDefTag] + TypeDefData(c, reg, def, visited).value.bytes
                      && r.value.visited == TypeDefData(c, reg, def, visited).value.visited
    ensures TypeDefData(c, reg, def, visited).UnknownTypeId? ==> r == UnknownTypeId(TypeDefData(c, reg, def, visited).id)
    ensures r.UnknownTypeId? ==> r.id !in reg
    ensures Closed(reg) && DefIn(def, reg) ==> r.Ok?
  {
    var data :- TypeDefData(c, reg, def, visited);
    assert ([TypeDefTag] + data.bytes)[1..] == data.bytes;
    Ok(Finish(c, [TypeDefTag] + data.bytes, data.visited))
  }

  /** The shallow preimage of a registered type: its tag and its path. */
  function PathPreimage(c: Codec, ty: Type): seq<uint8>
  {
    [TypeTag] + c.encodePath(ty.path)
  }

  function TypeHash(c: Codec, reg: Registry, id: TypeId, visited: set<TypeId>): (r: Result<Hashed>)
    decreases reg.Keys - visited, 0, 0
    ensures r.Ok? ==> visited + {id} <= r.value.visited
    ensures r.Ok? ==> Tagged(c, r.value, TypeTag)
    ensures id !in reg <==> r == UnknownTypeId(id)
    ensures r.UnknownTypeId? ==> r.id !in reg
    ensures Closed(reg) && id in reg ==> r.Ok?
  {
    if id !in reg then UnknownTypeId(id)
    else if id in visited then Ok(Finish(c, PathPreimage(c, reg[id]), visited))
    else
      var def :- TypeDefHash(c, reg, reg[id].def, visited + {id});
      Ok(Finish(c, PathPreimage(c, reg[id]) + def.digest, def.visited))
  }

  /** The cycle guard. A type already visited is hashed from its path alone
      and the visited set is returned untouched; otherwise its id is recorded
      before its definition is hashed, and the definition's digest follows
      the path in the preimage. */
  lemma CycleGuard(c: Codec, reg: Registry, id: TypeId, visited: set<TypeId>)
    requires id in reg
    ensures id in visited ==>
      TypeHash(c, reg, id, visited) == Ok(Hashed(PathPreimage(c, reg[id]), c.hash(PathPreimage(c, reg[id])), visited))
    ensures id !in visited && TypeDefHash(c, reg, reg[id].def, visited + {id}).Ok? ==>
      var d := TypeDefHash(c, reg, reg[id].def, visited + {id}).value;
      TypeHash(c, reg, id, visited) == Ok(Finish(c, PathPreimage(c, reg[id]) + d.digest, d.visited))
    ensures id !in visited && TypeDefHash(c, reg, reg[id].def, visited + {id}).UnknownTypeId? ==>
      TypeHash(c, reg, id, visited) == TypeDefHash(c, reg, reg[id].def, visited + {id}).PropagateFailure()
  {
  }

  /** A field's preimage: its tag, its encoded optional name, its encoded
      optional type name, then the digest of its type. */
  lemma FieldLayout(c: Codec, reg: Registry, f: Field, visited: set<TypeId>)
    requires FieldHash(c, reg, f, visited).Ok?
    ensures var t := TypeHash(c, reg, f.ty, visited);
      && t.Ok?
      && FieldHash(c, reg, f, visited).value.preimage
         == [FieldTag] + c.encodeOptionStr(f.name) + c.encodeOptionStr(f.typeName) + t.value.digest
      && FieldHash(c, reg, f, visited).value.visited == t.value.visited
  {
  }

  /** A variant's preimage: its tag, its encoded name, then its fields'
      digests in declared order. */
  lemma VariantLayout(c: Codec, reg: Registry, v: Variant, visited: set<TypeId>)
    requires VariantHash(c, reg, v, visited).Ok?
    ensures var fields := FieldsBytes(c, reg, v.fields, visited);
      && fields.Ok?
      && VariantHash(c, reg, v, visited).value.preimage == [VariantTag] + c.encodeStr(v.name) + fields.value.bytes
  {
  }

  /** The preimage of each kind of type definition after its tag: the
      array length as four little-endian bytes before the element digest;
      the bit-order digest before the bit-store digest, the second computed
      with the visited set the first left; a single element digest for
      sequences and compact types; only the encoding for a primitive; the
      field, variant (in name order) or element digests for the others. */
  lemma TypeDefLayout(c: Codec, reg: Registry, def: TypeDef, visited: set<TypeId>)
    requires TypeDefHash(c, reg, def, visited).Ok?
    ensures var h := TypeDefHash(c, reg, def, visited).value;
      match def
      case Composite(fields) =>
        var data := FieldsBytes(c, reg, fields, visited);
        data.Ok? && h.preimage == [TypeDefTag] + data.value.bytes
      case VariantDef(variants) =>
        var data := VariantsBytes(c, reg, SortedVariants(variants), visited);
        data.Ok? && h.preimage == [TypeDefTag] + data.value.bytes
      case Sequence(elem) =>
        var t := TypeHash(c, reg, elem, visited);
        t.Ok? && h.preimage == [TypeDefTag] + t.value.digest
      case Array(len, elem) =>
        var t := TypeHash(c, reg, elem, visited);
        t.Ok? && h.preimage == [TypeDefTag] + EncodeU32(len) + t.value.digest
      case Tuple(elems) =>
        var data := TupleBytes(c, reg, elems, visited);
        data.Ok? && h.preimage == [TypeDefTag] + data.value.bytes
      case Primitive(p) =>
        h.preimage == [TypeDefTag] + c.encodePrimitive(p) && h.visited == visited
      case Compact(elem) =>
        var t := TypeHash(c, reg, elem, visited);
        t.Ok? && h.preimage == [TypeDefTag] + t.value.digest
      case BitSequence(bitOrder, bitStore) =>
        var order := TypeHash(c, reg, bitOrder, visited);
        order.Ok? && TypeHash(c, reg, bitStore, order.value.visited).Ok?
        && h.preimage == [TypeDefTag] + order.value.digest + TypeHash(c, reg, bitStore, order.value.visited).value.digest
  {
  }

  /** Once a hasher has returned, every id it visited (the one it hashed
      included) is hashed shallowly by any later hasher of the same
      top-level call, and leaves the visited set as it is. */
  lemma {:induction false} RepeatIsShallow(c: Codec, reg: Registry, id: TypeId, other: TypeId, visited: set<TypeId>)
    requires TypeHash(c, reg, id, visited).Ok?
    requires other in reg && other in TypeHash(c, reg, id, visited).value.visited
    ensures var after := TypeHash(c, reg, id, visited).value.visited;
      TypeHash(c, reg, other, after) == Ok(Finish(c, PathPreimage(c, reg[other]), after))
  {
  }

  /** Composite and variant fields are hashed in declared order: the digest
      at position `i` is field `i`'s, computed with the visited set left by
      the fields before it. */
  lemma {:induction false} FieldsBytesAt(c: Codec, reg: Registry, fields: seq<Field>, visited: set<TypeId>, i: nat)
    requires FieldsBytes(c, reg, fields, visited).Ok? && i < |fields|
    ensures FieldsBytes(c, reg, fields[..i], visited).Ok?
    ensures var before := FieldsBytes(c, reg, fields[..i], visited).value.visited;
      && FieldHash(c, reg, fields[i], before).Ok?
      && FieldsBytes(c, reg, fields, visited).value.bytes[32 * i .. 32 * i + 32]
         == FieldHash(c, reg, fields[i], before).value.digest
    decreases |fields|
  {
    var n := |fields| - 1;
    var init := FieldsBytes(c, reg, fields[..n], visited).value;
    var last := FieldHash(c, reg, fields[n], init.visited).value;
    var all := FieldsBytes(c, reg, fields, visited).value.bytes;
    assert all == init.bytes + last.digest;
    if i < n {
      FieldsBytesAt(c, reg, fields[..n], visited, i);
      assert fields[..n][..i] == fields[..i];
      assert all[32 * i .. 32 * i + 32] == init.bytes[32 * i .. 32 * i + 32];
    } else {
      assert fields[..i] == fields[..n];
    }
  }

  /** Variants are hashed in the order given: the digest at position `i`
      is variant `i`'s, computed with the visited set the variants before it
      left. */
  lemma {:induction false} VariantsBytesAt(c: Codec, reg: Registry, variants: seq<Variant>, visited: set<TypeId>, i: nat)
    requires VariantsBytes(c, reg, variants, visited).Ok? && i < |variants|
    ensures VariantsBytes(c, reg, variants[..i], visited).Ok?
    ensures var before := VariantsBytes(c, reg, variants[..i], visited).value.visited;
      && VariantHash(c, reg, variants[i], before).Ok?
      && VariantsBytes(c, reg, variants, visited).value.bytes[32 * i .. 32 * i + 32]
         == VariantHash(c, reg, variants[i], before).value.digest
    decreases |variants|
  {
    var n := |variants| - 1;
    var init := VariantsBytes(c, reg, variants[..n], visited).value;
    var last := VariantHash(c, reg, variants[n], init.visited).value;
    var all := VariantsBytes(c, reg, variants, visited).value.bytes;
    assert all == init.bytes + last.digest;
    if i < n {
      VariantsBytesAt(c, reg, variants[..n], visited, i);
      assert variants[..n][..i] == variants[..i];
      assert all[32 * i .. 32 * i + 32] == init.bytes[32 * i .. 32 * i + 32];
    } else {
      assert variants[..i] == variants[..n];
    }
  }

  /** Tuple elements are hashed in declared order: the digest at position
      `i` is element `i`'s type digest, computed with the visited set the
      elements before it left. */
  lemma {:induction false} TupleBytesAt(c: Codec, reg: Registry, elems: seq<TypeId>, visited: set<TypeId>, i: nat)
    requires TupleBytes(c, reg, elems, visited).Ok? && i < |elems|
    ensures TupleBytes(c, reg, elems[..i], visited).Ok?
    ensures var before := TupleBytes(c, reg, elems[..i], visited).value.visited;
      && TypeHash(c, reg, elems[i], before).Ok?
      && TupleBytes(c, reg, elems, visited).value.bytes[32 * i .. 32 * i + 32]
         == TypeHash(c, reg, elems[i], before).value.digest
    decreases |elems|
  {
    var n := |elems| - 1;
    var init := TupleBytes(c, reg, elems[..n], visited).value;
    var last := TypeHash(c, reg, elems[n], init.visited).value;
    var all := TupleBytes(c, reg, elems, visited).value.bytes;
    assert all == init.bytes + last.digest;
    if i < n {
      TupleBytesAt(c, reg, elems[..n], visited, i);
      assert elems[..n][..i] == elems[..i];
      assert all[32 * i .. 32 * i + 32] == init.bytes[32 * i .. 32 * i + 32];
    } else {
      assert elems[..i] == elems[..n];
    }
  }

  /** Variant order is irrelevant: two variant lists holding the same
      variants, where variants that share a name are identical, give the
      same digest and the same visited set. */
  lemma VariantOrderIrrelevant(c: Codec, reg: Registry, a: seq<Variant>, b: seq<Variant>, visited: set<TypeId>)
    requires multiset(a) == multiset(b)
    requires forall v, w :: v in a && w in a && v.name == w.name ==> v == w
    ensures TypeDefHash(c, reg, VariantDef(a), visited) == TypeDefHash(c, reg, VariantDef(b), visited)
  {
    SortedVariantsDetermined(a, b);
  }
}
