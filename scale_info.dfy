/** The portable type registry of the metadata: every type the runtime
    exposes, addressed by a numeric id. Documentation strings and generic
    type parameters are not hashed and are not part of this model. */
module ScaleInfo {
  import opened Basics

  type TypeId = u32

  /** A named or positional field of a composite type or of an enum variant. */
  datatype Field = Field(name: Option<string>, ty: TypeId, typeName: Option<string>)

  /** One variant of an enum-like type. Its discriminant `index` is carried
      by the metadata but is not part of the hash. */
  datatype Variant = Variant(name: string, fields: seq<Field>, index: uint8)

  datatype TypeDefPrimitive =
    | Bool | Char | Str
    | U8 | U16 | U32 | U64 | U128 | U256
    | I8 | I16 | I32 | I64 | I128 | I256

  /** The eight kinds of type definition. */
  datatype TypeDef =
    | Composite(fields: seq<Field>)
    | VariantDef(variants: seq<Variant>)
    | Sequence(elem: TypeId)
    | Array(len: u32, elem: TypeId)
    | Tuple(elems: seq<TypeId>)
    | Primitive(primitive: TypeDefPrimitive)
    | Compact(elem: TypeId)
    | BitSequence(bitOrder: TypeId, bitStore: TypeId)

  /** A registered type: its namespaced path and its definition. */
  datatype Type = Type(path: seq<string>, def: TypeDef)

  type Registry = map<TypeId, Type>

  predicate FieldsIn(fields: seq<Field>, reg: Registry)
  {
    forall f :: f in fields ==> f.ty in reg
  }

  predicate VariantsIn(variants: seq<Variant>, reg: Registry)
  {
    forall v :: v in variants ==> FieldsIn(v.fields, reg)
  }

  /** Every type id that `def` refers to is registered in `reg`. */
  predicate DefIn(def: TypeDef, reg: Registry)
  {
    match def
    case Composite(fields) => FieldsIn(fields, reg)
    case VariantDef(variants) => VariantsIn(variants, reg)
    case Sequence(elem) => elem in reg
    case Array(_, elem) => elem in reg
    case Tuple(elems) => forall id :: id in elems ==> id in reg
    case Primitive(_) => true
    case Compact(elem) => elem in reg
    case BitSequence(bitOrder, bitStore) => bitOrder in reg && bitStore in reg
  }

  /** The registry resolves every id its own types refer to. */
  predicate Closed(reg: Registry)
  {
    forall id :: id in reg ==> DefIn(reg[id].def, reg)
  }
}
