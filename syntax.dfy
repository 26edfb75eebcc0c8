/** The declarations the `validate_deser` attribute reads and emits, as `syn`
    presents them: names are strings, types and bounds are opaque token strings. */
module Syntax {
  import opened Results

  type Ident = string

  /** A type, kept as the tokens that spell it (`String`, `i32`, `T`). */
  type Ty = string

  /** A trait or lifetime bound, kept as its tokens (`Validate`, `serde::Deserialize<'__de>`). */
  type Bound = string

  datatype Field = Field(name: Ident, ty: Ty)

  /** `syn::Fields`: the payload of a struct or of an enum variant. */
  datatype Fields =
    | Named(named: seq<Field>)
    | Unnamed(unnamed: seq<Ty>)
    | UnitFields

  datatype Variant = Variant(name: Ident, fields: Fields)

  /** `syn::Data`: what kind of item the attribute is placed on. */
  datatype Data =
    | StructData(fields: Fields)
    | EnumData(variants: seq<Variant>)
    | UnionData(unionFields: seq<Field>)

  /** `syn::GenericParam`, without attributes and defaults. */
  datatype GenericParam =
    | TypeParam(ident: Ident, bounds: seq<Bound>)
    | LifetimeParam(lifetime: Ident, lifetimeBounds: seq<Bound>)
    | ConstParam(constIdent: Ident, ty: Ty)

  /** One predicate of a `where` clause: `bounded: bounds[0] + bounds[1] + ...`. */
  datatype WherePredicate = WherePredicate(bounded: Ty, bounds: seq<Bound>)

  /** `syn::Generics`: the parameter list and the optional `where` clause. */
  datatype Generics = Generics(params: seq<GenericParam>, whereClause: Option<seq<WherePredicate>>)

  /** `syn::DeriveInput`: the item the attribute is attached to. */
  datatype DeriveInput = DeriveInput(ident: Ident, generics: Generics, data: Data)

  /** A struct or enum item emitted by the macro (the helper declaration). */
  datatype Item = Item(name: Ident, params: seq<GenericParam>, whereClause: Option<seq<WherePredicate>>, data: Data)

  /** The identifier a generic parameter is referred to by: `T`, `'a` or `N`. */
  function ParamIdent(p: GenericParam): Ident {
    match p
    case TypeParam(id, _) => id
    case LifetimeParam(lt, _) => lt
    case ConstParam(id, _) => id
  }

  predicate DistinctFieldNames(fs: seq<Field>) {
    forall i, j :: 0 <= i < j < |fs| ==> fs[i].name != fs[j].name
  }

  predicate DistinctVariantNames(vs: seq<Variant>) {
    forall i, j :: 0 <= i < j < |vs| ==> vs[i].name != vs[j].name
  }

  predicate FieldsWellFormed(f: Fields) {
    f.Named? ==> DistinctFieldNames(f.named)
  }

  /** What rustc demands of every struct and enum: no field name twice in one
      struct or variant, no variant name twice in one enum. */
  predicate WellFormedData(d: Data) {
    match d
    case StructData(f) => FieldsWellFormed(f)
    case EnumData(vs) => DistinctVariantNames(vs) && forall i :: 0 <= i < |vs| ==> FieldsWellFormed(vs[i].fields)
    case UnionData(fs) => DistinctFieldNames(fs)
  }
}
