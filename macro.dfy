/** The `validate_deser` attribute: from the item it is placed on, it emits
    the item unchanged, a helper item of the same shape deriving
    `Deserialize`, and an `impl Deserialize` for the item whose `deserialize`
    decodes the helper, converts it and calls `validated()`. */
module ValidateDeserMacro {
  import opened Results
  import opened Syntax
  import opened Values
  import opened Names
  import opened Emitted
  import opened ImplGenerics
  import opened SerdeValidate

  /** The helper item and the conversion expression for one kind of item. */
  datatype HelperData = HelperData(helperDef: Item, initFromHelper: Init)

  /** The emitted `impl<'__de, params> Deserialize<'__de> for selfTy<selfArgs>
      where predicates`, whose body decodes `helperTy` and evaluates `init`. */
  datatype DeserializeImpl = DeserializeImpl(
    params: seq<GenericParam>,
    selfTy: Ident,
    selfArgs: seq<Ident>,
    predicates: seq<WherePredicate>,
    helperTy: Ident,
    init: Init)

  datatype Expansion = Expansion(original: DeriveInput, helper: Item, impl: DeserializeImpl)

  /** What the attribute expands to; `Unimplemented` is the `unimplemented!()`
      panic, which aborts compilation. */
  datatype MacroOutput = Expanded(expansion: Expansion) | Unimplemented

  function FieldNames(fields: seq<Field>): (r: seq<Ident>)
    ensures |r| == |fields| && forall i :: 0 <= i < |r| ==> r[i] == fields[i].name
  {
    seq(|fields|, i requires 0 <= i < |fields| => fields[i].name)
  }

  // ---------------------------------------------------------------- structs

  /** `named_def_full`: the helper struct with the same parameters, `where`
      clause and fields. */
  function NamedDefFull(name: Ident, generics: Generics, fields: seq<Field>): Item {
    Item(name, generics.params, generics.whereClause, StructData(Named(fields)))
  }

  /** `init_from_named`: `Name { f: helper.f, ... }`, one initializer per
      declared field, in declaration order, each reading the field of the same
      name. */
  function InitFromNamed(name: Ident, fields: seq<Field>): (r: Init)
    ensures r.StructLit? && r.path == name && |r.inits| == |fields|
    ensures forall i :: 0 <= i < |fields| ==> r.inits[i] == FieldInit(fields[i].name, fields[i].name)
  {
    StructLit(name, seq(|fields|, i requires 0 <= i < |fields| => FieldInit(fields[i].name, fields[i].name)))
  }

  function BuildNamedStruct(name: Ident, helperName: Ident, generics: Generics, fields: seq<Field>): HelperData {
    HelperData(NamedDefFull(helperName, generics, fields), InitFromNamed(name, fields))
  }

  /** `unnamed_def_full`: the helper tuple struct with the same parameters,
      `where` clause and field types. */
  function UnnamedDefFull(name: Ident, generics: Generics, fields: seq<Ty>): Item {
    Item(name, generics.params, generics.whereClause, StructData(Unnamed(fields)))
  }

  /** `init_from_unnamed`: `Name(helper.0, ..., helper.n-1)`; argument `i`
      reads helper field `i`, for every `i < n` and for `n = 0`. */
  function InitFromUnnamed(name: Ident, fields: seq<Ty>): (r: Init)
    ensures r.TupleCall? && r.path == name && |r.indices| == |fields|
    ensures forall i :: 0 <= i < |fields| ==> r.indices[i] == i
  {
    TupleCall(name, seq(|fields|, i requires 0 <= i < |fields| => i))
  }

  function BuildUnnamedStruct(name: Ident, helperName: Ident, generics: Generics, fields: seq<Ty>): HelperData {
    HelperData(UnnamedDefFull(helperName, generics, fields), InitFromUnnamed(name, fields))
  }

  /** `build_unit_struct`: `struct Helper;` (no generics are passed on) and
      the conversion `Name`. */
  function BuildUnitStruct(name: Ident, helperName: Ident): HelperData {
    HelperData(Item(helperName, [], None, StructData(UnitFields)), UnitPath(name))
  }

  // ---------------------------------------------------------------- enums

  /** `named_def`: a struct-like variant with the same fields. */
  function NamedDef(name: Ident, fields: seq<Field>): Variant {
    Variant(name, Named(fields))
  }

  /** `unnamed_def`: a tuple-like variant with the same field types. */
  function UnnamedDef(name: Ident, fields: seq<Ty>): Variant {
    Variant(name, Unnamed(fields))
  }

  /** One variant of the helper enum, as `enum_def` writes it: the same name
      and the same kind of payload with the same fields. */
  function VariantDef(v: Variant): (r: Variant)
    ensures r == v
  {
    match v.fields
    case Named(fs) => NamedDef(v.name, fs)
    case Unnamed(ts) => UnnamedDef(v.name, ts)
    case UnitFields => Variant(v.name, UnitFields)
  }

  /** `enum_def`: the helper enum, with the same parameters, `where` clause
      and variants, in the same order. */
  function EnumDef(name: Ident, generics: Generics, variants: seq<Variant>): (r: Item)
    ensures r == Item(name, generics.params, generics.whereClause, EnumData(variants))
  {
    var vs := seq(|variants|, i requires 0 <= i < |variants| => VariantDef(variants[i]));
    assert vs == variants;
    Item(name, generics.params, generics.whereClause, EnumData(vs))
  }

  /** `init_enum_from_named`: `Helper::V { a, b } => Name::V { a, b }`. */
  function InitEnumFromNamed(name: Ident, helperName: Ident, variantName: Ident, fields: seq<Field>): Arm {
    Arm(helperName, name, variantName, NamedBinders(FieldNames(fields)))
  }

  /** `init_enum_from_unnamed`: `Helper::V(value_0, ...) => Name::V(value_0, ...)`. */
  function InitEnumFromUnnamed(name: Ident, helperName: Ident, variantName: Ident, fields: seq<Ty>): Arm {
    Arm(helperName, name, variantName, TupleBinders(Placeholders(|fields|)))
  }

  /** `init_enum_from_unit`: `Helper::V => Name::V`. */
  function InitEnumFromUnit(name: Ident, helperName: Ident, variantName: Ident): Arm {
    Arm(helperName, name, variantName, NoBinders)
  }

  /** The arm `init_from_enum` writes for one variant. */
  function InitArm(name: Ident, helperName: Ident, v: Variant): Arm {
    match v.fields
    case Named(fs) => InitEnumFromNamed(name, helperName, v.name, fs)
    case Unnamed(ts) => InitEnumFromUnnamed(name, helperName, v.name, ts)
    case UnitFields => InitEnumFromUnit(name, helperName, v.name)
  }

  /** `init_from_enum`: `match helper { ... }` with exactly one arm per
      variant, in declaration order and no catch-all; arm `i` takes helper
      variant `i` to the real variant of the same name. Tuple payloads bind as
      many placeholders as there are fields, no two alike. */
  function InitFromEnum(name: Ident, helperName: Ident, variants: seq<Variant>): (r: Init)
    ensures r.MatchHelper? && |r.arms| == |variants|
    ensures forall i :: 0 <= i < |variants| ==>
      r.arms[i].helperEnum == helperName && r.arms[i].realEnum == name && r.arms[i].variant == variants[i].name
    ensures forall i :: 0 <= i < |variants| ==>
      match variants[i].fields
      case Named(fs) => r.arms[i].binders == NamedBinders(FieldNames(fs))
      case Unnamed(ts) =>
        r.arms[i].binders.TupleBinders? && |r.arms[i].binders.placeholders| == |ts| &&
        forall j, k :: 0 <= j < k < |ts| ==> r.arms[i].binders.placeholders[j] != r.arms[i].binders.placeholders[k]
      case UnitFields => r.arms[i].binders == NoBinders
  {
    MatchHelper(seq(|variants|, i requires 0 <= i < |variants| => InitArm(name, helperName, variants[i])))
  }

  function BuildEnum(name: Ident, helperName: Ident, generics: Generics, variants: seq<Variant>): HelperData {
    HelperData(EnumDef(helperName, generics, variants), InitFromEnum(name, helperName, variants))
  }

  // ---------------------------------------------------------------- dispatch

  /** The `match input.data`: one builder per supported kind; a union has none. */
  function BuildHelper(name: Ident, helperName: Ident, generics: Generics, data: Data): (r: Option<HelperData>)
    ensures r.None? <==> data.UnionData?
  {
    match data
    case StructData(Named(fs)) => Some(BuildNamedStruct(name, helperName, generics, fs))
    case StructData(Unnamed(ts)) => Some(BuildUnnamedStruct(name, helperName, generics, ts))
    case StructData(UnitFields) => Some(BuildUnitStruct(name, helperName))
    case EnumData(vs) => Some(BuildEnum(name, helperName, generics, vs))
    case UnionData(_) => None
  }

  predicate IsUnitStruct(d: Data) {
    d == StructData(UnitFields)
  }

  /** `validate_deser`. A union is not handled. Otherwise the item is
      re-emitted unchanged, next to a helper whose name is fresh and whose body
      is the item's body; the helper keeps the item's generics verbatim (a unit
      struct's helper has none), with no `Deserialize` bound added to it. */
  function ValidateDeser(input: DeriveInput): (r: MacroOutput)
    ensures r.Unimplemented? <==> input.data.UnionData?
    ensures r.Expanded? ==>
      && r.expansion.original == input
      && r.expansion.helper.name == HelperName(input.ident)
      && r.expansion.helper.name != input.ident
      && r.expansion.helper.data == input.data
      && (if IsUnitStruct(input.data)
          then r.expansion.helper.params == [] && r.expansion.helper.whereClause == None
          else r.expansion.helper.params == input.generics.params && r.expansion.helper.whereClause == input.generics.whereClause)
  {
    var helperName := HelperName(input.ident);
    match BuildHelper(input.ident, helperName, input.generics, input.data)
    case None => Unimplemented
    case Some(HelperData(helperDef, initFromHelper)) =>
      Expanded(Expansion(input, helperDef, DeserializeImpl(
        [LifetimeParam(DeLifetime, [])] + input.generics.params,
        input.ident,
        SimpleGenParams(input.generics.params),
        ImplWhereClause(input.generics),
        helperName,
        initFromHelper)))
  }

  /** The impl's generics: `'__de` followed by the item's own parameters with
      their bounds; the self type applied to those parameters stripped of
      bounds, in order; the item's `where` predicates in order followed by
      `T: Deserialize<'__de>` for each type parameter `T` and nothing for
      lifetimes and consts. */
  lemma ImplGenericsCorrect(input: DeriveInput)
    requires !input.data.UnionData?
    ensures var impl := ValidateDeser(input).expansion.impl;
      && impl.params[0] == LifetimeParam(DeLifetime, []) && impl.params[1..] == input.generics.params
      && impl.selfTy == input.ident
      && |impl.selfArgs| == |input.generics.params|
      && (forall i :: 0 <= i < |impl.selfArgs| ==> impl.selfArgs[i] == ParamIdent(impl.params[i + 1]))
      && |impl.predicates| == |DeclaredPredicates(input.generics)| + TypeParamCount(input.generics.params)
      && impl.predicates[..|DeclaredPredicates(input.generics)|] == DeclaredPredicates(input.generics)
      && (forall i :: 0 <= i < |input.generics.params| && input.generics.params[i].TypeParam? ==>
            DeserializePredicate(input.generics.params[i].ident) in impl.predicates)
  {
    forall i | 0 <= i < |input.generics.params| && input.generics.params[i].TypeParam?
      ensures DeserializePredicate(input.generics.params[i].ident) in ImplWhereClause(input.generics)
    {
      ImplWhereClauseCoversTypeParams(input.generics, i);
    }
  }

  // ---------------------------------------------------------------- conversion

  /** Projecting a list of bindings with distinct names on its own names gives
      back its values, in order. */
  lemma ProjectOwnKeys<V>(ns: seq<Ident>, es: seq<(Ident, V)>)
    requires |ns| == |es| && DistinctKeys(es)
    requires forall k :: 0 <= k < |es| ==> es[k].0 == ns[k]
    ensures Project(ns, es).Some?
    ensures forall k :: 0 <= k < |es| ==> Project(ns, es).value[k] == es[k].1
    ensures Zip(ns, Project(ns, es).value) == es
  {
    forall k | 0 <= k < |es| ensures Lookup(es, ns[k]) == Some(es[k].1) {
      LookupDistinct(es, k);
    }
  }

  /** The named-struct conversion copies every field of the helper value into
      the field of the same name: the result is the helper's payload under the
      real type's name. */
  lemma NamedConversion<V>(name: Ident, helperName: Ident, fields: seq<Field>, h: Value<V>)
    requires DistinctFieldNames(fields)
    requires Conforms(h, helperName, StructData(Named(fields)))
    ensures Eval(InitFromNamed(name, fields), h) == Some(StructV(name, h.payload))
  {
    var es := h.payload.entries;
    var inits := InitFromNamed(name, fields).inits;
    NamedPayloadDistinct(h.payload, fields);
    assert HelperFields(inits) == FieldNames(fields) == Members(inits);
    ProjectOwnKeys(FieldNames(fields), es);
  }

  /** The tuple-struct conversion: field `i` of the result is helper field `i`. */
  lemma UnnamedConversion<V>(name: Ident, helperName: Ident, fields: seq<Ty>, h: Value<V>)
    requires Conforms(h, helperName, StructData(Unnamed(fields)))
    ensures Eval(InitFromUnnamed(name, fields), h) == Some(StructV(name, h.payload))
  {
    var e := InitFromUnnamed(name, fields);
    var items := h.payload.items;
    assert seq(|e.indices|, k requires 0 <= k < |e.indices| => items[e.indices[k]]) == items;
  }

  /** The arm written for a variant rebuilds, from a payload of that variant,
      the real variant of the same name with the same payload. */
  lemma ArmConversion<V>(name: Ident, helperName: Ident, v: Variant, p: Payload<V>)
    requires FieldsWellFormed(v.fields) && PayloadConforms(p, v.fields)
    ensures Fire(InitArm(name, helperName, v), p) == Some(EnumV(name, v.name, p))
  {
    match v.fields
    case Named(fs) =>
      NamedPayloadDistinct(p, fs);
      ProjectOwnKeys(FieldNames(fs), p.entries);
    case Unnamed(ts) =>
      var ps := Placeholders(|ts|);
      var env := Zip(ps, p.items);
      assert DistinctKeys(env);
      ProjectOwnKeys(ps, env);
      assert Project(ps, env).value == p.items;
    case UnitFields =>
  }

  /** The enum conversion: the `match` has an arm for the helper value's
      variant, and that arm gives the real variant with the same payload. */
  lemma EnumConversion<V>(name: Ident, helperName: Ident, variants: seq<Variant>, h: Value<V>)
    requires WellFormedData(EnumData(variants))
    requires Conforms(h, helperName, EnumData(variants))
    ensures Eval(InitFromEnum(name, helperName, variants), h) == Some(EnumV(name, h.variant, h.payload))
  {
    var arms := InitFromEnum(name, helperName, variants).arms;
    var t := FindVariant(variants, h.variant).value;
    assert arms[t] == InitArm(name, helperName, variants[t]);
    EvalArmsFirst(arms, h, t);
    ArmConversion(name, helperName, variants[t], h.payload);
  }

  /** The emitted conversion is total on helper values and is the identity up
      to the type's name: every value of the helper type converts to the value
      of the real type with the same fields (or variant and payload). */
  lemma ConversionCorrect<V>(input: DeriveInput, h: Value<V>)
    requires !input.data.UnionData? && WellFormedData(input.data)
    requires Conforms(h, ValidateDeser(input).expansion.helper.name, ValidateDeser(input).expansion.helper.data)
    ensures Eval(ValidateDeser(input).expansion.impl.init, h) == Some(Retag(h, input.ident))
    ensures Conforms(Retag(h, input.ident), input.ident, input.data)
  {
    var hn := HelperName(input.ident);
    match input.data
    case StructData(Named(fs)) => NamedConversion(input.ident, hn, fs, h);
    case StructData(Unnamed(ts)) => UnnamedConversion(input.ident, hn, ts, h);
    case StructData(UnitFields) =>
    case EnumData(vs) => EnumConversion(input.ident, hn, vs, h);
  }

  // ---------------------------------------------------------------- deserialize

  /** The body of the generated `deserialize`:
      `let helper = Helper::deserialize(d)?; let instance = convert(helper);
      instance.validated().map_err(Error::custom)`. A decoding error is
      returned unchanged; otherwise the result is the converted value exactly
      when it validates, and the validation error made a decoding error when
      it does not. */
  function DeserializeBody<H, T, DE, VE>(
    decoded: Result<H, DE>, convert: H --> T, validate: T -> Result<(), VE>, custom: VE -> DE): (r: Result<T, DE>)
    requires decoded.Ok? ==> convert.requires(decoded.value)
    ensures decoded.Err? ==> r == Err(decoded.error)
    ensures decoded.Ok? ==> (r.Ok? <==> validate(convert(decoded.value)).Ok?)
    ensures decoded.Ok? && r.Ok? ==> r.value == convert(decoded.value)
    ensures decoded.Ok? && r.Err? ==> r.error == custom(validate(convert(decoded.value)).error)
  {
    match decoded
    case Err(e) => Err(e)
    case Ok(helper) =>
      var instance := convert(helper);
      Validated(instance, validate).MapErr(custom)
  }

  /** The generated `deserialize` for `input`, given the outcome of decoding
      the helper (a value of the helper type, or the decoder's error), the
      user's `validate` and the decoder's `Error::custom`. */
  function GeneratedDeserialize<V, DE, VE>(
    input: DeriveInput, decoded: Result<Value<V>, DE>, validate: Value<V> -> Result<(), VE>, custom: VE -> DE): (r: Result<Value<V>, DE>)
    requires !input.data.UnionData? && WellFormedData(input.data)
    requires decoded.Ok? ==> Conforms(decoded.value, HelperName(input.ident), input.data)
    ensures decoded.Err? ==> r == Err(decoded.error)
    ensures decoded.Ok? ==> (r.Ok? <==> validate(Retag(decoded.value, input.ident)).Ok?)
    ensures r.Ok? ==> r.value == Retag(decoded.value, input.ident) && Conforms(r.value, input.ident, input.data)
    ensures decoded.Ok? && r.Err? ==> r.error == custom(validate(Retag(decoded.value, input.ident)).error)
  {
    var init := ValidateDeser(input).expansion.impl.init;
    var convert := (h: Value<V>) requires Eval(init, h).Some? => Eval(init, h).value;
    if decoded.Err? then DeserializeBody(decoded, convert, validate, custom)
    else
      ConversionCorrect(input, decoded.value);
      DeserializeBody(decoded, convert, validate, custom)
  }

  /** Decoding the helper form of a valid value gives back that value. */
  lemma RoundTripAccepts<V, DE, VE>(
    input: DeriveInput, v: Value<V>, validate: Value<V> -> Result<(), VE>, custom: VE -> DE)
    requires !input.data.UnionData? && WellFormedData(input.data)
    requires Conforms(v, input.ident, input.data) && validate(v).Ok?
    ensures Conforms(Retag(v, HelperName(input.ident)), HelperName(input.ident), input.data)
    ensures GeneratedDeserialize(input, Ok(Retag(v, HelperName(input.ident))), validate, custom) == Ok(v)
  {
    RetagBijection(v, input.ident, HelperName(input.ident), input.data);
  }

  /** Decoding the helper form of an invalid value fails, with the validation
      error turned into a decoding error: it never yields the value. */
  lemma RoundTripRejects<V, DE, VE>(
    input: DeriveInput, v: Value<V>, validate: Value<V> -> Result<(), VE>, custom: VE -> DE)
    requires !input.data.UnionData? && WellFormedData(input.data)
    requires Conforms(v, input.ident, input.data) && validate(v).Err?
    ensures Conforms(Retag(v, HelperName(input.ident)), HelperName(input.ident), input.data)
    ensures GeneratedDeserialize(input, Ok(Retag(v, HelperName(input.ident))), validate, custom) == Err(custom(validate(v).error))
  {
    RetagBijection(v, input.ident, HelperName(input.ident), input.data);
  }
}
