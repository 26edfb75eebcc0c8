# serde-validate in Dafny

A model of `serde-validate`'s core, with proofs. The crate has two parts:

- The `validate_deser` attribute macro. It takes a struct or enum declaration and emits three things:
  - the declaration unchanged;
  - a helper declaration `__ValidDeserialize<Name>` of the same shape, which derives `Deserialize`;
  - an `impl Deserialize for Name`. Its `deserialize` decodes the helper, converts the helper value into a value of `Name`, calls `validated()` on it, and turns a validation error into a decoding error.
- The `Validate` trait. It has the user's `validate(&self)` and the provided `validated(self)`.

The model works on the declaration as data, not on tokens. It has these parts:

- `Syntax`: declarations, generic parameters, `where` predicates.
- `Values`: run-time values of declared types. A value is tagged with its type name, and its leaves are opaque field values.
- `Emitted`: the conversion expression the macro writes (`init_from_helper`). It is held as syntax, and the evaluator `Eval` gives its meaning.
- `Names`: the identifiers the macro makes up.
- `ImplGenerics`: the impl's generics.
- `ValidateDeserMacro`: the macro itself, the conversion proofs, and the generated `deserialize`.
- `SerdeValidate`: the trait.
- `Scenarios`: the crate's test items and its documentation example, instantiated as lemmas of the model.

The central results:

- `ConversionCorrect`: the emitted conversion takes every helper value to the value of the real type with the same fields, or the same variant and payload.
- `GeneratedDeserialize`: the generated `deserialize` returns a decoding error unchanged. Otherwise it returns that value exactly when `validate` accepts it.
- `RoundTripAccepts` and `RoundTripRejects` follow from these two.

## Model

| member | source | states |
|---|---|---|
| Names.HelperName | serde-validate-macro/src/lib.rs:49 | The helper's name is `__ValidDeserialize` followed by the original name, so it is longer than that name and never equal to it |
| Names.HelperNameInjective | serde-validate-macro/src/lib.rs:49 | Distinct declarations get distinct helper names |
| Names.NatToString | serde-validate-macro/src/lib.rs:289 | The decimal text of an index is non-empty, and its last character is the index's last digit |
| Names.NatToStringInjective | serde-validate-macro/src/lib.rs:289 | Distinct indices print differently |
| Names.Placeholder | serde-validate-macro/src/lib.rs:289 | Placeholder `i` is `value_` followed by the decimal text of `i`. Its promises are carried by `PlaceholderInjective` and `Placeholders` |
| Names.PlaceholderInjective | serde-validate-macro/src/lib.rs:289 | Distinct positions get distinct placeholders |
| Names.Placeholders | serde-validate-macro/src/lib.rs:287-291 | A tuple variant with `n` fields gets exactly `n` placeholders, pairwise distinct |
| Values.Lookup | serde-validate-macro/src/lib.rs:152 | Reading field `f` of a value finds an entry named `f`, or none exists |
| Values.LookupDistinct | serde-validate-macro/src/lib.rs:152 | When field names are distinct, reading the field of entry `i` gives entry `i`'s value |
| Values.FindVariant | serde-validate-macro/src/lib.rs:251-253 | Gives the first variant with the given name, or says there is none |
| Values.RetagBijection | serde-validate-macro/src/lib.rs:138-147 | Two declarations with the same body have the same values up to the type name, in both directions |
| Values.NamedPayloadDistinct | serde-validate-macro/src/lib.rs:149-160 | A value of a struct with distinct field names binds each name once |
| Emitted.Project | serde-validate-macro/src/lib.rs:150-153 | Reading a list of fields succeeds exactly when every field is present, and then gives each field's value in order |
| Emitted.EvalArmsFirst | serde-validate-macro/src/lib.rs:250-254 | In the emitted `match`, the first arm whose pattern selects the helper value is the one that runs |
| ImplGenerics.ExtraWhereClause | serde-validate-macro/src/lib.rs:62-68 | One predicate per type parameter, each with the single bound `serde::Deserialize<'__de>` |
| ImplGenerics.ExtraWhereClauseSound | serde-validate-macro/src/lib.rs:62-68 | Every added predicate is the `Deserialize` predicate of a type parameter; lifetimes and consts add none |
| ImplGenerics.ExtraWhereClauseAppend | serde-validate-macro/src/lib.rs:62-68 | The added predicates of a concatenated parameter list are those of each part, in order |
| ImplGenerics.ExtraWhereClauseAt | serde-validate-macro/src/lib.rs:62-68 | Type parameter `i`'s predicate sits at the position given by the number of type parameters before it, so declaration order is kept |
| ImplGenerics.ImplWhereClause | serde-validate-macro/src/lib.rs:69-79 | The impl's `where` clause is the declared predicates in order, then the added ones, with nothing merged or dropped |
| ImplGenerics.ImplWhereClauseCoversTypeParams | serde-validate-macro/src/lib.rs:62-79 | Every type parameter is required to implement `Deserialize<'__de>` by the impl |
| ImplGenerics.SimpleGenParams | serde-validate-macro/src/lib.rs:80-93 | The self type's arguments are the parameters' names without bounds, one per parameter and in order, for all three kinds. Its promises are carried by `SimpleGenParamsIgnoresBounds` and `ImplGenericsCorrect` |
| ImplGenerics.SimpleGenParamsIgnoresBounds | serde-validate-macro/src/lib.rs:80-93 | Bounds never reach the self type's arguments |
| SerdeValidate.Validated | serde-validate/src/lib.rs:104-106 | `validated` succeeds exactly when `validate` does. On success it returns the very value it consumed. On failure it returns `validate`'s own error |
| SerdeValidate.ValidatedIdempotent | serde-validate/src/lib.rs:99-106 | A value returned by `validated` passes `validated` again, unchanged |
| SerdeValidate.MyStructValidate | serde-validate/src/lib.rs:79-89 | The documentation example's struct validates exactly when `value >= 0` |
| SerdeValidate.MyStructExample | serde-validate/src/lib.rs:91-92 | `MyStruct { value: 10 }` passes and `validated` returns it; `-10` is rejected with the documented message |
| ValidateDeserMacro.FieldNames | serde-validate-macro/src/lib.rs:273-277 | The named binders of an arm are the declared field names, in order. Its promises are carried by `NamedConversion` and `ArmConversion` |
| ValidateDeserMacro.InitFromNamed | serde-validate-macro/src/lib.rs:149-160 | A named struct is converted by a literal of the real type with one initializer per declared field, in order, each reading the helper field of the same name. Its promises are carried by `NamedConversion` |
| ValidateDeserMacro.InitFromUnnamed | serde-validate-macro/src/lib.rs:186-195 | A tuple struct is converted by a call of the real type whose argument `i` is helper field `i`, for every `i < n`, including `n = 0`. Its promises are carried by `UnnamedConversion` |
| ValidateDeserMacro.VariantDef | serde-validate-macro/src/lib.rs:226-233 | A helper variant has the same name and the same kind of payload, with the same fields |
| ValidateDeserMacro.EnumDef | serde-validate-macro/src/lib.rs:223-239 | The helper enum has the item's parameters and `where` clause verbatim, and the same variants in the same order |
| ValidateDeserMacro.InitFromEnum | serde-validate-macro/src/lib.rs:241-255 | A `match` with exactly one arm per variant, in declaration order. Arm `i` maps helper variant `i` to the real variant of the same name. Named payloads bind the field names. Tuple payloads bind as many placeholders as there are fields, pairwise distinct. Unit maps to unit |
| ValidateDeserMacro.BuildHelper | serde-validate-macro/src/lib.rs:51-59 | Every struct kind and every enum gets a helper and a conversion; a union gets none |
| ValidateDeserMacro.ValidateDeser | serde-validate-macro/src/lib.rs:42-59 | A union is refused. Otherwise the item is re-emitted unchanged next to a helper named `HelperName(name)` with the same body. The helper's generics are copied verbatim with no added bound (a unit struct's helper has none) |
| ValidateDeserMacro.ImplGenericsCorrect | serde-validate-macro/src/lib.rs:61-101 | The impl's parameters are `'__de` and then the item's own. Its self type is the item applied to the bare parameter names. Its `where` clause starts with the declared predicates and asks `Deserialize<'__de>` of every type parameter |
| ValidateDeserMacro.ProjectOwnKeys | serde-validate-macro/src/lib.rs:149-160 | Reading back every field of a value with distinct field names gives its fields in order, and rebinding them gives the same entries |
| ValidateDeserMacro.NamedConversion | serde-validate-macro/src/lib.rs:149-160 | On every helper value, the named-struct conversion yields the real type's value with the same fields |
| ValidateDeserMacro.UnnamedConversion | serde-validate-macro/src/lib.rs:186-195 | On every helper value, the tuple-struct conversion yields the real type's value with the same fields in the same positions |
| ValidateDeserMacro.ArmConversion | serde-validate-macro/src/lib.rs:273-304 | The arm for a variant turns any payload of that variant into the real variant of the same name with the same payload (named, tuple or unit) |
| ValidateDeserMacro.EnumConversion | serde-validate-macro/src/lib.rs:241-255 | On every helper value, the enum conversion yields the real enum's value with the same variant and payload |
| ValidateDeserMacro.ConversionCorrect | serde-validate-macro/src/lib.rs:106-107 | For every non-union item, the emitted conversion is defined on every helper value. It yields that value under the real type's name, and the result is a value of the real type |
| ValidateDeserMacro.DeserializeBody | serde-validate-macro/src/lib.rs:106-108 | A decoding error is returned unchanged. Otherwise the result is `Ok` of the converted value exactly when `validate` accepts it, and `Error::custom` of the validation error when it does not |
| ValidateDeserMacro.GeneratedDeserialize | serde-validate-macro/src/lib.rs:101-109 | The generated `deserialize` returns a decoding error unchanged. Otherwise it succeeds exactly when `validate` accepts the decoded value under the real type's name, and then returns that value |
| ValidateDeserMacro.RoundTripAccepts | serde-validate-macro/src/lib.rs:106-108 | Decoding the helper form of a value that validates gives back that value |
| ValidateDeserMacro.RoundTripRejects | serde-validate-macro/src/lib.rs:106-108 | Decoding the helper form of a value that does not validate gives its validation error as a decoding error |
| Scenarios.NamedStructOutcome | serde-validate/tests/struct_named.rs:29-61 | `{"name", "id"}` is accepted exactly when the name is non-empty and the id non-negative; otherwise it fails with the first failing message |
| Scenarios.UnnamedStructOutcome | serde-validate/tests/struct_unnamed.rs:26-47 | `[name, id]` is accepted exactly when the name is non-empty and the id non-negative |
| Scenarios.EnumConversionShape | serde-validate/tests/enum.rs:23-28 | The test enum's conversion is three arms, in order: `String { name }`, `Int(value_0)`, `Null` |
| Scenarios.EnumStringOutcome | serde-validate/tests/enum.rs:43-56 | `{"String": {"name": n}}` is accepted exactly when `n` is non-empty |
| Scenarios.EnumIntOutcome | serde-validate/tests/enum.rs:58-66 | `{"Int": i}` is accepted exactly when `i >= 0` |
| Scenarios.EnumNullOutcome | serde-validate/tests/enum.rs:68-71 | `{"Null": null}` is accepted |
| Scenarios.GenericNamedExpansion | serde-validate/tests/generic_struct_named.rs:24-32 | The generic struct's impl keeps `T: Validate` and `T::Error: Display`, then adds `T: Deserialize<'__de>`; the helper adds nothing |
| Scenarios.GenericNamedValidateOn | serde-validate/tests/generic_struct_named.rs:34-62 | The test's `validate` checks the name, then the id, then `t` |
| Scenarios.GenericNamedVerdict | serde-validate/tests/generic_struct_named.rs:34-62 | The same verdict on the converted test input |
| Scenarios.GenericNamedOutcome | serde-validate/tests/generic_struct_named.rs:64-94 | `{"name", "id", "t"}` with `T = True` is accepted exactly when all three checks pass, and fails with the first failing message otherwise |
| Scenarios.GenericNamedDecodeFailure | serde-validate-macro/src/lib.rs:106 | For the generic test struct, any error from decoding the helper is returned as is, whatever it says |
| Scenarios.GenericUnnamedExpansion | serde-validate/tests/generic_struct_unnamed.rs:23-24 | An item without a `where` clause gets only the added `Deserialize` predicate |
| Scenarios.GenericEnumExpansion | serde-validate/tests/generic_enum.rs:25-30 | Both declared predicates of the generic enum come first, in order, then the added one |
| Scenarios.MixedParamsExpansion | serde-validate-macro/src/lib.rs:62-93 | Lifetime and const parameters get no predicate, and all three kinds reach the self type without bounds |
| Scenarios.NoDeduplication | serde-validate-macro/src/lib.rs:69-79 | A declared `T: Deserialize<'__de>` is not merged with the added one |
| Scenarios.UnionUnimplemented | serde-validate-macro/src/lib.rs:58 | A union yields no expansion |
| Scenarios.DocExampleScenarios | serde-validate/src/lib.rs:50-62 | In the crate's example, `{ "value": 10 }` decodes and `{ "value": -10 }` is rejected |

## Left out

- Token handling is not modelled. This covers `syn` parsing, `quote!`, `Ident::new` and spans, and `ToTokens`. Declarations and emitted code are datatypes: names are strings and types are opaque text.
- Attributes, visibility, discriminants and parameter defaults are not modelled. `serde-validate-macro/src/lib.rs` treats them unevenly:
  - fields and generic parameters are copied into the helper as tokens, with their attributes (lines 139-141, 178-180, 224-225);
  - a helper variant is rebuilt from the variant's name and fields only (lines 226-233), so variant attributes such as `#[serde(rename = …)]` or `#[serde(other)]`, doc comments and explicit discriminants are dropped;
  - the item's own attributes are not copied to the helper, which carries only `#[derive(serde::Deserialize)]` (lines 98-99, 126-128), so `#[serde(rename_all = …)]`, `#[serde(tag = …)]` or `deny_unknown_fields` on the item never reach the decoder.
- ValidateDeserMacro.VariantDef: `ensures r == v` holds only because the model's variants carry no attributes or discriminant. In the source the helper variant loses them.
- ValidateDeserMacro.ValidateDeser: `helper.data == input.data` holds only because the model has no attributes. In the source the helper loses the item's and the variants' attributes.
- ValidateDeserMacro.DeserializeBody: the call `instance.validated()` (line 108) is taken to be the trait's provided method `validated` (serde-validate/src/lib.rs:104-106). An inherent method named `validated` on the type, or an impl that overrides the provided one, would be called instead and could accept values `validate` rejects. The model does not cover that.
- ValidateDeserMacro.GeneratedDeserialize: the same assumption about `validated()`. In addition, `validate` is modelled as a total, pure function, with no panic and no interior mutation through `&self`.
- Decoding is not modelled: serde's `Deserializer` machinery, the derived `Deserialize` of the helper, and `serde_json`'s concrete syntax. The generated `deserialize` takes the decoding outcome as a parameter: a helper value or the decoder's error.
- `Error::custom` is a parameter. The message formatting and `Display` of errors are not modelled.
- Rust's type checking of the emitted code is not modelled. This covers trait resolution, well-formedness of `'__de`, and rejection of duplicate field or variant names. The conversion lemmas therefore require distinct field and variant names, which rustc enforces.
- `unimplemented!()` on a union is the outcome `Unimplemented`. The panic that aborts compilation is not modelled further.
- Scenarios and `SerdeValidate.MyStruct`: `i32` fields are unbounded integers. The test inputs and the documentation example never approach the 32-bit limits.
- The `#[cfg(feature = "macro")]` re-export is not modelled.
- Three points of behaviour, stated here because a reader might expect otherwise:
  - the helper declaration gets no added `Deserialize` bound; only the impl does;
  - `where` predicates are not deduplicated;
  - a unit struct's helper is emitted without the item's generics, because `build_unit_struct` is not given them.
