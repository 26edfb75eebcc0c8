/** The crate's test items and its documentation example, run through the
    model: the expansion of each item and the outcome of the generated
    `deserialize` on the inputs the tests feed it. The JSON text of a test
    stands for the helper value `serde_json` decodes it into. */
module Scenarios {
  import opened Results
  import opened Syntax
  import opened Values
  import opened Names
  import opened Emitted
  import opened ImplGenerics
  import opened ValidateDeserMacro

  /** Field values: strings, `i32`s, `bool`s, and values of user types. */
  datatype Leaf = Str(s: string) | I32(i: int) | Bool(b: bool) | Nested(v: Value<Leaf>)

  const Tested: Ident := "NonEmptyAndNonNegative"

  /** `Error::custom` of `serde_json`, keeping the message. */
  function Custom(msg: string): string { msg }

  /** `True(bool)`: valid when it holds `true`. */
  function TrueValidate(v: Value<Leaf>): Result<(), string> {
    if v.payload.TupleP? && 0 < |v.payload.items| && v.payload.items[0] == Bool(true) then Ok(()) else Err("not true")
  }

  /** "name cannot be empty", "id cannot be negative". */
  function CheckNameAndId(name: Option<Leaf>, id: Option<Leaf>): Result<(), string> {
    if name == Some(Str("")) then Err("name cannot be empty")
    else if id.Some? && id.value.I32? && id.value.i < 0 then Err("id cannot be negative")
    else Ok(())
  }

  // ------------------------------------------------ struct NonEmptyAndNonNegative { name, id }

  const NamedItem := DeriveInput(Tested, Generics([], None),
    StructData(Named([Field("name", "String"), Field("id", "i32")])))

  function NamedValidate(v: Value<Leaf>): Result<(), string> {
    if v.payload.NamedP? then CheckNameAndId(Lookup(v.payload.entries, "name"), Lookup(v.payload.entries, "id"))
    else Ok(())
  }

  function NamedInput(name: string, id: int): Value<Leaf> {
    StructV(HelperName(Tested), NamedP([("name", Str(name)), ("id", I32(id))]))
  }

  /** The tests' verdict on a name and an id, in the order they are checked. */
  function Expected(name: string, id: int, value: Value<Leaf>): Result<Value<Leaf>, string> {
    if name == "" then Err("name cannot be empty")
    else if id < 0 then Err("id cannot be negative")
    else Ok(value)
  }

  /** `{"name": name, "id": id}` is accepted exactly when the name is not
      empty and the id not negative (the tests try "Lucas"/1, ""/1 and
      "Lucas"/-1). */
  lemma NamedStructOutcome(name: string, id: int)
    ensures GeneratedDeserialize(NamedItem, Ok(NamedInput(name, id)), NamedValidate, Custom)
      == Expected(name, id, StructV(Tested, NamedP([("name", Str(name)), ("id", I32(id))])))
  {
    var es := NamedInput(name, id).payload.entries;
    assert Lookup(es, "name") == Some(Str(name));
    assert Lookup(es, "id") == Some(I32(id));
  }

  // ------------------------------------------------ struct NonEmptyAndNonNegative(String, i32)

  const UnnamedItem := DeriveInput(Tested, Generics([], None), StructData(Unnamed(["String", "i32"])))

  function UnnamedValidate(v: Value<Leaf>): Result<(), string> {
    if v.payload.TupleP? && |v.payload.items| == 2 then CheckNameAndId(Some(v.payload.items[0]), Some(v.payload.items[1]))
    else Ok(())
  }

  function UnnamedInput(name: string, id: int): Value<Leaf> {
    StructV(HelperName(Tested), TupleP([Str(name), I32(id)]))
  }

  /** `[name, id]` is accepted exactly when the name is not empty and the id
      not negative (the tests try ["Lucas", 1], ["", 1] and ["Lucas", -1]). */
  lemma UnnamedStructOutcome(name: string, id: int)
    ensures GeneratedDeserialize(UnnamedItem, Ok(UnnamedInput(name, id)), UnnamedValidate, Custom)
      == Expected(name, id, StructV(Tested, TupleP([Str(name), I32(id)])))
  {
  }

  // ------------------------------------------------ enum NonEmptyAndNonNegative { String { name }, Int(i32), Null }

  const EnumItem := DeriveInput(Tested, Generics([], None), EnumData([
    Variant("String", Named([Field("name", "String")])),
    Variant("Int", Unnamed(["i32"])),
    Variant("Null", UnitFields)]))

  function EnumValidate(v: Value<Leaf>): Result<(), string> {
    if v.EnumV? && v.variant == "String" && v.payload == NamedP([("name", Str(""))]) then Err("name cannot be empty")
    else if v.EnumV? && v.variant == "Int" && v.payload.TupleP? && |v.payload.items| == 1
      && v.payload.items[0].I32? && v.payload.items[0].i < 0 then Err("id cannot be negative")
    else Ok(())
  }

  function EnumInput(variant: Ident, p: Payload<Leaf>): Value<Leaf> {
    EnumV(HelperName(Tested), variant, p)
  }

  /** The conversion written for the test enum: three arms, in order. */
  lemma EnumConversionShape()
    ensures ValidateDeser(EnumItem).Expanded?
    ensures ValidateDeser(EnumItem).expansion.impl.init == MatchHelper([
      Arm(HelperName(Tested), Tested, "String", NamedBinders(["name"])),
      Arm(HelperName(Tested), Tested, "Int", TupleBinders(["value_0"])),
      Arm(HelperName(Tested), Tested, "Null", NoBinders)])
  {
    assert Placeholders(1) == ["value_0"] by {
      assert Placeholders(1)[0] == Placeholder(0) == "value_0";
    }
    assert FieldNames([Field("name", "String")]) == ["name"];
    var arms := ValidateDeser(EnumItem).expansion.impl.init.arms;
    assert |arms| == 3;
    assert arms[0] == InitArm(Tested, HelperName(Tested), EnumItem.data.variants[0]);
    assert arms[1] == InitArm(Tested, HelperName(Tested), EnumItem.data.variants[1]);
    assert arms[2] == InitArm(Tested, HelperName(Tested), EnumItem.data.variants[2]);
  }

  /** `{"String": {"name": name}}` is accepted exactly when the name is not
      empty (the tests try "Lucas" and ""). */
  lemma EnumStringOutcome(name: string)
    ensures GeneratedDeserialize(EnumItem, Ok(EnumInput("String", NamedP([("name", Str(name))]))), EnumValidate, Custom)
      == if name == "" then Err("name cannot be empty") else Ok(EnumV(Tested, "String", NamedP([("name", Str(name))])))
  {
  }

  /** `{"Int": i}` is accepted exactly when `i` is not negative (the tests
      try -1 and 1). */
  lemma EnumIntOutcome(i: int)
    ensures GeneratedDeserialize(EnumItem, Ok(EnumInput("Int", TupleP([I32(i)]))), EnumValidate, Custom)
      == if i < 0 then Err("id cannot be negative") else Ok(EnumV(Tested, "Int", TupleP([I32(i)])))
  {
  }

  /** `{"Null": null}` is accepted. */
  lemma EnumNullOutcome()
    ensures GeneratedDeserialize(EnumItem, Ok(EnumInput("Null", UnitP)), EnumValidate, Custom)
      == Ok(EnumV(Tested, "Null", UnitP))
  {
  }

  // ------------------------------------------------ struct NonEmptyAndNonNegative<T: Validate> where T::Error: Display { name, id, t }

  const GenericNamedItem := DeriveInput(Tested,
    Generics([TypeParam("T", ["Validate"])], Some([WherePredicate("T::Error", ["Display"])])),
    StructData(Named([Field("name", "String"), Field("id", "i32"), Field("t", "T")])))

  function GenericNamedValidate(v: Value<Leaf>): Result<(), string> {
    if !v.payload.NamedP? then Ok(())
    else
      var es := v.payload.entries;
      var check := CheckNameAndId(Lookup(es, "name"), Lookup(es, "id"));
      var t := Lookup(es, "t");
      if check.Err? then check
      else if t.Some? && t.value.Nested? then TrueValidate(t.value.v)
      else Ok(())
  }

  function GenericNamedInput(name: string, id: int, t: bool): Value<Leaf> {
    StructV(HelperName(Tested), NamedP([("name", Str(name)), ("id", I32(id)), ("t", Nested(StructV("True", TupleP([Bool(t)]))))]))
  }

  /** The impl is generic over `T` with its bound, asks for `T::Error: Display`
      and then `T: Deserialize<'__de>`; the helper carries no such bound. */
  lemma GenericNamedExpansion()
    ensures ValidateDeser(GenericNamedItem).Expanded?
    ensures var e := ValidateDeser(GenericNamedItem).expansion;
      && e.helper.params == [TypeParam("T", ["Validate"])]
      && e.helper.whereClause == Some([WherePredicate("T::Error", ["Display"])])
      && e.impl.params == [LifetimeParam("'__de", []), TypeParam("T", ["Validate"])]
      && e.impl.selfArgs == ["T"]
      && e.impl.predicates == [WherePredicate("T::Error", ["Display"]), WherePredicate("T", ["serde::Deserialize<'__de>"])]
  {
  }

  /** The test's `validate` on a decoded value: name, then id, then `t`. */
  lemma GenericNamedVerdict(name: string, id: int, t: bool)
    ensures GenericNamedValidate(Retag(GenericNamedInput(name, id, t), Tested)) == (
      if name == "" then Err("name cannot be empty")
      else if id < 0 then Err("id cannot be negative")
      else if !t then Err("not true")
      else Ok(()))
  {
    var v := Retag(GenericNamedInput(name, id, t), Tested);
    var es := v.payload.entries;
    assert Lookup(es, "name") == Some(Str(name));
    assert Lookup(es, "id") == Some(I32(id));
    assert Lookup(es, "t") == Some(Nested(StructV("True", TupleP([Bool(t)])))) by {
      assert es[2].0 == "t";
      LookupDistinct(es, 2);
    }
    GenericNamedValidateOn(v, name, id, t);
  }

  /** The test's `validate` on any value whose fields hold a name, an id and a
      `True`: name, then id, then `t`. */
  lemma GenericNamedValidateOn(v: Value<Leaf>, name: string, id: int, t: bool)
    requires v.payload.NamedP?
    requires Lookup(v.payload.entries, "name") == Some(Str(name))
    requires Lookup(v.payload.entries, "id") == Some(I32(id))
    requires Lookup(v.payload.entries, "t") == Some(Nested(StructV("True", TupleP([Bool(t)]))))
    ensures GenericNamedValidate(v) == (
      if name == "" then Err("name cannot be empty")
      else if id < 0 then Err("id cannot be negative")
      else if !t then Err("not true")
      else Ok(()))
  {
    assert TrueValidate(StructV("True", TupleP([Bool(t)]))) == if t then Ok(()) else Err("not true");
  }

  /** `{"name": name, "id": id, "t": t}` with `T = True` is accepted exactly
      when the name is not empty, the id not negative and `t` is true, checked
      in that order (the tests try each of the four outcomes). */
  lemma GenericNamedOutcome(name: string, id: int, t: bool)
    ensures GeneratedDeserialize(GenericNamedItem, Ok(GenericNamedInput(name, id, t)), GenericNamedValidate, Custom)
      == if name == "" then Err("name cannot be empty")
         else if id < 0 then Err("id cannot be negative")
         else if !t then Err("not true")
         else Ok(Retag(GenericNamedInput(name, id, t), Tested))
  {
    GenericNamedVerdict(name, id, t);
  }

  /** A failure to decode `T` is a failure to decode the helper, returned as is. */
  lemma GenericNamedDecodeFailure(e: string)
    ensures GeneratedDeserialize(GenericNamedItem, Err(e), GenericNamedValidate, Custom) == Err(e)
  {
  }

  // ------------------------------------------------ the other generic items

  /** `struct NonEmptyAndNonNegative<T: Validate<Error = String>>(String, i32, T)`:
      no `where` clause, so the impl's is the `Deserialize` predicate alone. */
  lemma GenericUnnamedExpansion()
    ensures ValidateDeser(DeriveInput(Tested, Generics([TypeParam("T", ["Validate<Error = String>"])], None),
      StructData(Unnamed(["String", "i32", "T"])))).expansion.impl.predicates
      == [WherePredicate("T", ["serde::Deserialize<'__de>"])]
  {
  }

  /** `enum NonEmptyAndNonNegative<T> where T: Validate, T::Error: Display`:
      both declared predicates come first, in order. */
  lemma GenericEnumExpansion()
    ensures ValidateDeser(DeriveInput(Tested,
      Generics([TypeParam("T", [])], Some([WherePredicate("T", ["Validate"]), WherePredicate("T::Error", ["Display"])])),
      EnumData([Variant("String", Named([Field("name", "String")])), Variant("Int", Unnamed(["i32"])), Variant("Something", Unnamed(["T"]))])))
      .expansion.impl.predicates
      == [WherePredicate("T", ["Validate"]), WherePredicate("T::Error", ["Display"]), WherePredicate("T", ["serde::Deserialize<'__de>"])]
  {
  }

  /** Lifetime and const parameters get no predicate; all three reach the
      self type stripped of their bounds. */
  lemma MixedParamsExpansion()
    ensures var g := Generics([LifetimeParam("'a", []), TypeParam("T", ["Clone"]), ConstParam("N", "usize")], None);
      var e := ValidateDeser(DeriveInput("Wrapper", g, StructData(Named([Field("x", "&'a [T; N]")])))).expansion;
      && e.impl.predicates == [WherePredicate("T", ["serde::Deserialize<'__de>"])]
      && e.impl.selfArgs == ["'a", "T", "N"]
  {
  }

  /** A predicate already present is not merged with the added one. */
  lemma NoDeduplication()
    ensures ImplWhereClause(Generics([TypeParam("T", [])], Some([WherePredicate("T", ["serde::Deserialize<'__de>"])])))
      == [DeserializePredicate("T"), DeserializePredicate("T")]
  {
  }

  /** A union is refused. */
  lemma UnionUnimplemented()
    ensures ValidateDeser(DeriveInput("U", Generics([], None), UnionData([Field("a", "u32")]))) == Unimplemented
  {
  }

  // ------------------------------------------------ the crate's documentation example

  const MyStructItem := DeriveInput("MyStruct", Generics([], None), StructData(Named([Field("value", "i32")])))

  function MyStructValueValidate(v: Value<Leaf>): Result<(), string> {
    if v.payload.NamedP? && Lookup(v.payload.entries, "value").Some?
      && Lookup(v.payload.entries, "value").value.I32? && Lookup(v.payload.entries, "value").value.i < 0
    then Err("Value must be non-negative")
    else Ok(())
  }

  /** `{ "value": 10 }` decodes; `{ "value": -10 }` is rejected. */
  lemma DocExampleScenarios()
    ensures GeneratedDeserialize(MyStructItem, Ok(StructV(HelperName("MyStruct"), NamedP([("value", I32(10))]))),
      MyStructValueValidate, Custom) == Ok(StructV("MyStruct", NamedP([("value", I32(10))])))
    ensures GeneratedDeserialize(MyStructItem, Ok(StructV(HelperName("MyStruct"), NamedP([("value", I32(-10))]))),
      MyStructValueValidate, Custom).Err?
  {
  }
}
