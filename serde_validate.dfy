/** The `Validate` trait: the user's check `validate(&self)` and the provided
    method `validated(self)` that the generated `deserialize` relies on. A
    trait implementation is modelled by the function it gives for `validate`;
    since `validate` returns `()` on success, it has no way to hand back a
    changed value. */
module SerdeValidate {
  import opened Results

  /** `validated`: `self.validate().map(|_| self)`. It succeeds exactly when
      `validate` does, gives back the very value it consumed, and on failure
      gives back `validate`'s own error. */
  function Validated<T, E>(self: T, validate: T -> Result<(), E>): (r: Result<T, E>)
    ensures r.Ok? <==> validate(self).Ok?
    ensures r.Ok? ==> r.value == self
    ensures r.Err? ==> r.error == validate(self).error
  {
    validate(self).Map(_ => self)
  }

  /** A value that came out of `validated` passes `validated` again, unchanged. */
  lemma ValidatedIdempotent<T, E>(self: T, validate: T -> Result<(), E>)
    requires Validated(self, validate).Ok?
    ensures Validated(Validated(self, validate).value, validate) == Validated(self, validate)
  {
  }

  /** The trait's documentation example: a struct with one `i32` field. */
  datatype MyStruct = MyStruct(value: int)

  /** Its `validate`: rejects a negative `value`. */
  function MyStructValidate(s: MyStruct): (r: Result<(), string>)
    ensures r.Ok? <==> 0 <= s.value
  {
    if s.value < 0 then Err("Value must be non-negative") else Ok(())
  }

  /** `MyStruct { value: 10 }` validates; `validated` returns it. */
  lemma MyStructExample()
    ensures MyStructValidate(MyStruct(10)).Ok?
    ensures Validated(MyStruct(10), MyStructValidate) == Ok(MyStruct(10))
    ensures Validated(MyStruct(-10), MyStructValidate) == Err("Value must be non-negative")
  {
  }
}
