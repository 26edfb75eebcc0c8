/** Run-time values of the declared types: a struct value or an enum value,
    tagged with the name of its type, carrying a payload whose leaves are
    values of the (opaque) field types. */
module Values {
  import opened Results
  import opened Syntax

  datatype Payload<+V> =
    | NamedP(entries: seq<(Ident, V)>)
    | TupleP(items: seq<V>)
    | UnitP

  datatype Value<+V> =
    | StructV(ty: Ident, payload: Payload<V>)
    | EnumV(ty: Ident, variant: Ident, payload: Payload<V>)

  /** The value bound to `key`: the first entry carrying that name. */
  function Lookup<V>(entries: seq<(Ident, V)>, key: Ident): (r: Option<V>)
    ensures r.None? <==> forall k :: 0 <= k < |entries| ==> entries[k].0 != key
    ensures r.Some? ==> exists k :: 0 <= k < |entries| && entries[k] == (key, r.value)
  {
    if entries == [] then None
    else if entries[0].0 == key then Some(entries[0].1)
    else
      var r := Lookup(entries[1..], key);
      assert r.Some? ==> entries[1..][0] == entries[1];
      r
  }

  predicate DistinctKeys<V>(entries: seq<(Ident, V)>) {
    forall i, j :: 0 <= i < j < |entries| ==> entries[i].0 != entries[j].0
  }

  /** With no name bound twice, looking up the name of entry `i` finds entry `i`. */
  lemma {:induction false} LookupDistinct<V>(entries: seq<(Ident, V)>, i: nat)
    requires DistinctKeys(entries) && i < |entries|
    ensures Lookup(entries, entries[i].0) == Some(entries[i].1)
  {
    if i > 0 {
      assert entries[0].0 != entries[i].0;
      assert entries[1..][i - 1] == entries[i];
      LookupDistinct(entries[1..], i - 1);
    }
  }

  /** The payload has the layout the fields declare: the same field names in the
      same order, the same number of positional fields, or nothing. */
  predicate PayloadConforms<V>(p: Payload<V>, f: Fields) {
    match f
    case Named(fs) =>
      p.NamedP? && |p.entries| == |fs| && forall i :: 0 <= i < |fs| ==> p.entries[i].0 == fs[i].name
    case Unnamed(ts) => p.TupleP? && |p.items| == |ts|
    case UnitFields => p.UnitP?
  }

  /** The position of the first variant called `name`, if any. */
  function FindVariant(vs: seq<Variant>, name: Ident): (r: Option<nat>)
    ensures r.Some? ==> r.value < |vs| && vs[r.value].name == name
    ensures r.Some? ==> forall k :: 0 <= k < r.value ==> vs[k].name != name
    ensures r.None? ==> forall k :: 0 <= k < |vs| ==> vs[k].name != name
  {
    if vs == [] then None
    else if vs[0].name == name then Some(0)
    else
      match FindVariant(vs[1..], name)
      case None => None
      case Some(t) => Some(t + 1)
  }

  /** `v` is a value of the type named `name` declared with body `d`: a
      struct value laid out as the fields say, or a value of a declared
      variant laid out as that variant's fields say. Unions have no values in
      this model: the macro does not handle them. */
  predicate Conforms<V>(v: Value<V>, name: Ident, d: Data) {
    match d
    case StructData(f) => v.StructV? && v.ty == name && PayloadConforms(v.payload, f)
    case EnumData(vs) =>
      v.EnumV? && v.ty == name && FindVariant(vs, v.variant).Some? &&
      PayloadConforms(v.payload, vs[FindVariant(vs, v.variant).value].fields)
    case UnionData(_) => false
  }

  /** The same value, seen as a value of the type named `name`. */
  function Retag<V>(v: Value<V>, name: Ident): Value<V> {
    match v
    case StructV(_, p) => StructV(name, p)
    case EnumV(_, vn, p) => EnumV(name, vn, p)
  }

  /** Values of two declarations with the same body and different names are in
      one-to-one correspondence by `Retag`: it carries conforming values across
      in both directions and is undone by retagging with the old name. */
  lemma RetagBijection<V>(v: Value<V>, a: Ident, b: Ident, d: Data)
    ensures Conforms(v, a, d) ==> Conforms(Retag(v, b), b, d) && Retag(Retag(v, b), a) == v
    ensures Conforms(Retag(v, b), b, d) ==> Conforms(Retag(v, a), a, d)
  {
  }

  /** A conforming named payload binds every field name once. */
  lemma NamedPayloadDistinct<V>(p: Payload<V>, fs: seq<Field>)
    requires PayloadConforms(p, Named(fs)) && DistinctFieldNames(fs)
    ensures DistinctKeys(p.entries)
  {
  }
}
