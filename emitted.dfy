/** The conversion expression the macro emits (`init_from_helper`), as syntax,
    and what it evaluates to when the variable `helper` holds a helper value.
    Evaluation yields `None` where rustc would reject the expression (a field
    the helper does not have, an index out of range, no arm for the value). */
module Emitted {
  import opened Results
  import opened Syntax
  import opened Values

  /** `member: helper.helperField` in a struct literal. */
  datatype FieldInit = FieldInit(member: Ident, helperField: Ident)

  /** The payload part of an arm: `{ a, b }` (field shorthand), `(x, y)`, or
      nothing. The same binders are written in the pattern and in the body. */
  datatype Binders =
    | NamedBinders(names: seq<Ident>)
    | TupleBinders(placeholders: seq<Ident>)
    | NoBinders

  /** `helperEnum::variant <binders> => realEnum::variant <binders>`. */
  datatype Arm = Arm(helperEnum: Ident, realEnum: Ident, variant: Ident, binders: Binders)

  datatype Init =
    | StructLit(path: Ident, inits: seq<FieldInit>)   // Name { f: helper.f, ... }
    | TupleCall(path: Ident, indices: seq<nat>)       // Name(helper.0, ..., helper.n-1)
    | UnitPath(path: Ident)                           // Name
    | MatchHelper(arms: seq<Arm>)                     // match helper { arms }

  type Env<V> = seq<(Ident, V)>

  function Zip<V>(names: seq<Ident>, vals: seq<V>): (r: seq<(Ident, V)>)
    requires |names| == |vals|
    ensures |r| == |names| && forall k :: 0 <= k < |r| ==> r[k] == (names[k], vals[k])
  {
    seq(|names|, k requires 0 <= k < |names| => (names[k], vals[k]))
  }

  /** The values bound to `keys`, one lookup per key; `None` when a key is unbound. */
  function Project<V>(keys: seq<Ident>, env: Env<V>): (r: Option<seq<V>>)
    ensures r.Some? <==> forall k :: 0 <= k < |keys| ==> Lookup(env, keys[k]).Some?
    ensures r.Some? ==> |r.value| == |keys| && forall k :: 0 <= k < |keys| ==> Lookup(env, keys[k]) == Some(r.value[k])
  {
    if keys == [] then Some([])
    else
      match Lookup(env, keys[0])
      case None => None
      case Some(x) =>
        match Project(keys[1..], env)
        case None =>
          assert exists k :: 0 <= k < |keys| && Lookup(env, keys[k]).None? by {
            var k :| 0 <= k < |keys[1..]| && Lookup(env, keys[1..][k]).None?;
            assert keys[1..][k] == keys[k + 1];
          }
          None
        case Some(rest) =>
          assert forall k :: 1 <= k < |keys| ==> keys[k] == keys[1..][k - 1];
          Some([x] + rest)
  }

  function Members(inits: seq<FieldInit>): (r: seq<Ident>)
    ensures |r| == |inits| && forall k :: 0 <= k < |r| ==> r[k] == inits[k].member
  {
    seq(|inits|, k requires 0 <= k < |inits| => inits[k].member)
  }

  function HelperFields(inits: seq<FieldInit>): (r: seq<Ident>)
    ensures |r| == |inits| && forall k :: 0 <= k < |r| ==> r[k] == inits[k].helperField
  {
    seq(|inits|, k requires 0 <= k < |inits| => inits[k].helperField)
  }

  /** Matches the pattern's binders against a payload; the bindings it makes. */
  function Bind<V>(b: Binders, p: Payload<V>): Option<Env<V>> {
    match (b, p)
    case (NamedBinders(ns), NamedP(es)) =>
      (match Project(ns, es) case None => None case Some(vs) => Some(Zip(ns, vs)))
    case (TupleBinders(ns), TupleP(items)) => if |ns| == |items| then Some(Zip(ns, items)) else None
    case (NoBinders, UnitP) => Some([])
    case _ => None
  }

  /** The payload the arm's body builds from the bindings. */
  function Build<V>(b: Binders, env: Env<V>): Option<Payload<V>> {
    match b
    case NamedBinders(ns) =>
      (match Project(ns, env) case None => None case Some(vs) => Some(NamedP(Zip(ns, vs))))
    case TupleBinders(ns) =>
      (match Project(ns, env) case None => None case Some(vs) => Some(TupleP(vs)))
    case NoBinders => Some(UnitP)
  }

  /** The arm's pattern names the helper value's enum and variant. */
  predicate Selects<V>(arm: Arm, h: Value<V>) {
    h.EnumV? && arm.helperEnum == h.ty && arm.variant == h.variant
  }

  /** Runs a selected arm: bind the pattern, build the real variant. */
  function Fire<V>(arm: Arm, p: Payload<V>): Option<Value<V>> {
    match Bind(arm.binders, p)
    case None => None
    case Some(env) =>
      match Build(arm.binders, env)
      case None => None
      case Some(q) => Some(EnumV(arm.realEnum, arm.variant, q))
  }

  /** `match`: the first arm whose pattern selects the value runs. */
  function EvalArms<V>(arms: seq<Arm>, h: Value<V>): Option<Value<V>> {
    if arms == [] then None
    else if Selects(arms[0], h) then Fire(arms[0], h.payload)
    else EvalArms(arms[1..], h)
  }

  /** When arm `t` is the first to select `h`, it is the one that runs. */
  lemma {:induction false} EvalArmsFirst<V>(arms: seq<Arm>, h: Value<V>, t: nat)
    requires t < |arms| && Selects(arms[t], h)
    requires forall k :: 0 <= k < t ==> !Selects(arms[k], h)
    ensures EvalArms(arms, h) == Fire(arms[t], h.payload)
  {
    if t > 0 {
      assert forall k :: 0 <= k < t - 1 ==> arms[1..][k] == arms[k + 1];
      EvalArmsFirst(arms[1..], h, t - 1);
    }
  }

  /** The value of the emitted expression when `helper` holds `h`. */
  function Eval<V>(e: Init, h: Value<V>): Option<Value<V>> {
    match e
    case StructLit(path, inits) =>
      if h.StructV? && h.payload.NamedP? then
        match Project(HelperFields(inits), h.payload.entries)
        case None => None
        case Some(vs) => Some(StructV(path, NamedP(Zip(Members(inits), vs))))
      else None
    case TupleCall(path, idx) =>
      if h.StructV? && h.payload.TupleP? && forall k :: 0 <= k < |idx| ==> idx[k] < |h.payload.items| then
        Some(StructV(path, TupleP(seq(|idx|, k requires 0 <= k < |idx| => h.payload.items[idx[k]]))))
      else None
    case UnitPath(path) => Some(StructV(path, UnitP))
    case MatchHelper(arms) => EvalArms(arms, h)
  }
}
