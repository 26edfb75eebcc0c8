/** The generics of the emitted `impl<'__de, ...> serde::Deserialize<'__de>
    for Name<...> where ...`: the extra `Deserialize` predicates, the full
    `where` clause and the bare parameter list of the self type. */
module ImplGenerics {
  import opened Results
  import opened Syntax

  const DeLifetime: Ident := "'__de"
  const DeserializeBound: Bound := "serde::Deserialize<'__de>"

  /** `T : serde::Deserialize<'__de>`. */
  function DeserializePredicate(t: Ident): WherePredicate {
    WherePredicate(t, [DeserializeBound])
  }

  /** How many of the parameters are type parameters. */
  function TypeParamCount(params: seq<GenericParam>): nat {
    if params == [] then 0
    else (if params[0].TypeParam? then 1 else 0) + TypeParamCount(params[1..])
  }

  /** `extra_where_clause`: one `Deserialize` predicate per type parameter;
      lifetime and const parameters contribute none. */
  function ExtraWhereClause(params: seq<GenericParam>): (r: seq<WherePredicate>)
    ensures |r| == TypeParamCount(params)
    ensures forall k :: 0 <= k < |r| ==> r[k].bounds == [DeserializeBound]
  {
    if params == [] then []
    else
      var rest := ExtraWhereClause(params[1..]);
      if params[0].TypeParam? then [DeserializePredicate(params[0].ident)] + rest else rest
  }

  /** Every extra predicate is the `Deserialize` predicate of a type parameter
      of the list. */
  lemma {:induction false} ExtraWhereClauseSound(params: seq<GenericParam>, k: nat)
    requires k < |ExtraWhereClause(params)|
    ensures exists i :: 0 <= i < |params| && params[i].TypeParam? && ExtraWhereClause(params)[k] == DeserializePredicate(params[i].ident)
  {
    if params[0].TypeParam? && k == 0 {
      assert ExtraWhereClause(params)[k] == DeserializePredicate(params[0].ident);
    } else {
      var k' := if params[0].TypeParam? then k - 1 else k;
      assert ExtraWhereClause(params)[k] == ExtraWhereClause(params[1..])[k'];
      ExtraWhereClauseSound(params[1..], k');
      var j :| 0 <= j < |params[1..]| && params[1..][j].TypeParam? &&
        ExtraWhereClause(params[1..])[k'] == DeserializePredicate(params[1..][j].ident);
      assert params[1..][j] == params[j + 1];
    }
  }

  /** The extra predicates of a concatenation are those of its parts, in order. */
  lemma {:induction false} ExtraWhereClauseAppend(a: seq<GenericParam>, b: seq<GenericParam>)
    ensures ExtraWhereClause(a + b) == ExtraWhereClause(a) + ExtraWhereClause(b)
    ensures TypeParamCount(a + b) == TypeParamCount(a) + TypeParamCount(b)
  {
    if a != [] {
      assert (a + b)[0] == a[0] && (a + b)[1..] == a[1..] + b;
      ExtraWhereClauseAppend(a[1..], b);
    } else {
      assert a + b == b;
    }
  }

  /** Type parameter `i` gets its predicate at the position given by the number
      of type parameters before it: declaration order is kept and nothing is
      dropped or merged. */
  lemma ExtraWhereClauseAt(params: seq<GenericParam>, i: nat)
    requires i < |params| && params[i].TypeParam?
    ensures TypeParamCount(params[..i]) < |ExtraWhereClause(params)|
    ensures ExtraWhereClause(params)[TypeParamCount(params[..i])] == DeserializePredicate(params[i].ident)
  {
    assert params == params[..i] + ([params[i]] + params[i + 1..]);
    ExtraWhereClauseAppend(params[..i], [params[i]] + params[i + 1..]);
    ExtraWhereClauseAppend([params[i]], params[i + 1..]);
    assert ([params[i]] + params[i + 1..])[1..] == params[i + 1..];
  }

  /** The predicates the item itself declares (none without a `where` clause). */
  function DeclaredPredicates(g: Generics): seq<WherePredicate> {
    match g.whereClause
    case None => []
    case Some(preds) => preds
  }

  /** `where_clause` of the impl: the declared predicates, in order, then the
      extra ones; the count is the sum of both, so nothing is deduplicated. */
  function ImplWhereClause(g: Generics): (r: seq<WherePredicate>)
    ensures |r| == |DeclaredPredicates(g)| + TypeParamCount(g.params)
    ensures r[..|DeclaredPredicates(g)|] == DeclaredPredicates(g)
    ensures r[|DeclaredPredicates(g)|..] == ExtraWhereClause(g.params)
  {
    DeclaredPredicates(g) + ExtraWhereClause(g.params)
  }

  /** Every type parameter is required to be deserializable by the impl. */
  lemma ImplWhereClauseCoversTypeParams(g: Generics, i: nat)
    requires i < |g.params| && g.params[i].TypeParam?
    ensures DeserializePredicate(g.params[i].ident) in ImplWhereClause(g)
  {
    ExtraWhereClauseAt(g.params, i);
    var r := ImplWhereClause(g);
    var d := |DeclaredPredicates(g)|;
    assert r[d..][TypeParamCount(g.params[..i])] == r[d + TypeParamCount(g.params[..i])];
  }

  /** `simple_gen_params`: the parameters with their bounds stripped, in
      order, one per parameter. */
  function SimpleGenParams(params: seq<GenericParam>): (r: seq<Ident>)
    ensures |r| == |params|
    ensures forall i :: 0 <= i < |params| ==> r[i] == ParamIdent(params[i])
  {
    seq(|params|, i requires 0 <= i < |params| => ParamIdent(params[i]))
  }

  /** Bounds do not reach the self type's arguments: parameter lists naming the
      same parameters give the same arguments, whatever their bounds. */
  lemma SimpleGenParamsIgnoresBounds(ps: seq<GenericParam>, qs: seq<GenericParam>)
    requires |ps| == |qs| && forall i :: 0 <= i < |ps| ==> ParamIdent(ps[i]) == ParamIdent(qs[i])
    ensures SimpleGenParams(ps) == SimpleGenParams(qs)
  {
  }
}
