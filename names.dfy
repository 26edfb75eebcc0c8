/** The identifiers the macro makes up: the helper type's name
    (`format!("__ValidDeserialize{name}")`) and the placeholders bound by the
    arms of tuple variants (`format!("value_{}", i)`). */
module Names {
  import opened Syntax

  const HelperPrefix: string := "__ValidDeserialize"
  const PlaceholderPrefix: string := "value_"

  /** The helper's name: the reserved prefix followed by the original name, so
      the original name can be read back from it and never equals it. */
  function HelperName(name: Ident): (r: Ident)
    ensures |r| == |HelperPrefix| + |name|
    ensures r[..|HelperPrefix|] == HelperPrefix && r[|HelperPrefix|..] == name
    ensures r != name
  {
    HelperPrefix + name
  }

  /** Different types get different helpers. */
  lemma HelperNameInjective(a: Ident, b: Ident)
    requires HelperName(a) == HelperName(b)
    ensures a == b
  {
    assert a == HelperName(a)[|HelperPrefix|..];
  }

  function DigitChar(d: nat): char
    requires d < 10
  {
    (d + '0' as int) as char
  }

  /** `Display` of an unsigned integer: its decimal digits, most significant first. */
  function NatToString(n: nat): (s: string)
    ensures 0 < |s| && (10 <= n ==> 1 < |s|)
    ensures s[|s| - 1] == DigitChar(n % 10)
  {
    if n < 10 then [DigitChar(n)] else NatToString(n / 10) + [DigitChar(n % 10)]
  }

  /** Distinct numbers print differently. */
  lemma {:induction false} NatToStringInjective(a: nat, b: nat)
    requires NatToString(a) == NatToString(b)
    ensures a == b
  {
    var s := NatToString(a);
    assert DigitChar(a % 10) == DigitChar(b % 10);
    assert a % 10 == b % 10;
    if 10 <= a && 10 <= b {
      assert NatToString(a / 10) == s[..|s| - 1] == NatToString(b / 10);
      NatToStringInjective(a / 10, b / 10);
    }
  }

  /** The name bound to position `i` of a tuple variant in a conversion arm. */
  function Placeholder(i: nat): (r: Ident)
    ensures |r| == |PlaceholderPrefix| + |NatToString(i)|
    ensures r[..|PlaceholderPrefix|] == PlaceholderPrefix && r[|PlaceholderPrefix|..] == NatToString(i)
  {
    PlaceholderPrefix + NatToString(i)
  }

  /** Different positions get different placeholders. */
  lemma PlaceholderInjective(i: nat, j: nat)
    requires Placeholder(i) == Placeholder(j)
    ensures i == j
  {
    NatToStringInjective(i, j);
  }

  /** The placeholders `value_0, ..., value_{n-1}` of one arm: one per
      position, no two alike. */
  function Placeholders(n: nat): (r: seq<Ident>)
    ensures |r| == n
    ensures forall i, j :: 0 <= i < j < n ==> r[i] != r[j]
  {
    var r := seq(n, i requires 0 <= i < n => Placeholder(i));
    assert forall i, j :: 0 <= i < j < n ==> r[i] != r[j] by {
      forall i, j | 0 <= i < j < n ensures r[i] != r[j] {
        if r[i] == r[j] {
          PlaceholderInjective(i, j);
        }
      }
    }
    r
  }
}
