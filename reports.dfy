/** What the two validators share: the truthiness test on an optional length
    bound and the wording of their findings. */
module Reports {
  import opened Wrappers
  import opened JsString
  import opened MetaTypes

  /** A check's verdict: passed, or a problem with its severity and message
      (the `Problem` of a report entry, and what a custom test returns). */
  datatype Outcome = Pass | Problem(severity: Severity, message: string)

  /** `rule.max && ...`: a bound takes part only when it is present and
      nonzero, since 0 and `undefined` are both falsy. */
  predicate IsSet(bound: Option<nat>) {
    bound.Some? && bound.value != 0
  }

  const EmptyValue := "Value is empty"
  const MissingElement := "Element is missing"
  const MaxExceeded := " - maximum length exceeded"

  /** `${cleanValue.length} / ${bound}` followed by the finding's wording. */
  function LengthMessage(len: nat, bound: nat, suffix: string): string {
    NatToString(len) + " / " + NatToString(bound) + suffix
  }

  /** A length message starts with a digit, so it is never "Value is empty". */
  lemma {:induction false} LengthMessageNotEmptyValue(len: nat, bound: nat, suffix: string)
    ensures LengthMessage(len, bound, suffix) != EmptyValue
  {
    var m := LengthMessage(len, bound, suffix);
    assert m[0] == NatToString(len)[0];
    assert EmptyValue[0] == 'V';
  }

  /** A length message names its length and its bound unambiguously: two
      messages with the same wording are equal only for equal numbers. */
  lemma {:induction false} LengthMessageInjective(a: nat, b: nat, c: nat, d: nat, suffix: string)
    requires LengthMessage(a, b, suffix) == LengthMessage(c, d, suffix)
    ensures a == c && b == d
  {
    MessageSplit(NatToString(a), NatToString(b), NatToString(c), NatToString(d), suffix);
    NatToStringInjective(a, c);
    NatToStringInjective(b, d);
  }

  lemma {:induction false} MessageSplit(x: string, u: string, y: string, v: string, suffix: string)
    requires IsDigits(x) && IsDigits(y)
    requires x + " / " + u + suffix == y + " / " + v + suffix
    ensures x == y && u == v
  {
    var r1, r2 := " / " + u + suffix, " / " + v + suffix;
    assert x + " / " + u + suffix == x + r1;
    assert y + " / " + v + suffix == y + r2;
    DigitsThenSpace(x, y, r1, r2);
    SameMiddle(u, v, suffix);
  }

  /** Equal strings with the same affixes have the same middle. */
  lemma {:induction false} SameMiddle(u: string, v: string, suffix: string)
    requires " / " + u + suffix == " / " + v + suffix
    ensures u == v
  {
    var r1, r2 := " / " + u + suffix, " / " + v + suffix;
    assert |u| == |v|;
    assert u == r1[3..3 + |u|];
    assert v == r2[3..3 + |v|];
  }

  /** A digit run followed by a space splits off the same way from both
      sides of an equation. */
  lemma {:induction false} DigitsThenSpace(x: string, y: string, r1: string, r2: string)
    requires IsDigits(x) && IsDigits(y)
    requires r1 != [] && r1[0] == ' ' && r2 != [] && r2[0] == ' '
    requires x + r1 == y + r2
    ensures x == y && r1 == r2
  {
    var m := x + r1;
    LeadingDigits(x, r1);
    LeadingDigits(y, r2);
    assert x == m[..|x|] == y;
    assert r1 == m[|x|..] == r2;
  }

  /** The length of the run of decimal digits a string starts with. */
  function LeadingDigitCount(s: string): nat {
    if s != [] && '0' <= s[0] <= '9' then 1 + LeadingDigitCount(s[1..]) else 0
  }

  lemma {:induction false} LeadingDigits(x: string, r: string)
    requires IsDigits(x) && r != [] && r[0] == ' '
    ensures LeadingDigitCount(x + r) == |x|
  {
    if x != [] {
      assert (x + r)[1..] == x[1..] + r;
      LeadingDigits(x[1..], r);
    }
  }

  /** Appending issues without a record after issues that point at one puts
      every missing-record issue after every record issue. */
  lemma {:induction false} PointedBeforeMissing<R>(p: seq<Issue<R>>, q: seq<Issue<R>>)
    requires forall x :: x in p ==> x.meta.Some?
    requires forall x :: x in q ==> x.meta.None?
    ensures forall a, b :: 0 <= a < b < |p + q| && (p + q)[a].meta.None? ==> (p + q)[b].meta.None?
  {
    forall a, b | 0 <= a < b < |p + q| && (p + q)[a].meta.None?
      ensures (p + q)[b].meta.None?
    {
      assert forall i :: 0 <= i < |p| ==> (p + q)[i] == p[i] && p[i] in p;
      assert (p + q)[b] == q[b - |p|] && q[b - |p|] in q;
    }
  }
}
