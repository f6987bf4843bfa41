/** The SEO validator (`validateSeo`): soft length bands per (tag, key), and
    a final pass that reports the required rules no record matched. */
module SeoRules {
  import opened Wrappers
  import opened JsString
  import opened MetaTypes
  import opened Reports

  /** A rule of an SEO rule set. `key` is mandatory here; the optional bounds
      are `None` when absent and `required` is `false` when absent. */
  datatype SeoRule = SeoRule(
    tag: string,
    key: string,
    required: bool,
    min: Option<nat>,
    safe: Option<nat>,
    max: Option<nat>)

  type SeoIssue = Issue<SeoRule>

  const SafeExceeded := " - recommended length exceeded"
  const MinNotReached := " - recommended length not reached"

  /** `item.tag === rule.tag && item.key === rule.key` */
  predicate SeoMatches(rule: SeoRule, item: MetaItem) {
    item.tag == rule.tag && item.key == rule.key
  }

  /** The verdict on a trimmed length: empty (error), above the maximum
      (error), above the safe length (warning), below the minimum (warning). */
  function SeoOutcome(len: nat, rule: SeoRule): Outcome {
    if len < 1 then Problem(Error, EmptyValue)
    else if IsSet(rule.max) && len > rule.max.value then Problem(Error, LengthMessage(len, rule.max.value, MaxExceeded))
    else if IsSet(rule.safe) && len > rule.safe.value then Problem(Warning, LengthMessage(len, rule.safe.value, SafeExceeded))
    else if IsSet(rule.min) && len < rule.min.value then Problem(Warning, LengthMessage(len, rule.min.value, MinNotReached))
    else Pass
  }

  /** What one rule reports about one record. */
  function SeoPairIssues(rule: SeoRule, item: MetaItem): seq<SeoIssue> {
    if !SeoMatches(rule, item) then []
    else
      match SeoOutcome(|Trim(item.value)|, rule)
      case Pass => []
      case Problem(severity, message) => [Issue(severity, message, rule, Some(item))]
  }

  /** The issues of one record, rule by rule. */
  function SeoRecordIssues(item: MetaItem, rules: seq<SeoRule>): seq<SeoIssue>
    decreases |rules|
  {
    if rules == [] then []
    else SeoRecordIssues(item, rules[..|rules| - 1]) + SeoPairIssues(rules[|rules| - 1], item)
  }

  /** The issues of the first `n` records, record by record. */
  function SeoPerRecordIssues(meta: seq<MetaItem>, rules: seq<SeoRule>, n: nat): seq<SeoIssue>
    requires n <= |meta|
  {
    if n == 0 then []
    else SeoPerRecordIssues(meta, rules, n - 1) + SeoRecordIssues(meta[n - 1], rules)
  }

  /** `meta.find(item => item.tag === rule.tag && item.key === rule.key)` succeeds. */
  predicate SeoFound(meta: seq<MetaItem>, rule: SeoRule) {
    exists i :: 0 <= i < |meta| && SeoMatches(rule, meta[i])
  }

  function SeoMissingIssues(meta: seq<MetaItem>, rules: seq<SeoRule>): seq<SeoIssue>
    decreases |rules|
  {
    if rules == [] then []
    else
      var rule := rules[|rules| - 1];
      SeoMissingIssues(meta, rules[..|rules| - 1])
      + (if rule.required && !SeoFound(meta, rule) then [Issue(Error, MissingElement, rule, None)] else [])
  }

  /** The report `validateSeo` returns. */
  function SeoIssues(meta: seq<MetaItem>, rules: seq<SeoRule>): seq<SeoIssue> {
    SeoPerRecordIssues(meta, rules, |meta|) + SeoMissingIssues(meta, rules)
  }

  // ---------------------------------------------------------------------
  // The validator
  // ---------------------------------------------------------------------

  /** `validateSeo(meta, rules)` */
  method ValidateSeo(meta: seq<MetaItem>, rules: seq<SeoRule>) returns (issues: seq<SeoIssue>)
    ensures issues == SeoIssues(meta, rules)
  {
    issues := [];
    for idx := 0 to |meta|
      invariant issues == SeoPerRecordIssues(meta, rules, idx)
    {
      var found := CheckSeoRecord(meta[idx], rules);
      issues := issues + found;
    }
    var missing := CheckSeoMissing(meta, rules);
    issues := issues + missing;
  }

  /** The body of the record loop: every rule in order against one record. */
  method CheckSeoRecord(item: MetaItem, rules: seq<SeoRule>) returns (issues: seq<SeoIssue>)
    ensures issues == SeoRecordIssues(item, rules)
  {
    issues := [];
    for j := 0 to |rules|
      invariant issues == SeoRecordIssues(item, rules[..j])
    {
      SeoRecordStep(item, rules, j);
      var found := CheckSeoPair(rules[j], item);
      issues := issues + found;
    }
    assert rules[..|rules|] == rules;
  }

  /** The final loop: one "Element is missing" per required rule without a record. */
  method CheckSeoMissing(meta: seq<MetaItem>, rules: seq<SeoRule>) returns (issues: seq<SeoIssue>)
    ensures issues == SeoMissingIssues(meta, rules)
  {
    issues := [];
    for j := 0 to |rules|
      invariant issues == SeoMissingIssues(meta, rules[..j])
    {
      SeoMissingStep(meta, rules, j);
      var rule := rules[j];
      if rule.required && !SeoFound(meta, rule) {
        issues := issues + [Issue(Error, MissingElement, rule, None)];
      }
    }
    assert rules[..|rules|] == rules;
  }

  lemma {:induction false} SeoRecordStep(item: MetaItem, rules: seq<SeoRule>, j: nat)
    requires j < |rules|
    ensures SeoRecordIssues(item, rules[..j + 1]) == SeoRecordIssues(item, rules[..j]) + SeoPairIssues(rules[j], item)
  {
    assert rules[..j + 1][..j] == rules[..j];
  }

  lemma {:induction false} SeoMissingStep(meta: seq<MetaItem>, rules: seq<SeoRule>, j: nat)
    requires j < |rules|
    ensures SeoMissingIssues(meta, rules[..j + 1]) == SeoMissingIssues(meta, rules[..j])
      + (if rules[j].required && !SeoFound(meta, rules[j]) then [Issue(Error, MissingElement, rules[j], None)] else [])
  {
    assert rules[..j + 1][..j] == rules[..j];
  }

  /** The body of the inner loop: at most one band issue for a matching pair. */
  method CheckSeoPair(rule: SeoRule, item: MetaItem) returns (issues: seq<SeoIssue>)
    ensures issues == SeoPairIssues(rule, item)
  {
    issues := [];
    if item.tag == rule.tag && item.key == rule.key {
      var cleanValue := Trim(item.value);
      assert SeoPairIssues(rule, item) == (match SeoOutcome(|cleanValue|, rule) case Pass => [] case Problem(s, m) => [Issue(s, m, rule, Some(item))]);
      if |cleanValue| < 1 {
        issues := [Issue(Error, EmptyValue, rule, Some(item))];
      } else if IsSet(rule.max) && |cleanValue| > rule.max.value {
        issues := [Issue(Error, LengthMessage(|cleanValue|, rule.max.value, MaxExceeded), rule, Some(item))];
      } else if IsSet(rule.safe) && |cleanValue| > rule.safe.value {
        issues := [Issue(Warning, LengthMessage(|cleanValue|, rule.safe.value, SafeExceeded), rule, Some(item))];
      } else if IsSet(rule.min) && |cleanValue| < rule.min.value {
        issues := [Issue(Warning, LengthMessage(|cleanValue|, rule.min.value, MinNotReached), rule, Some(item))];
      }
    }
  }

  // ---------------------------------------------------------------------
  // What the report promises
  // ---------------------------------------------------------------------

  /** The bands: a length passes exactly when it is non-empty, within every
      set maximum and safe length and at or above every set minimum; "Value
      is empty" is reported exactly for a blank value; errors are reserved for
      the empty value and the maximum, the safe and minimum bands only warn. */
  lemma {:induction false} SeoBands(len: nat, rule: SeoRule)
    ensures SeoOutcome(len, rule) == Pass <==>
      len > 0 && (IsSet(rule.max) ==> len <= rule.max.value) && (IsSet(rule.safe) ==> len <= rule.safe.value)
      && (IsSet(rule.min) ==> len >= rule.min.value)
    ensures len == 0 <==> SeoOutcome(len, rule) == Problem(Error, EmptyValue)
    ensures SeoOutcome(len, rule).Problem? && SeoOutcome(len, rule).severity == Error <==>
      len == 0 || (IsSet(rule.max) && len > rule.max.value)
  {
    var o := SeoOutcome(len, rule);
    if len > 0 && o.Problem? {
      if IsSet(rule.max) && len > rule.max.value {
        LengthMessageNotEmptyValue(len, rule.max.value, MaxExceeded);
      } else if IsSet(rule.safe) && len > rule.safe.value {
        LengthMessageNotEmptyValue(len, rule.safe.value, SafeExceeded);
      } else {
        LengthMessageNotEmptyValue(len, rule.min.value, MinNotReached);
      }
    }
  }

  /** The maximum takes precedence over the safe length, which takes
      precedence over the minimum. */
  lemma {:induction false} SeoPrecedence(len: nat, rule: SeoRule)
    requires len > 0
    ensures IsSet(rule.max) && len > rule.max.value ==>
      SeoOutcome(len, rule) == Problem(Error, LengthMessage(len, rule.max.value, MaxExceeded))
    ensures !(IsSet(rule.max) && len > rule.max.value) && IsSet(rule.safe) && len > rule.safe.value ==>
      SeoOutcome(len, rule) == Problem(Warning, LengthMessage(len, rule.safe.value, SafeExceeded))
  {
  }

  /** A bound of 0 is falsy and behaves exactly as an absent one. */
  lemma {:induction false} SeoZeroBoundIsUnset(len: nat, rule: SeoRule)
    ensures SeoOutcome(len, rule.(max := Some(0))) == SeoOutcome(len, rule.(max := None))
    ensures SeoOutcome(len, rule.(safe := Some(0))) == SeoOutcome(len, rule.(safe := None))
    ensures SeoOutcome(len, rule.(min := Some(0))) == SeoOutcome(len, rule.(min := None))
  {
  }

  /** A (record, rule) pair yields at most one issue, only when they match,
      and it points at the rule and the record. */
  lemma {:induction false} SeoPairShape(rule: SeoRule, item: MetaItem)
    ensures |SeoPairIssues(rule, item)| <= 1
    ensures SeoPairIssues(rule, item) != [] ==> SeoMatches(rule, item)
    ensures SeoPairIssues(rule, item) != [] <==> SeoMatches(rule, item) && SeoOutcome(|Trim(item.value)|, rule).Problem?
    ensures forall x :: x in SeoPairIssues(rule, item) ==> x.rule == rule && x.meta == Some(item)
  {
  }

  lemma {:induction false} SeoRecordIssuesShape(item: MetaItem, rules: seq<SeoRule>)
    ensures |SeoRecordIssues(item, rules)| <= |rules|
    ensures forall x :: x in SeoRecordIssues(item, rules) ==>
      x.rule in rules && x.meta == Some(item) && SeoMatches(x.rule, item)
    decreases |rules|
  {
    if rules != [] {
      var init := rules[..|rules| - 1];
      var last := rules[|rules| - 1];
      var before := SeoRecordIssues(item, init);
      var here := SeoPairIssues(last, item);
      SeoRecordIssuesShape(item, init);
      SeoPairShape(last, item);
      assert SeoRecordIssues(item, rules) == before + here;
      forall x: SeoIssue | x in before + here
        ensures x.rule in rules && x.meta == Some(item) && SeoMatches(x.rule, item)
      {
        if x in before {
          assert x.rule in init;
        } else {
          assert x in here;
        }
      }
    }
  }

  /** The per-record part holds only issues of matching pairs, in record
      order: the issues of the first `m` records are a prefix. */
  lemma {:induction false} SeoPerRecordShape(meta: seq<MetaItem>, rules: seq<SeoRule>, n: nat)
    requires n <= |meta|
    ensures forall x :: x in SeoPerRecordIssues(meta, rules, n) ==>
      x.meta.Some? && x.meta.value in meta[..n] && x.rule in rules && SeoMatches(x.rule, x.meta.value)
    ensures forall m :: 0 <= m <= n ==> SeoPerRecordIssues(meta, rules, m) <= SeoPerRecordIssues(meta, rules, n)
  {
    if n > 0 {
      SeoPerRecordShape(meta, rules, n - 1);
      SeoRecordIssuesShape(meta[n - 1], rules);
      assert meta[..n] == meta[..n - 1] + [meta[n - 1]];
    }
  }

  /** The final pass reports exactly the required rules without a record. */
  lemma {:induction false} SeoMissingExact(meta: seq<MetaItem>, rules: seq<SeoRule>)
    ensures forall x :: x in SeoMissingIssues(meta, rules) ==>
      x == Issue(Error, MissingElement, x.rule, None) && x.rule in rules && x.rule.required && !SeoFound(meta, x.rule)
    ensures forall k :: 0 <= k < |rules| && rules[k].required && !SeoFound(meta, rules[k]) ==>
      Issue(Error, MissingElement, rules[k], None) in SeoMissingIssues(meta, rules)
    decreases |rules|
  {
    if rules != [] {
      var init := rules[..|rules| - 1];
      SeoMissingExact(meta, init);
      assert rules == init + [rules[|rules| - 1]];
      forall k | 0 <= k < |rules| && rules[k].required && !SeoFound(meta, rules[k])
        ensures Issue(Error, MissingElement, rules[k], None) in SeoMissingIssues(meta, rules)
      {
        if k < |init| {
          assert rules[k] == init[k];
        }
      }
    }
  }

  /** Each issue of the report is about a matching pair or is the one
      "Element is missing" of a required rule without a record. */
  lemma {:induction false} SeoReportEntries(meta: seq<MetaItem>, rules: seq<SeoRule>)
    ensures forall x :: x in SeoIssues(meta, rules) ==>
      (x.meta.Some? && x.meta.value in meta && x.rule in rules && SeoMatches(x.rule, x.meta.value))
      || (x.meta.None? && x.message == MissingElement && x.rule in rules && x.rule.required && !SeoFound(meta, x.rule))
  {
    SeoPerRecordShape(meta, rules, |meta|);
    SeoMissingExact(meta, rules);
    assert meta[..|meta|] == meta;
  }

  /** All the per-record issues come before all the missing ones. */
  lemma {:induction false} SeoMissingComeLast(meta: seq<MetaItem>, rules: seq<SeoRule>)
    ensures forall a, b :: 0 <= a < b < |SeoIssues(meta, rules)| && SeoIssues(meta, rules)[a].meta.None? ==>
      SeoIssues(meta, rules)[b].meta.None?
  {
    var p: seq<SeoIssue> := SeoPerRecordIssues(meta, rules, |meta|);
    var q: seq<SeoIssue> := SeoMissingIssues(meta, rules);
    assert forall x :: x in p ==> x.meta.Some? by {
      SeoPerRecordShape(meta, rules, |meta|);
    }
    assert forall x :: x in q ==> x.meta.None? by {
      SeoMissingExact(meta, rules);
    }
    PointedBeforeMissing(p, q);
  }

  /** A rule set without required rules has an empty missing pass, and
      without records the report is exactly that pass. */
  lemma {:induction false} SeoOptionalNeverMissing(meta: seq<MetaItem>, rules: seq<SeoRule>)
    requires forall j :: 0 <= j < |rules| ==> !rules[j].required
    ensures SeoMissingIssues(meta, rules) == []
    decreases |rules|
  {
    if rules != [] {
      SeoOptionalNeverMissing(meta, rules[..|rules| - 1]);
    }
  }

  /** A record that no rule matches contributes nothing; a record that only
      rule `k` matches gets exactly that rule's issue. */
  lemma {:induction false} SeoRecordOfMatchingRule(item: MetaItem, rules: seq<SeoRule>, k: nat)
    requires forall j :: 0 <= j < |rules| && j != k ==> !SeoMatches(rules[j], item)
    ensures k < |rules| ==> SeoRecordIssues(item, rules) == SeoPairIssues(rules[k], item)
    ensures k >= |rules| ==> SeoRecordIssues(item, rules) == []
    decreases |rules|
  {
    if rules != [] {
      var init := rules[..|rules| - 1];
      var last := |rules| - 1;
      SeoRecordOfMatchingRule(item, init, if k < last then k else |rules|);
      assert SeoRecordIssues(item, rules) == SeoRecordIssues(item, init) + SeoPairIssues(rules[last], item);
      if k < last {
        assert init[k] == rules[k];
      }
      if k != last {
        assert !SeoMatches(rules[last], item);
        assert SeoPairIssues(rules[last], item) == [];
      }
    }
  }
}
