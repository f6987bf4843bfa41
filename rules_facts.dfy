/** What `validateMeta` promises, proved about the report it is specified by. */
module MetaRuleFacts {
  import opened Wrappers
  import opened JsString
  import opened MetaTypes
  import opened Reports
  import opened MetaRules

  // ---------------------------------------------------------------------
  // Length checks
  // ---------------------------------------------------------------------

  /** The length check passes exactly when the trimmed value is non-empty
      and within every set bound; it reports "Value is empty" exactly for a
      blank value, whatever the bounds; every length problem is an error. */
  lemma {:induction false} LengthBands(len: nat, min: Option<nat>, max: Option<nat>)
    ensures LengthOutcome(len, min, max) == Pass <==>
      len > 0 && (IsSet(max) ==> len <= max.value) && (IsSet(min) ==> len >= min.value)
    ensures len == 0 <==> LengthOutcome(len, min, max) == Problem(Error, EmptyValue)
    ensures LengthOutcome(len, min, max).Problem? ==> LengthOutcome(len, min, max).severity == Error
  {
    if len > 0 && LengthOutcome(len, min, max).Problem? {
      if IsSet(max) && len > max.value {
        LengthMessageNotEmptyValue(len, max.value, MaxExceeded);
      } else {
        LengthMessageNotEmptyValue(len, min.value, MinNotReached);
      }
    }
  }

  /** When the maximum is exceeded the maximum error is the only length
      problem, even if the minimum is not reached either. */
  lemma {:induction false} MaxBeatsMin(len: nat, min: Option<nat>, max: Option<nat>)
    requires IsSet(max) && IsSet(min) && max.value < len < min.value
    ensures LengthOutcome(len, min, max) == Problem(Error, LengthMessage(len, max.value, MaxExceeded))
  {
  }

  /** A bound of 0 is falsy, so it behaves exactly as an absent bound. */
  lemma {:induction false} ZeroBoundIsUnset(len: nat, min: Option<nat>, max: Option<nat>)
    ensures LengthOutcome(len, min, Some(0)) == LengthOutcome(len, min, None)
    ensures LengthOutcome(len, Some(0), max) == LengthOutcome(len, None, max)
  {
  }

  /** A matched record gets at most one length issue, about itself. */
  lemma {:induction false} LengthIssuesShape(rule: MetaRule, item: MetaItem)
    ensures |LengthIssues(rule, item)| <= 1
    ensures forall x :: x in LengthIssues(rule, item) ==> x.severity == Error && x.rule == rule && x.meta == Some(item)
  {
    LengthBands(|Trim(item.value)|, rule.min, rule.max);
  }

  // ---------------------------------------------------------------------
  // Pattern
  // ---------------------------------------------------------------------

  /** The pattern error carries the pattern's own message and is decided by
      the raw value alone. */
  lemma {:induction false} PatternOnRawValue(rule: MetaRule, item: MetaItem)
    ensures PatternIssues(rule, item) != [] <==> rule.pattern.Some? && !RegexMatches(rule.pattern.value.rx, item.value)
    ensures PatternIssues(rule, item) != [] ==>
      PatternIssues(rule, item) == [Issue(Error, rule.pattern.value.message, rule, Some(item))]
  {
  }

  /** The pattern sees the untrimmed value: a URL with a leading space fails
      the URL pattern although its trimmed form passes. */
  lemma {:induction false} PatternSeesUntrimmedValue()
    ensures !RegexMatches(StartsWithHttpScheme, " https://a.io")
    ensures RegexMatches(StartsWithHttpScheme, Trim(" https://a.io"))
  {
    var url := "https://a.io";
    LeadingSpaceTrimmed(url);
    SpacedUrl();
    UrlHasScheme();
  }

  lemma SpacedUrl()
    ensures " https://a.io" == [' '] + "https://a.io"
  {
  }

  lemma {:induction false} UrlHasScheme()
    ensures RegexMatches(StartsWithHttpScheme, "https://a.io")
  {
    assert "https://a.io"[..8] == "https://";
  }

  lemma {:induction false} LeadingSpaceTrimmed(s: string)
    requires s != [] && !IsWhitespace(s[0]) && !IsWhitespace(s[|s| - 1])
    ensures Trim([' '] + s) == s
    ensures !IsPrefix("http://", [' '] + s) && !IsPrefix("https://", [' '] + s)
  {
    assert ([' '] + s)[1..] == s;
    TrimKeepsClean(s);
    assert "http://"[0] != ([' '] + s)[0];
    assert "https://"[0] != ([' '] + s)[0];
  }

  // ---------------------------------------------------------------------
  // Positional constraints
  // ---------------------------------------------------------------------

  /** precedesAny and followsAny report one error exactly when there is no
      neighbour on their side or it matches none of the identities. */
  lemma {:induction false} NeighbourChecks(mode: KeyComparison, meta: seq<MetaItem>, idx: nat, rule: MetaRule)
    requires idx < |meta|
    ensures PrecedesIssues(mode, meta, idx, rule) != [] <==>
      rule.precedesAny.Some? && (idx + 1 == |meta| || !AnyMatches(mode, rule.precedesAny.value, meta[idx + 1]))
    ensures FollowsIssues(mode, meta, idx, rule) != [] <==>
      rule.followsAny.Some? && (idx == 0 || !AnyMatches(mode, rule.followsAny.value, meta[idx - 1]))
    ensures |PrecedesIssues(mode, meta, idx, rule)| <= 1 && |FollowsIssues(mode, meta, idx, rule)| <= 1
    ensures PrecedesIssues(mode, meta, idx, rule) != [] ==>
      PrecedesIssues(mode, meta, idx, rule) == [Issue(Error, PrecedesMessage(rule.precedesAny.value), rule, Some(meta[idx]))]
    ensures FollowsIssues(mode, meta, idx, rule) != [] ==>
      FollowsIssues(mode, meta, idx, rule) == [Issue(Error, FollowsMessage(rule.followsAny.value), rule, Some(meta[idx]))]
  {
  }

  /** A listed identity set that is present but empty (`[]` is truthy) can
      never be satisfied. */
  lemma {:induction false} EmptyNeighbourListAlwaysFails(mode: KeyComparison, meta: seq<MetaItem>, idx: nat, rule: MetaRule)
    requires idx < |meta| && rule.precedesAny == Some([]) && rule.followsAny == Some([])
    ensures |PrecedesIssues(mode, meta, idx, rule)| == 1 && |FollowsIssues(mode, meta, idx, rule)| == 1
  {
  }

  /** The violators are exactly the given records that match an identity,
      in their original order. */
  lemma {:induction false} ViolatorsExact(mode: KeyComparison, items: seq<MetaItem>, ids: seq<Ident>)
    ensures forall v :: v in Violators(mode, items, ids) <==> v in items && AnyMatches(mode, ids, v)
    ensures |Violators(mode, items, ids)| <= |items|
    decreases |items|
  {
    if items != [] {
      ViolatorsExact(mode, items[..|items| - 1], ids);
      assert items == items[..|items| - 1] + [items[|items| - 1]];
    }
  }

  lemma {:induction false} ViolatorsAppend(mode: KeyComparison, a: seq<MetaItem>, b: seq<MetaItem>, ids: seq<Ident>)
    ensures Violators(mode, a + b, ids) == Violators(mode, a, ids) + Violators(mode, b, ids)
    decreases |b|
  {
    if b == [] {
      assert a + b == a;
    } else {
      var b', last := b[..|b| - 1], b[|b| - 1];
      assert (a + b)[..|a + b| - 1] == a + b';
      assert (a + b)[|a + b| - 1] == last;
      ViolatorsAppend(mode, a, b', ids);
      var p := if AnyMatches(mode, ids, last) then [last] else [];
      assert Violators(mode, a + b, ids) == Violators(mode, a + b', ids) + p;
      AppendAssoc(Violators(mode, a, ids), Violators(mode, b', ids), p);
    }
  }

  /** One error per violator, in violator order, naming that violator. */
  lemma {:induction false} OrderIssuesExact(violators: seq<MetaItem>, position: string, rule: MetaRule, item: MetaItem)
    ensures |OrderIssues(violators, position, rule, item)| == |violators|
    ensures forall k :: 0 <= k < |violators| ==>
      OrderIssues(violators, position, rule, item)[k]
        == Issue(Error, "Element must not occur " + position + " " + ViolatorText(violators[k]), rule, Some(item))
    decreases |violators|
  {
    if violators != [] {
      OrderIssuesExact(violators[..|violators| - 1], position, rule, item);
    }
  }

  /** beforeAll reports every earlier record that matches a listed identity,
      afterAll every later one. */
  lemma {:induction false} AllChecksCount(mode: KeyComparison, meta: seq<MetaItem>, idx: nat, rule: MetaRule)
    requires idx < |meta|
    ensures rule.beforeAll.Some? ==>
      |BeforeAllIssues(mode, meta, idx, rule)| == |Violators(mode, meta[..idx], rule.beforeAll.value)|
    ensures rule.afterAll.Some? ==>
      |AfterAllIssues(mode, meta, idx, rule)| == |Violators(mode, meta[idx + 1..], rule.afterAll.value)|
    ensures rule.beforeAll.Some? ==> forall v :: v in Violators(mode, meta[..idx], rule.beforeAll.value) <==>
      v in meta[..idx] && AnyMatches(mode, rule.beforeAll.value, v)
    ensures rule.afterAll.Some? ==> forall v :: v in Violators(mode, meta[idx + 1..], rule.afterAll.value) <==>
      v in meta[idx + 1..] && AnyMatches(mode, rule.afterAll.value, v)
  {
    if rule.beforeAll.Some? {
      OrderIssuesExact(Violators(mode, meta[..idx], rule.beforeAll.value), "after", rule, meta[idx]);
      ViolatorsExact(mode, meta[..idx], rule.beforeAll.value);
    }
    if rule.afterAll.Some? {
      OrderIssuesExact(Violators(mode, meta[idx + 1..], rule.afterAll.value), "before", rule, meta[idx]);
      ViolatorsExact(mode, meta[idx + 1..], rule.afterAll.value);
    }
  }

  /** As written, an identity without a key matches no record: a list of
      such identities never yields a violator and never satisfies a
      neighbour check. */
  lemma {:induction false} KeylessIdentsNeverMatch(items: seq<MetaItem>, ids: seq<Ident>, item: MetaItem)
    requires forall i :: 0 <= i < |ids| ==> ids[i].key.None?
    ensures !AnyMatches(KeyAlways, ids, item)
    ensures Violators(KeyAlways, items, ids) == []
    decreases |items|
  {
    if items != [] {
      KeylessIdentsNeverMatch(items[..|items| - 1], ids, items[|items| - 1]);
    }
  }

  /** With keyless identities matching by tag, a keyless identity catches
      every record of its tag. */
  lemma {:induction false} KeylessIdentsByTag(items: seq<MetaItem>, tag: string)
    ensures forall v :: v in Violators(KeyIfGiven, items, [Ident(tag, None)]) <==> v in items && v.tag == tag
  {
    ViolatorsExact(KeyIfGiven, items, [Ident(tag, None)]);
    forall v | v in items && v.tag == tag
      ensures AnyMatches(KeyIfGiven, [Ident(tag, None)], v)
    {
      assert IdentMatches(KeyIfGiven, [Ident(tag, None)][0], v);
    }
  }

  // ---------------------------------------------------------------------
  // The whole report
  // ---------------------------------------------------------------------

  /** A rule without a key is compared with `undefined` and matches no record. */
  lemma {:induction false} KeylessRuleNeverMatches(mode: KeyComparison, meta: seq<MetaItem>, idx: nat, rule: MetaRule)
    requires idx < |meta| && rule.key.None?
    ensures PairIssues(mode, meta, idx, rule) == []
    ensures !Found(meta, rule)
  {
  }

  /** Every issue in the list is about the rule and the record. */
  ghost predicate About(issues: seq<MetaIssue>, rule: MetaRule, item: MetaItem) {
    forall x :: x in issues ==> x.rule == rule && x.meta == Some(item)
  }

  lemma {:induction false} AboutAppend(a: seq<MetaIssue>, b: seq<MetaIssue>, rule: MetaRule, item: MetaItem)
    requires About(a, rule, item) && About(b, rule, item)
    ensures About(a + b, rule, item)
  {
  }

  /** Each check of a matching pair reports only about that pair. */
  lemma {:induction false} PairChecksAbout(mode: KeyComparison, meta: seq<MetaItem>, idx: nat, rule: MetaRule)
    requires idx < |meta|
    ensures About(LengthIssues(rule, meta[idx]), rule, meta[idx])
    ensures About(PatternIssues(rule, meta[idx]), rule, meta[idx])
    ensures About(PrecedesIssues(mode, meta, idx, rule), rule, meta[idx])
    ensures About(FollowsIssues(mode, meta, idx, rule), rule, meta[idx])
    ensures About(BeforeAllIssues(mode, meta, idx, rule), rule, meta[idx])
    ensures About(AfterAllIssues(mode, meta, idx, rule), rule, meta[idx])
    ensures About(TestIssues(meta, idx, rule), rule, meta[idx])
  {
    LengthIssuesShape(rule, meta[idx]);
    PatternAbout(rule, meta[idx]);
    NeighbourAbout(mode, meta, idx, rule);
    if rule.beforeAll.Some? {
      OrderAbout(Violators(mode, meta[..idx], rule.beforeAll.value), "after", rule, meta[idx]);
    }
    if rule.afterAll.Some? {
      OrderAbout(Violators(mode, meta[idx + 1..], rule.afterAll.value), "before", rule, meta[idx]);
    }
    TestAbout(meta, idx, rule);
  }

  lemma {:induction false} PatternAbout(rule: MetaRule, item: MetaItem)
    ensures About(PatternIssues(rule, item), rule, item)
  {
  }

  lemma {:induction false} NeighbourAbout(mode: KeyComparison, meta: seq<MetaItem>, idx: nat, rule: MetaRule)
    requires idx < |meta|
    ensures About(PrecedesIssues(mode, meta, idx, rule), rule, meta[idx])
    ensures About(FollowsIssues(mode, meta, idx, rule), rule, meta[idx])
  {
  }

  lemma {:induction false} OrderAbout(violators: seq<MetaItem>, position: string, rule: MetaRule, item: MetaItem)
    ensures About(OrderIssues(violators, position, rule, item), rule, item)
  {
    OrderIssuesExact(violators, position, rule, item);
  }

  lemma {:induction false} TestAbout(meta: seq<MetaItem>, idx: nat, rule: MetaRule)
    requires idx < |meta|
    ensures About(TestIssues(meta, idx, rule), rule, meta[idx])
  {
  }

  /** Every issue of a pair points at the rule and the record, which match. */
  lemma {:induction false} PairIssuesShape(mode: KeyComparison, meta: seq<MetaItem>, idx: nat, rule: MetaRule)
    requires idx < |meta|
    ensures About(PairIssues(mode, meta, idx, rule), rule, meta[idx])
    ensures PairIssues(mode, meta, idx, rule) != [] ==> RuleMatches(rule, meta[idx])
  {
    var item := meta[idx];
    if RuleMatches(rule, item) {
      PairChecksAbout(mode, meta, idx, rule);
      var l, p := LengthIssues(rule, item), PatternIssues(rule, item);
      var pr, f := PrecedesIssues(mode, meta, idx, rule), FollowsIssues(mode, meta, idx, rule);
      var b, a := BeforeAllIssues(mode, meta, idx, rule), AfterAllIssues(mode, meta, idx, rule);
      var t := TestIssues(meta, idx, rule);
      AboutAppend(l, p, rule, item);
      AboutAppend(l + p, pr, rule, item);
      AboutAppend(l + p + pr, f, rule, item);
      AboutAppend(l + p + pr + f, b, rule, item);
      AboutAppend(l + p + pr + f + b, a, rule, item);
      AboutAppend(l + p + pr + f + b + a, t, rule, item);
    }
  }

  lemma {:induction false} RecordIssuesShape(mode: KeyComparison, meta: seq<MetaItem>, idx: nat, rules: seq<MetaRule>)
    requires idx < |meta|
    ensures forall x :: x in RecordIssues(mode, meta, idx, rules) ==>
      x.rule in rules && x.meta == Some(meta[idx]) && RuleMatches(x.rule, meta[idx])
    decreases |rules|
  {
    if rules != [] {
      RecordIssuesShape(mode, meta, idx, rules[..|rules| - 1]);
      PairIssuesShape(mode, meta, idx, rules[|rules| - 1]);
      assert rules == rules[..|rules| - 1] + [rules[|rules| - 1]];
    }
  }

  /** The per-record part of the report only holds issues of matching
      (record, rule) pairs. */
  lemma {:induction false} PerRecordIssuesShape(mode: KeyComparison, meta: seq<MetaItem>, rules: seq<MetaRule>, n: nat)
    requires n <= |meta|
    ensures forall x :: x in PerRecordIssues(mode, meta, rules, n) ==>
      x.meta.Some? && x.meta.value in meta[..n] && x.rule in rules && RuleMatches(x.rule, x.meta.value)
  {
    if n > 0 {
      PerRecordIssuesShape(mode, meta, rules, n - 1);
      RecordIssuesShape(mode, meta, n - 1, rules);
      assert meta[..n] == meta[..n - 1] + [meta[n - 1]];
    }
  }

  /** The issues of a record come rule by rule, in rule order. */
  lemma {:induction false} RecordIssuesAppend(mode: KeyComparison, meta: seq<MetaItem>, idx: nat, a: seq<MetaRule>, b: seq<MetaRule>)
    requires idx < |meta|
    ensures RecordIssues(mode, meta, idx, a + b) == RecordIssues(mode, meta, idx, a) + RecordIssues(mode, meta, idx, b)
    decreases |b|
  {
    if b == [] {
      assert a + b == a;
    } else {
      var b', last := b[..|b| - 1], b[|b| - 1];
      assert (a + b)[..|a + b| - 1] == a + b';
      assert (a + b)[|a + b| - 1] == last;
      RecordIssuesAppend(mode, meta, idx, a, b');
      var p := PairIssues(mode, meta, idx, last);
      assert RecordIssues(mode, meta, idx, a + b) == RecordIssues(mode, meta, idx, a + b') + p;
      AppendAssoc(RecordIssues(mode, meta, idx, a), RecordIssues(mode, meta, idx, b'), p);
    }
  }

  /** The report follows record order: the issues of the first `m` records
      come before those of any later record. */
  lemma {:induction false} PerRecordPrefix(mode: KeyComparison, meta: seq<MetaItem>, rules: seq<MetaRule>, m: nat, n: nat)
    requires m <= n <= |meta|
    ensures PerRecordIssues(mode, meta, rules, m) <= PerRecordIssues(mode, meta, rules, n)
    decreases n - m
  {
    if m < n {
      PerRecordPrefix(mode, meta, rules, m, n - 1);
      assert PerRecordIssues(mode, meta, rules, n)
        == PerRecordIssues(mode, meta, rules, n - 1) + RecordIssues(mode, meta, n - 1, rules);
    }
  }

  /** The final pass reports exactly the required rules no record matches,
      each once, as "Element is missing" without a record. */
  lemma {:induction false} MissingIssuesExact(meta: seq<MetaItem>, rules: seq<MetaRule>)
    ensures forall x :: x in MissingIssues(meta, rules) ==>
      x == Issue(Error, MissingElement, x.rule, None) && x.rule in rules && x.rule.required && !Found(meta, x.rule)
    ensures forall k :: 0 <= k < |rules| && rules[k].required && !Found(meta, rules[k]) ==>
      Issue(Error, MissingElement, rules[k], None) in MissingIssues(meta, rules)
    ensures |MissingIssues(meta, rules)| <= |rules|
    decreases |rules|
  {
    if rules != [] {
      var init := rules[..|rules| - 1];
      MissingIssuesExact(meta, init);
      assert rules == init + [rules[|rules| - 1]];
      forall k | 0 <= k < |rules| && rules[k].required && !Found(meta, rules[k])
        ensures Issue(Error, MissingElement, rules[k], None) in MissingIssues(meta, rules)
      {
        if k < |init| {
          assert rules[k] == init[k];
        }
      }
    }
  }

  /** The missing issues come in rule order. */
  lemma {:induction false} MissingIssuesAppend(meta: seq<MetaItem>, a: seq<MetaRule>, b: seq<MetaRule>)
    ensures MissingIssues(meta, a + b) == MissingIssues(meta, a) + MissingIssues(meta, b)
    decreases |b|
  {
    if b == [] {
      assert a + b == a;
    } else {
      var b', last := b[..|b| - 1], b[|b| - 1];
      assert (a + b)[..|a + b| - 1] == a + b';
      assert (a + b)[|a + b| - 1] == last;
      MissingIssuesAppend(meta, a, b');
      var p := if last.required && !Found(meta, last) then [Issue(Error, MissingElement, last, None)] else [];
      assert MissingIssues(meta, a + b) == MissingIssues(meta, a + b') + p;
      AppendAssoc(MissingIssues(meta, a), MissingIssues(meta, b'), p);
    }
  }

  /** Every issue that points at a record comes before every issue of a
      missing record; the per-record issues are those of matching pairs. */
  lemma {:induction false} MissingComeLast(mode: KeyComparison, meta: seq<MetaItem>, rules: seq<MetaRule>)
    ensures forall a, b :: 0 <= a < b < |MetaIssuesWith(mode, meta, rules)| && MetaIssuesWith(mode, meta, rules)[a].meta.None? ==>
      MetaIssuesWith(mode, meta, rules)[b].meta.None?
  {
    var p := PerRecordIssues(mode, meta, rules, |meta|);
    var q := MissingIssues(meta, rules);
    assert forall x :: x in p ==> x.meta.Some? by {
      PerRecordIssuesShape(mode, meta, rules, |meta|);
    }
    assert forall x :: x in q ==> x.meta.None? by {
      MissingIssuesExact(meta, rules);
    }
    PointedBeforeMissing(p, q);
  }

  /** Each issue of the report is either about a matching (record, rule)
      pair or reports a required rule that no record matches. */
  lemma {:induction false} ReportEntries(mode: KeyComparison, meta: seq<MetaItem>, rules: seq<MetaRule>)
    ensures forall x :: x in MetaIssuesWith(mode, meta, rules) ==>
      (x.meta.Some? && x.meta.value in meta && x.rule in rules && RuleMatches(x.rule, x.meta.value))
      || (x.meta.None? && x.message == MissingElement && x.rule in rules && x.rule.required && !Found(meta, x.rule))
  {
    PerRecordIssuesShape(mode, meta, rules, |meta|);
    MissingIssuesExact(meta, rules);
    assert meta[..|meta|] == meta;
  }

  /** A record's issues come from the one rule that matches it, if only
      one does; without a matching rule the record gets no issue. */
  lemma {:induction false} RecordIssuesOfMatchingRule(mode: KeyComparison, meta: seq<MetaItem>, idx: nat, rules: seq<MetaRule>, k: nat)
    requires idx < |meta|
    requires forall j :: 0 <= j < |rules| && j != k ==> !RuleMatches(rules[j], meta[idx])
    ensures k < |rules| ==> RecordIssues(mode, meta, idx, rules) == PairIssues(mode, meta, idx, rules[k])
    ensures k >= |rules| ==> RecordIssues(mode, meta, idx, rules) == []
    decreases |rules|
  {
    if rules != [] {
      var init := rules[..|rules| - 1];
      var last := |rules| - 1;
      var k' := if k < last then k else |rules|;
      forall j | 0 <= j < |init| && j != k'
        ensures !RuleMatches(init[j], meta[idx])
      {
        assert init[j] == rules[j];
      }
      RecordIssuesOfMatchingRule(mode, meta, idx, init, k');
      assert RecordIssues(mode, meta, idx, rules) == RecordIssues(mode, meta, idx, init) + PairIssues(mode, meta, idx, rules[last]);
      if k < last {
        assert init[k] == rules[k];
        assert PairIssues(mode, meta, idx, rules[last]) == [];
      } else if k != last {
        assert PairIssues(mode, meta, idx, rules[last]) == [];
      }
    }
  }

  /** A rule set without required rules never reports a missing element. */
  lemma {:induction false} OptionalRulesNeverMissing(meta: seq<MetaItem>, rules: seq<MetaRule>)
    requires forall j :: 0 <= j < |rules| ==> !rules[j].required
    ensures MissingIssues(meta, rules) == []
    decreases |rules|
  {
    if rules != [] {
      OptionalRulesNeverMissing(meta, rules[..|rules| - 1]);
    }
  }

  /** Without records the report is exactly the missing-required pass;
      without rules it is empty. */
  lemma {:induction false} Degenerate(meta: seq<MetaItem>, rules: seq<MetaRule>)
    ensures MetaIssues([], rules) == MissingIssues([], rules)
    ensures MetaIssues(meta, []) == []
  {
    NoRulesNoRecordIssues(meta, |meta|);
  }

  lemma {:induction false} NoRulesNoRecordIssues(meta: seq<MetaItem>, n: nat)
    requires n <= |meta|
    ensures PerRecordIssues(KeyAlways, meta, [], n) == []
  {
    if n > 0 {
      NoRulesNoRecordIssues(meta, n - 1);
    }
  }
}
