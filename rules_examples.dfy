/** The scenarios of the validator's test file, evaluated on the model. */
module MetaRuleExamples {
  import opened Wrappers
  import opened JsString
  import opened MetaTypes
  import opened Reports
  import opened MetaRules
  import opened MetaRuleFacts

  /** A record without link or extra attributes, as the tests write them. */
  function Record(idx: nat, tag: string, key: string, value: string): MetaItem {
    MetaItem(idx, tag, key, value, None, [])
  }

  /** The report of a single record checked by a single optional rule. */
  lemma {:induction false} SingleRecordReport(mode: KeyComparison, item: MetaItem, rule: MetaRule)
    requires !rule.required
    ensures MetaIssuesWith(mode, [item], [rule]) == PairIssues(mode, [item], 0, rule)
  {
    RecordIssuesOfMatchingRule(mode, [item], 0, [rule], 0);
    OptionalRulesNeverMissing([item], [rule]);
    assert PerRecordIssues(mode, [item], [rule], 1) == PerRecordIssues(mode, [item], [rule], 0) + RecordIssues(mode, [item], 0, [rule]);
  }

  /** A blank title is reported only as "Value is empty" (rules.test.ts 7-33). */
  lemma {:induction false} BlankValueIsEmpty()
    ensures MetaIssues([BlankTitle], [TitleMinOne]) == [Issue(Error, EmptyValue, TitleMinOne, Some(BlankTitle))]
  {
    BlankTitleTrimsToEmpty();
    EmptyValueReport(BlankTitle, TitleMinOne);
  }

  const BlankTitle := Record(0, "title", "title", "     ")
  const TitleMinOne := Rule("title", "title").(min := Some(1))

  lemma {:induction false} BlankTitleTrimsToEmpty()
    ensures |Trim(BlankTitle.value)| == 0
  {
    TrimEmptyIff(BlankTitle.value);
  }

  /** A single record whose value trims to nothing, checked by a single
      optional rule without pattern, positional constraints or test, is
      reported only as empty. */
  lemma {:induction false} EmptyValueReport(item: MetaItem, rule: MetaRule)
    requires !rule.required && RuleMatches(rule, item) && rule.pattern.None?
    requires rule.precedesAny.None? && rule.followsAny.None? && rule.beforeAll.None? && rule.afterAll.None? && rule.test.None?
    requires |Trim(item.value)| == 0
    ensures MetaIssues([item], [rule]) == [Issue(Error, EmptyValue, rule, Some(item))]
  {
    ValueOnlyReport(item, rule);
    BlankValueLength(item, rule);
  }

  /** A value that trims to nothing fails on length alone. */
  lemma {:induction false} BlankValueLength(item: MetaItem, rule: MetaRule)
    requires |Trim(item.value)| == 0
    ensures LengthIssues(rule, item) == [Issue(Error, EmptyValue, rule, Some(item))]
  {
  }

  /** A single record checked by a single optional rule with neither
      positional constraints nor a test: only its value is checked. */
  lemma {:induction false} ValueOnlyReport(item: MetaItem, rule: MetaRule)
    requires !rule.required && RuleMatches(rule, item)
    requires rule.precedesAny.None? && rule.followsAny.None? && rule.beforeAll.None? && rule.afterAll.None? && rule.test.None?
    ensures MetaIssues([item], [rule]) == LengthIssues(rule, item) + PatternIssues(rule, item)
  {
    SingleRecordReport(KeyAlways, item, rule);
  }

  /** A record for which no rule matches contributes nothing. */
  lemma {:induction false} UnmatchedRecord(mode: KeyComparison, meta: seq<MetaItem>, idx: nat, rules: seq<MetaRule>)
    requires idx < |meta|
    requires forall j :: 0 <= j < |rules| ==> !RuleMatches(rules[j], meta[idx])
    ensures RecordIssues(mode, meta, idx, rules) == []
  {
    RecordIssuesOfMatchingRule(mode, meta, idx, rules, |rules|);
  }

  /** A value that is blank only because of an empty string is reported as
      empty (rules.test.ts 98-124). */
  lemma {:induction false} EmptyValueIsEmpty()
    ensures MetaIssues([Record(0, "title", "title", "")], [Rule("title", "title").(min := Some(1))])
      == [Issue(Error, EmptyValue, Rule("title", "title").(min := Some(1)), Some(Record(0, "title", "title", "")))]
  {
    SingleRecordReport(KeyAlways, Record(0, "title", "title", ""), Rule("title", "title").(min := Some(1)));
  }

  /** The custom test receives the record, the list and the index
      (rules.test.ts 35-60). */
  const ArgumentsCheck: TestFn := (item: MetaItem, meta: seq<MetaItem>, index: nat) =>
    if index < |meta| && item == meta[index] then Pass else Problem(Error, "arguments are not passed correctly")

  lemma {:induction false} TestCalledWithItsRecord()
    ensures MetaIssues([FooBarArgs], [ArgumentsRule]) == []
  {
    FooBarArgsIsClean();
    TestOnlyReport(FooBarArgs, ArgumentsRule, ArgumentsCheck);
    assert ArgumentsCheck(FooBarArgs, [FooBarArgs], 0) == Pass;
  }

  const FooBarArgs := Record(0, "meta", "foobar", "FooBar")
  const ArgumentsRule := Rule("meta", "foobar").(test := Some(ArgumentsCheck))

  lemma {:induction false} FooBarArgsIsClean()
    ensures |FooBarArgs.value| == 6 && !IsWhitespace(FooBarArgs.value[0]) && !IsWhitespace(FooBarArgs.value[5])
  {
  }

  /** A required title without a title record is reported once, without a
      record (rules.test.ts 62-96). */
  lemma {:induction false} MissingTitleReported()
    ensures MetaIssues([Record(0, "meta", "some", ""), Record(1, "meta", "data", "")], [Rule("title", "title").(required := true)])
      == [Issue(Error, MissingElement, Rule("title", "title").(required := true), None)]
  {
    var meta := [Record(0, "meta", "some", ""), Record(1, "meta", "data", "")];
    var rules := [Rule("title", "title").(required := true)];
    UnmatchedRecord(KeyAlways, meta, 0, rules);
    UnmatchedRecord(KeyAlways, meta, 1, rules);
    assert PerRecordIssues(KeyAlways, meta, rules, 1) == PerRecordIssues(KeyAlways, meta, rules, 0) + [];
    assert PerRecordIssues(KeyAlways, meta, rules, 2) == PerRecordIssues(KeyAlways, meta, rules, 1) + [];
    assert !Found(meta, rules[0]);
    assert MissingIssues(meta, rules) == MissingIssues(meta, []) + [Issue(Error, MissingElement, rules[0], None)];
  }

  /** "Cool stuff" is 10 characters, below a minimum of 30 (rules.test.ts
      126-152). */
  lemma {:induction false} MinimumNotReachedMessage()
    ensures MetaIssues([CoolStuff], [MinThirty]) == [Issue(Error, "10 / 30 - minimum length not reached", MinThirty, Some(CoolStuff))]
  {
    CoolStuffIsClean();
    MinimumMessageText();
    LengthProblemReport(CoolStuff, MinThirty, "10 / 30 - minimum length not reached");
  }

  lemma {:induction false} CoolStuffIsClean()
    ensures |CoolStuff.value| == 10 && !IsWhitespace(CoolStuff.value[0]) && !IsWhitespace(CoolStuff.value[9])
  {
  }

  /** A single clean record checked by a single optional rule that only
      bounds the length reports exactly the length problem. */
  lemma {:induction false} LengthProblemReport(item: MetaItem, rule: MetaRule, message: string)
    requires !rule.required && RuleMatches(rule, item)
    requires rule.pattern.None? && rule.precedesAny.None? && rule.followsAny.None? && rule.beforeAll.None? && rule.afterAll.None? && rule.test.None?
    requires item.value != [] && !IsWhitespace(item.value[0]) && !IsWhitespace(item.value[|item.value| - 1])
    requires LengthOutcome(|item.value|, rule.min, rule.max) == Problem(Error, message)
    ensures MetaIssues([item], [rule]) == [Issue(Error, message, rule, Some(item))]
  {
    ValueOnlyReport(item, rule);
    CleanValueLength(item, rule);
  }

  const CoolStuff := Record(0, "title", "title", "Cool stuff")
  const MinThirty := Rule("title", "title").(min := Some(30))

  /** Without surrounding whitespace the whole value is measured. */
  lemma {:induction false} CleanValueLength(item: MetaItem, rule: MetaRule)
    requires item.value != [] && !IsWhitespace(item.value[0]) && !IsWhitespace(item.value[|item.value| - 1])
    ensures LengthIssues(rule, item) == Raise(LengthOutcome(|item.value|, rule.min, rule.max), rule, item)
  {
    TrimKeepsClean(item.value);
  }

  lemma {:induction false} TwoDigits(n: nat)
    requires 10 <= n < 100
    ensures NatToString(n) == [DigitChar(n / 10), DigitChar(n % 10)]
  {
  }

  lemma {:induction false} MinimumMessageText()
    ensures LengthMessage(10, 30, MinNotReached) == "10 / 30 - minimum length not reached"
  {
    assert NatToString(10) == "10" by { TwoDigits(10); }
    assert NatToString(30) == "30" by { TwoDigits(30); }
    MinimumWording();
  }

  lemma MinimumWording()
    ensures "10" + " / " + "30" + MinNotReached == "10 / 30 - minimum length not reached"
  {
  }

  lemma {:induction false} MaximumMessageText()
    ensures LengthMessage(65, 60, MaxExceeded) == "65 / 60 - maximum length exceeded"
  {
    assert NatToString(65) == "65" by { TwoDigits(65); }
    assert NatToString(60) == "60" by { TwoDigits(60); }
    MaximumWording();
  }

  lemma MaximumWording()
    ensures "65" + " / " + "60" + MaxExceeded == "65 / 60 - maximum length exceeded"
  {
  }


  /** A 65-character title without surrounding whitespace, like the one of
      rules.test.ts 154-180, exceeds a maximum of 60. */
  lemma {:induction false} MaximumExceededMessage(item: MetaItem, rule: MetaRule)
    requires item.tag == "title" && item.key == "title"
    requires |item.value| == 65 && !IsWhitespace(item.value[0]) && !IsWhitespace(item.value[64])
    requires rule == Rule("title", "title").(max := Some(60))
    ensures MetaIssues([item], [rule]) == [Issue(Error, "65 / 60 - maximum length exceeded", rule, Some(item))]
  {
    MaximumMessageText();
    LengthProblemReport(item, rule, "65 / 60 - maximum length exceeded");
  }

  /** `/^utf-8$/i` */
  const ExactUtf8 := Pattern(Custom(v => EqualsIgnoreCase(v, "utf-8")), "Pattern does not match")

  /** A charset of "ansi" fails an exact utf-8 pattern (rules.test.ts 182-208). */
  lemma {:induction false} PatternMismatchReported(item: MetaItem, rule: MetaRule)
    requires item.tag == "meta" && item.key == "charset" && item.value == "ansi"
    requires rule == Rule("meta", "charset").(pattern := Some(ExactUtf8))
    ensures MetaIssues([item], [rule]) == [Issue(Error, "Pattern does not match", rule, Some(item))]
  {
    assert item.value[0] == 'a' && item.value[3] == 'i';
    PatternOnlyReport(item, rule);
    AnsiIsNotUtf8();
  }

  /** A single clean record checked by a single optional rule that only
      carries a pattern reports exactly the pattern's verdict. */
  lemma {:induction false} PatternOnlyReport(item: MetaItem, rule: MetaRule)
    requires !rule.required && RuleMatches(rule, item)
    requires rule.min.None? && rule.max.None? && rule.test.None?
    requires rule.precedesAny.None? && rule.followsAny.None? && rule.beforeAll.None? && rule.afterAll.None?
    requires item.value != [] && !IsWhitespace(item.value[0]) && !IsWhitespace(item.value[|item.value| - 1])
    ensures MetaIssues([item], [rule]) == PatternIssues(rule, item)
  {
    ValueOnlyReport(item, rule);
    CleanValuePasses(item, rule);
  }

  lemma {:induction false} AnsiIsNotUtf8()
    ensures !RegexMatches(ExactUtf8.rx, "ansi")
  {
    assert !EqualsIgnoreCase("ansi", "utf-8");
  }

  /** A value without surrounding whitespace passes a rule without bounds. */
  lemma {:induction false} CleanValuePasses(item: MetaItem, rule: MetaRule)
    requires item.value != [] && !IsWhitespace(item.value[0]) && !IsWhitespace(item.value[|item.value| - 1])
    requires rule.min.None? && rule.max.None?
    ensures LengthIssues(rule, item) == []
  {
    TrimKeepsClean(item.value);
  }

  /** A test that always fails reports its own problem (rules.test.ts 376-402). */
  const AlwaysOops: TestFn := (item: MetaItem, meta: seq<MetaItem>, index: nat) => Problem(Error, "Oops")

  lemma {:induction false} TestProblemReported()
    ensures MetaIssues([FooBarRecord], [OopsRule]) == [Issue(Error, "Oops", OopsRule, Some(FooBarRecord))]
  {
    FooBarIsClean();
    TestOnlyReport(FooBarRecord, OopsRule, AlwaysOops);
  }

  const FooBarRecord := Record(0, "meta", "Bar", "FooBar")
  const OopsRule := Rule("meta", "Bar").(test := Some(AlwaysOops))

  lemma {:induction false} FooBarIsClean()
    ensures |FooBarRecord.value| == 6 && !IsWhitespace(FooBarRecord.value[0]) && !IsWhitespace(FooBarRecord.value[5])
  {
  }

  /** A single clean record checked by a single optional rule that only
      carries a custom test reports exactly what the test returns for it. */
  lemma {:induction false} TestOnlyReport(item: MetaItem, rule: MetaRule, f: TestFn)
    requires !rule.required && RuleMatches(rule, item)
    requires rule.min.None? && rule.max.None? && rule.pattern.None?
    requires rule.precedesAny.None? && rule.followsAny.None? && rule.beforeAll.None? && rule.afterAll.None? && rule.test == Some(f)
    requires item.value != [] && !IsWhitespace(item.value[0]) && !IsWhitespace(item.value[|item.value| - 1])
    ensures MetaIssues([item], [rule]) == Raise(f(item, [item], 0), rule, item)
  {
    SingleRecordReport(KeyAlways, item, rule);
    CleanValuePasses(item, rule);
  }

  /** Issues follow record order rather than rule order (rules.test.ts 404-449). */
  lemma {:induction false} IssuesFollowRecordOrder()
    ensures MetaIssues([EmptyTitle, EmptyDescription], [DescriptionMin, TitleMin])
      == [Issue(Error, EmptyValue, TitleMin, Some(EmptyTitle)), Issue(Error, EmptyValue, DescriptionMin, Some(EmptyDescription))]
  {
    TwoRecordReport(KeyAlways, [EmptyTitle, EmptyDescription], [DescriptionMin, TitleMin]);
    EmptyTitleReport();
    EmptyDescriptionReport();
    OptionalRulesNeverMissing([EmptyTitle, EmptyDescription], [DescriptionMin, TitleMin]);
  }

  const EmptyTitle := Record(0, "meta", "title", "")
  const EmptyDescription := Record(1, "meta", "description", "")
  const DescriptionMin := Rule("meta", "description").(min := Some(30))
  const TitleMin := Rule("meta", "title").(min := Some(30))

  lemma {:induction false} EmptyTitleReport()
    ensures RecordIssues(KeyAlways, [EmptyTitle, EmptyDescription], 0, [DescriptionMin, TitleMin])
      == [Issue(Error, EmptyValue, TitleMin, Some(EmptyTitle))]
  {
    RecordIssuesOfMatchingRule(KeyAlways, [EmptyTitle, EmptyDescription], 0, [DescriptionMin, TitleMin], 1);
  }

  lemma {:induction false} EmptyDescriptionReport()
    ensures RecordIssues(KeyAlways, [EmptyTitle, EmptyDescription], 1, [DescriptionMin, TitleMin])
      == [Issue(Error, EmptyValue, DescriptionMin, Some(EmptyDescription))]
  {
    RecordIssuesOfMatchingRule(KeyAlways, [EmptyTitle, EmptyDescription], 1, [DescriptionMin, TitleMin], 0);
  }

  // ---------------------------------------------------------------------
  // Positional constraints (rules.test.ts 210-374)
  // ---------------------------------------------------------------------

  /** One matching record among the given ones is the only violator. */
  lemma {:induction false} SingleViolator(mode: KeyComparison, items: seq<MetaItem>, ids: seq<Ident>, k: nat)
    requires k < |items| && AnyMatches(mode, ids, items[k])
    requires forall j :: 0 <= j < |items| && j != k ==> !AnyMatches(mode, ids, items[j])
    ensures Violators(mode, items, ids) == [items[k]]
    decreases |items|
  {
    var init := items[..|items| - 1];
    if k < |init| {
      SingleViolator(mode, init, ids, k);
    } else {
      NoViolator(mode, init, ids);
    }
  }

  lemma {:induction false} NoViolator(mode: KeyComparison, items: seq<MetaItem>, ids: seq<Ident>)
    requires forall j :: 0 <= j < |items| ==> !AnyMatches(mode, ids, items[j])
    ensures Violators(mode, items, ids) == []
    decreases |items|
  {
    if items != [] {
      NoViolator(mode, items[..|items| - 1], ids);
    }
  }

  /** A rule with only beforeAll/afterAll, on a record without surrounding
      whitespace, reports only ordering errors. */
  lemma {:induction false} OrderOnlyRule(mode: KeyComparison, meta: seq<MetaItem>, idx: nat, rule: MetaRule)
    requires idx < |meta| && RuleMatches(rule, meta[idx])
    requires meta[idx].value != [] && !IsWhitespace(meta[idx].value[0]) && !IsWhitespace(meta[idx].value[|meta[idx].value| - 1])
    requires rule.min.None? && rule.max.None? && rule.pattern.None?
    requires rule.precedesAny.None? && rule.followsAny.None? && rule.test.None?
    ensures PairIssues(mode, meta, idx, rule) == BeforeAllIssues(mode, meta, idx, rule) + AfterAllIssues(mode, meta, idx, rule)
  {
    CleanValueLength(meta[idx], rule);
  }

  /** The report over two records, record by record. */
  lemma {:induction false} TwoRecordReport(mode: KeyComparison, meta: seq<MetaItem>, rules: seq<MetaRule>)
    requires |meta| == 2
    ensures MetaIssuesWith(mode, meta, rules)
      == RecordIssues(mode, meta, 0, rules) + RecordIssues(mode, meta, 1, rules) + MissingIssues(meta, rules)
  {
    assert PerRecordIssues(mode, meta, rules, 1) == RecordIssues(mode, meta, 0, rules);
    assert PerRecordIssues(mode, meta, rules, 2) == PerRecordIssues(mode, meta, rules, 1) + RecordIssues(mode, meta, 1, rules);
  }

  /** A charset record after a title, checked by a charset rule that must
      come before every title (the first rule of rules.test.ts 210-293). */
  const TitleFirst := Record(0, "title", "title", "Title")
  const CharsetSecond := Record(1, "meta", "charset", "utf-8")
  const CharsetBeforeTitle := Rule("meta", "charset").(beforeAll := Some([Ident("title", None)]))

  /** The charset record gets exactly its ordering issues. */
  lemma {:induction false} CharsetAfterTitleReport(mode: KeyComparison)
    ensures MetaIssuesWith(mode, [TitleFirst, CharsetSecond], [CharsetBeforeTitle])
      == OrderIssues(Violators(mode, [TitleFirst], [Ident("title", None)]), "after", CharsetBeforeTitle, CharsetSecond)
  {
    TwoRecordReport(mode, [TitleFirst, CharsetSecond], [CharsetBeforeTitle]);
    TitleRecordUnchecked(mode);
    CharsetRecordMatched(mode);
    CharsetOrderOnly(mode);
    CharsetBeforeAll(mode);
    CharsetNeverMissing();
  }

  lemma {:induction false} TitleRecordUnchecked(mode: KeyComparison)
    ensures RecordIssues(mode, [TitleFirst, CharsetSecond], 0, [CharsetBeforeTitle]) == []
  {
    UnmatchedRecord(mode, [TitleFirst, CharsetSecond], 0, [CharsetBeforeTitle]);
  }

  lemma {:induction false} CharsetNeverMissing()
    ensures MissingIssues([TitleFirst, CharsetSecond], [CharsetBeforeTitle]) == []
  {
    OptionalRulesNeverMissing([TitleFirst, CharsetSecond], [CharsetBeforeTitle]);
  }

  lemma {:induction false} CharsetBeforeAll(mode: KeyComparison)
    ensures BeforeAllIssues(mode, [TitleFirst, CharsetSecond], 1, CharsetBeforeTitle)
      == OrderIssues(Violators(mode, [TitleFirst], [Ident("title", None)]), "after", CharsetBeforeTitle, CharsetSecond)
  {
    assert [TitleFirst, CharsetSecond][..1] == [TitleFirst];
  }

  lemma {:induction false} CharsetRecordMatched(mode: KeyComparison)
    ensures RecordIssues(mode, [TitleFirst, CharsetSecond], 1, [CharsetBeforeTitle])
      == PairIssues(mode, [TitleFirst, CharsetSecond], 1, CharsetBeforeTitle)
  {
    RecordIssuesOfMatchingRule(mode, [TitleFirst, CharsetSecond], 1, [CharsetBeforeTitle], 0);
  }

  lemma {:induction false} CharsetOrderOnly(mode: KeyComparison)
    ensures PairIssues(mode, [TitleFirst, CharsetSecond], 1, CharsetBeforeTitle)
      == BeforeAllIssues(mode, [TitleFirst, CharsetSecond], 1, CharsetBeforeTitle)
  {
    OrderOnlyRule(mode, [TitleFirst, CharsetSecond], 1, CharsetBeforeTitle);
  }

  /** As written, the tag-only identity never matches the title, so the
      misplaced charset goes unreported. */
  lemma {:induction false} TagOnlyOrderAsWritten()
    ensures MetaIssues([TitleFirst, CharsetSecond], [CharsetBeforeTitle]) == []
  {
    CharsetAfterTitleReport(KeyAlways);
    KeylessIdentsNeverMatch([TitleFirst], [Ident("title", None)], TitleFirst);
  }

  /** With the tag-only identity matching by tag, the misplaced charset is
      reported as the test expects. */
  lemma {:induction false} TagOnlyOrderIntended()
    ensures IntendedMetaIssues([TitleFirst, CharsetSecond], [CharsetBeforeTitle])
      == [Issue(Error, "Element must not occur after title", CharsetBeforeTitle, Some(CharsetSecond))]
  {
    CharsetAfterTitleReport(KeyIfGiven);
    TitleViolates();
    TitleViolation();
  }

  lemma {:induction false} TitleViolates()
    ensures Violators(KeyIfGiven, [TitleFirst], [Ident("title", None)]) == [TitleFirst]
  {
    assert IdentMatches(KeyIfGiven, [Ident("title", None)][0], TitleFirst);
    SingleViolator(KeyIfGiven, [TitleFirst], [Ident("title", None)], 0);
  }

  lemma {:induction false} TitleViolation()
    ensures OrderIssues([TitleFirst], "after", CharsetBeforeTitle, CharsetSecond)
      == [Issue(Error, "Element must not occur after title", CharsetBeforeTitle, Some(CharsetSecond))]
  {
    var vs := [TitleFirst];
    assert vs[..0] == [] && vs[0] == TitleFirst;
    assert ViolatorText(TitleFirst) == "title";
    AfterTitleWording();
    assert OrderIssues(vs, "after", CharsetBeforeTitle, CharsetSecond)
      == OrderIssues(vs[..0], "after", CharsetBeforeTitle, CharsetSecond)
         + [Issue(Error, "Element must not occur " + "after" + " " + ViolatorText(vs[0]), CharsetBeforeTitle, Some(CharsetSecond))];
  }

  lemma AfterTitleWording()
    ensures "Element must not occur " + "after" + " " + "title" == "Element must not occur after title"
  {
  }
}
