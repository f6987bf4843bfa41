/** The two ordering scenarios of the validator's test file: general order
    (`beforeAll`/`afterAll` with tag-only identities) and block order
    (`precedesAny`/`followsAny` with full identities). */
module MetaRuleOrderExamples {
  import opened Wrappers
  import opened JsString
  import opened MetaTypes
  import opened Reports
  import opened MetaRules
  import opened MetaRuleFacts
  import MetaRuleExamples

  /** The report over four records, record by record. */
  lemma {:induction false} FourRecordReport(mode: KeyComparison, meta: seq<MetaItem>, rules: seq<MetaRule>)
    requires |meta| == 4
    ensures MetaIssuesWith(mode, meta, rules)
      == RecordIssues(mode, meta, 0, rules) + RecordIssues(mode, meta, 1, rules)
         + RecordIssues(mode, meta, 2, rules) + RecordIssues(mode, meta, 3, rules) + MissingIssues(meta, rules)
  {
    assert PerRecordIssues(mode, meta, rules, 1) == RecordIssues(mode, meta, 0, rules);
    assert PerRecordIssues(mode, meta, rules, 2) == PerRecordIssues(mode, meta, rules, 1) + RecordIssues(mode, meta, 1, rules);
    assert PerRecordIssues(mode, meta, rules, 3) == PerRecordIssues(mode, meta, rules, 2) + RecordIssues(mode, meta, 2, rules);
    assert PerRecordIssues(mode, meta, rules, 4) == PerRecordIssues(mode, meta, rules, 3) + RecordIssues(mode, meta, 3, rules);
  }

  /** Four records whose issues are known, under optional rules, give
      those issues in record order. */
  lemma {:induction false} FourRecordsAre(mode: KeyComparison, meta: seq<MetaItem>, rules: seq<MetaRule>,
                                          r0: seq<MetaIssue>, r1: seq<MetaIssue>, r2: seq<MetaIssue>, r3: seq<MetaIssue>)
    requires |meta| == 4
    requires forall j :: 0 <= j < |rules| ==> !rules[j].required
    requires RecordIssues(mode, meta, 0, rules) == r0 && RecordIssues(mode, meta, 1, rules) == r1
    requires RecordIssues(mode, meta, 2, rules) == r2 && RecordIssues(mode, meta, 3, rules) == r3
    ensures MetaIssuesWith(mode, meta, rules) == r0 + r1 + r2 + r3
  {
    FourRecordReport(mode, meta, rules);
    OptionalRulesNeverMissing(meta, rules);
  }

  /** A single violator gives a single issue naming it. */
  lemma {:induction false} OneOrderIssue(v: MetaItem, position: string, rule: MetaRule, item: MetaItem)
    ensures OrderIssues([v], position, rule, item)
      == [Issue(Error, "Element must not occur " + position + " " + ViolatorText(v), rule, Some(item))]
  {
    assert [v][..0] == [];
  }

  // ---------------------------------------------------------------------
  // General order (rules.test.ts 210-294)
  // ---------------------------------------------------------------------

  const TitleRecord := MetaRuleExamples.Record(0, "title", "title", "Hello World!")
  const CharsetRecord := MetaRuleExamples.Record(1, "meta", "charset", "utf-8")
  const ScriptRecord := MetaRuleExamples.Record(2, "script", "javascript", "js")
  const StyleRecord := MetaRuleExamples.Record(3, "style", "stylesheet", "css")
  const OrderMeta := [TitleRecord, CharsetRecord, ScriptRecord, StyleRecord]

  const CharsetBeforeTitles := Rule("meta", "charset").(beforeAll := Some([Ident("title", None)]))
  const TitleAfterMetas := Rule("title", "title").(afterAll := Some([Ident("meta", None)]))
  const ScriptAfterStyles := Rule("script", "javascript").(afterAll := Some([Ident("style", None)]))
  const StyleBeforeScripts := Rule("style", "stylesheet").(beforeAll := Some([Ident("script", None)]))
  const OrderRules := [CharsetBeforeTitles, TitleAfterMetas, ScriptAfterStyles, StyleBeforeScripts]

  /** Rule `k` alone can match record `i`; it has only beforeAll/afterAll
      constraints, and the record's value has no surrounding whitespace. */
  predicate OrderOnlyAt(meta: seq<MetaItem>, i: nat, rules: seq<MetaRule>, k: nat) {
    i < |meta| && k < |rules| && RuleMatches(rules[k], meta[i])
    && (forall j :: 0 <= j < |rules| && j != k ==> rules[j].tag != meta[i].tag)
    && meta[i].value != [] && !IsWhitespace(meta[i].value[0]) && !IsWhitespace(meta[i].value[|meta[i].value| - 1])
    && rules[k].min.None? && rules[k].max.None? && rules[k].pattern.None?
    && rules[k].precedesAny.None? && rules[k].followsAny.None? && rules[k].test.None?
  }

  /** Such a record gets exactly that rule's ordering issues. */
  lemma {:induction false} OrderOnlyRecord(mode: KeyComparison, meta: seq<MetaItem>, i: nat, rules: seq<MetaRule>, k: nat)
    requires OrderOnlyAt(meta, i, rules, k)
    ensures RecordIssues(mode, meta, i, rules)
      == BeforeAllIssues(mode, meta, i, rules[k]) + AfterAllIssues(mode, meta, i, rules[k])
  {
    RecordIssuesOfMatchingRule(mode, meta, i, rules, k);
    MetaRuleExamples.OrderOnlyRule(mode, meta, i, rules[k]);
  }

  /** Each ordering list holds a single identity without a key. */
  predicate SingleKeylessLists(rule: MetaRule) {
    (rule.beforeAll.Some? ==> |rule.beforeAll.value| == 1 && rule.beforeAll.value[0].key.None?)
    && (rule.afterAll.Some? ==> |rule.afterAll.value| == 1 && rule.afterAll.value[0].key.None?)
  }

  /** Each record of the page is matched by one ordering rule alone. */
  lemma {:induction false} OrderPageShape()
    ensures OrderOnlyAt(OrderMeta, 0, OrderRules, 1) && OrderOnlyAt(OrderMeta, 1, OrderRules, 0)
    ensures OrderOnlyAt(OrderMeta, 2, OrderRules, 2) && OrderOnlyAt(OrderMeta, 3, OrderRules, 3)
    ensures forall k :: 0 <= k < |OrderRules| ==> SingleKeylessLists(OrderRules[k])
  {
    OrderRulesTags();
    OrderValuesClean();
  }

  lemma {:induction false} OrderRulesTags()
    ensures OrderRules[0].tag == "meta" && OrderRules[1].tag == "title"
    ensures OrderRules[2].tag == "script" && OrderRules[3].tag == "style"
    ensures |OrderRules| == 4 && |OrderMeta| == 4
    ensures forall j :: 0 <= j < |OrderRules| ==> !OrderRules[j].required
    ensures forall j :: 0 <= j < 4 ==>
      OrderRules[j].min.None? && OrderRules[j].max.None? && OrderRules[j].pattern.None?
      && OrderRules[j].precedesAny.None? && OrderRules[j].followsAny.None? && OrderRules[j].test.None?
  {
  }

  lemma {:induction false} OrderValuesClean()
    ensures forall i :: 0 <= i < 4 ==>
      OrderMeta[i].value != [] && !IsWhitespace(OrderMeta[i].value[0])
      && !IsWhitespace(OrderMeta[i].value[|OrderMeta[i].value| - 1])
  {
    assert OrderMeta[0].value == "Hello World!" && OrderMeta[1].value == "utf-8";
    assert OrderMeta[2].value == "js" && OrderMeta[3].value == "css";
  }

  lemma {:induction false} OrderRecordsMatched(mode: KeyComparison)
    ensures RecordIssues(mode, OrderMeta, 0, OrderRules) == AfterAllIssues(mode, OrderMeta, 0, TitleAfterMetas)
    ensures RecordIssues(mode, OrderMeta, 1, OrderRules) == BeforeAllIssues(mode, OrderMeta, 1, CharsetBeforeTitles)
    ensures RecordIssues(mode, OrderMeta, 2, OrderRules) == AfterAllIssues(mode, OrderMeta, 2, ScriptAfterStyles)
    ensures RecordIssues(mode, OrderMeta, 3, OrderRules) == BeforeAllIssues(mode, OrderMeta, 3, StyleBeforeScripts)
  {
    OrderPageShape();
    OrderOnlyRecord(mode, OrderMeta, 0, OrderRules, 1);
    OrderOnlyRecord(mode, OrderMeta, 1, OrderRules, 0);
    OrderOnlyRecord(mode, OrderMeta, 2, OrderRules, 2);
    OrderOnlyRecord(mode, OrderMeta, 3, OrderRules, 3);
  }

  /** Each record's issues are its ordering issues against the records on
      the constrained side. */
  lemma {:induction false} OrderRecords(mode: KeyComparison)
    ensures RecordIssues(mode, OrderMeta, 0, OrderRules)
      == OrderIssues(Violators(mode, OrderMeta[1..], [Ident("meta", None)]), "before", TitleAfterMetas, TitleRecord)
    ensures RecordIssues(mode, OrderMeta, 1, OrderRules)
      == OrderIssues(Violators(mode, OrderMeta[..1], [Ident("title", None)]), "after", CharsetBeforeTitles, CharsetRecord)
    ensures RecordIssues(mode, OrderMeta, 2, OrderRules)
      == OrderIssues(Violators(mode, OrderMeta[3..], [Ident("style", None)]), "before", ScriptAfterStyles, ScriptRecord)
    ensures RecordIssues(mode, OrderMeta, 3, OrderRules)
      == OrderIssues(Violators(mode, OrderMeta[..3], [Ident("script", None)]), "after", StyleBeforeScripts, StyleRecord)
  {
    OrderRecordsMatched(mode);
  }

  /** The report is the four records' ordering issues, in record order. */
  lemma {:induction false} GeneralOrderReport(mode: KeyComparison)
    ensures MetaIssuesWith(mode, OrderMeta, OrderRules)
      == OrderIssues(Violators(mode, OrderMeta[1..], [Ident("meta", None)]), "before", TitleAfterMetas, TitleRecord)
         + OrderIssues(Violators(mode, OrderMeta[..1], [Ident("title", None)]), "after", CharsetBeforeTitles, CharsetRecord)
         + OrderIssues(Violators(mode, OrderMeta[3..], [Ident("style", None)]), "before", ScriptAfterStyles, ScriptRecord)
         + OrderIssues(Violators(mode, OrderMeta[..3], [Ident("script", None)]), "after", StyleBeforeScripts, StyleRecord)
  {
    OrderRecords(mode);
    OrderRulesTags();
    FourRecordsAre(mode, OrderMeta, OrderRules,
      OrderIssues(Violators(mode, OrderMeta[1..], [Ident("meta", None)]), "before", TitleAfterMetas, TitleRecord),
      OrderIssues(Violators(mode, OrderMeta[..1], [Ident("title", None)]), "after", CharsetBeforeTitles, CharsetRecord),
      OrderIssues(Violators(mode, OrderMeta[3..], [Ident("style", None)]), "before", ScriptAfterStyles, ScriptRecord),
      OrderIssues(Violators(mode, OrderMeta[..3], [Ident("script", None)]), "after", StyleBeforeScripts, StyleRecord));
  }

  /** As written, no record of the page gets an ordering issue. */
  lemma {:induction false} AsWrittenRecordsClean()
    ensures RecordIssues(KeyAlways, OrderMeta, 0, OrderRules) == [] && RecordIssues(KeyAlways, OrderMeta, 1, OrderRules) == []
    ensures RecordIssues(KeyAlways, OrderMeta, 2, OrderRules) == [] && RecordIssues(KeyAlways, OrderMeta, 3, OrderRules) == []
  {
    OrderPageShape();
    KeylessOrderRecord(OrderMeta, 0, OrderRules, 1);
    KeylessOrderRecord(OrderMeta, 1, OrderRules, 0);
    KeylessOrderRecord(OrderMeta, 2, OrderRules, 2);
    KeylessOrderRecord(OrderMeta, 3, OrderRules, 3);
  }

  /** As written, a record that only an ordering rule with one keyless
      identity matches gets no issue. */
  lemma {:induction false} KeylessOrderRecord(meta: seq<MetaItem>, i: nat, rules: seq<MetaRule>, k: nat)
    requires OrderOnlyAt(meta, i, rules, k) && SingleKeylessLists(rules[k])
    ensures RecordIssues(KeyAlways, meta, i, rules) == []
  {
    OrderOnlyRecord(KeyAlways, meta, i, rules, k);
    KeylessBefore(meta, i, rules[k]);
    KeylessAfter(meta, i, rules[k]);
  }

  lemma {:induction false} KeylessBefore(meta: seq<MetaItem>, i: nat, rule: MetaRule)
    requires i < |meta| && SingleKeylessLists(rule)
    ensures BeforeAllIssues(KeyAlways, meta, i, rule) == []
  {
    if rule.beforeAll.Some? {
      KeylessOrderIssues(meta[..i], rule.beforeAll.value, "after", rule, meta[i]);
    }
  }

  lemma {:induction false} KeylessAfter(meta: seq<MetaItem>, i: nat, rule: MetaRule)
    requires i < |meta| && SingleKeylessLists(rule)
    ensures AfterAllIssues(KeyAlways, meta, i, rule) == []
  {
    if rule.afterAll.Some? {
      KeylessOrderIssues(meta[i + 1..], rule.afterAll.value, "before", rule, meta[i]);
    }
  }

  /** As written, the tag-only identities match nothing: the page whose test
      expects four ordering errors gets an empty report. */
  lemma {:induction false} GeneralOrderAsWritten()
    ensures MetaIssues(OrderMeta, OrderRules) == []
  {
    AsWrittenRecordsClean();
    OrderRulesTags();
    FourRecordsAre(KeyAlways, OrderMeta, OrderRules, [], [], [], []);
  }

  /** As written, keyless identities raise no ordering issue. */
  lemma {:induction false} KeylessOrderIssues(items: seq<MetaItem>, ids: seq<Ident>, position: string, rule: MetaRule, item: MetaItem)
    requires forall i :: 0 <= i < |ids| ==> ids[i].key.None?
    ensures OrderIssues(Violators(KeyAlways, items, ids), position, rule, item) == []
  {
    KeylessIdentsNeverMatch(items, ids, item);
  }

  /** With tag-only identities matching by tag, the report is the four
      errors the test expects, in its order. */
  lemma {:induction false} GeneralOrderIntended()
    ensures IntendedMetaIssues(OrderMeta, OrderRules) == [
      Issue(Error, "Element must not occur before meta:charset", TitleAfterMetas, Some(TitleRecord)),
      Issue(Error, "Element must not occur after title", CharsetBeforeTitles, Some(CharsetRecord)),
      Issue(Error, "Element must not occur before style:stylesheet", ScriptAfterStyles, Some(ScriptRecord)),
      Issue(Error, "Element must not occur after script:javascript", StyleBeforeScripts, Some(StyleRecord))]
  {
    GeneralOrderReport(KeyIfGiven);
    MetaAfterTitle();
    TitleBeforeCharset();
    StyleAfterScript();
    ScriptBeforeStyle();
    FourSingles(
      OrderIssues(Violators(KeyIfGiven, OrderMeta[1..], [Ident("meta", None)]), "before", TitleAfterMetas, TitleRecord),
      OrderIssues(Violators(KeyIfGiven, OrderMeta[..1], [Ident("title", None)]), "after", CharsetBeforeTitles, CharsetRecord),
      OrderIssues(Violators(KeyIfGiven, OrderMeta[3..], [Ident("style", None)]), "before", ScriptAfterStyles, ScriptRecord),
      OrderIssues(Violators(KeyIfGiven, OrderMeta[..3], [Ident("script", None)]), "after", StyleBeforeScripts, StyleRecord),
      Issue(Error, "Element must not occur before meta:charset", TitleAfterMetas, Some(TitleRecord)),
      Issue(Error, "Element must not occur after title", CharsetBeforeTitles, Some(CharsetRecord)),
      Issue(Error, "Element must not occur before style:stylesheet", ScriptAfterStyles, Some(ScriptRecord)),
      Issue(Error, "Element must not occur after script:javascript", StyleBeforeScripts, Some(StyleRecord)));
  }

  lemma {:induction false} FourSingles<T>(a: seq<T>, b: seq<T>, c: seq<T>, d: seq<T>, x: T, y: T, z: T, w: T)
    requires a == [x] && b == [y] && c == [z] && d == [w]
    ensures a + b + c + d == [x, y, z, w]
  {
  }

  /** A violator whose tag and key differ is named `tag:key`. */
  lemma {:induction false} KeyedViolatorText(v: MetaItem)
    requires v.tag != v.key
    ensures ViolatorText(v) == v.tag + ":" + v.key
  {
  }

  lemma BeforeCharsetWording()
    ensures "Element must not occur " + "before" + " " + ("meta" + ":" + "charset") == "Element must not occur before meta:charset"
  {
  }

  lemma AfterTitleOrderWording()
    ensures "Element must not occur " + "after" + " " + "title" == "Element must not occur after title"
  {
  }

  lemma BeforeStyleWording()
    ensures "Element must not occur " + "before" + " " + ("style" + ":" + "stylesheet") == "Element must not occur before style:stylesheet"
  {
  }

  lemma AfterScriptWording()
    ensures "Element must not occur " + "after" + " " + ("script" + ":" + "javascript") == "Element must not occur after script:javascript"
  {
  }

  lemma {:induction false} MetaAfterTitle()
    ensures OrderIssues(Violators(KeyIfGiven, OrderMeta[1..], [Ident("meta", None)]), "before", TitleAfterMetas, TitleRecord)
      == [Issue(Error, "Element must not occur before meta:charset", TitleAfterMetas, Some(TitleRecord))]
  {
    var rest := OrderMeta[1..];
    assert rest == [CharsetRecord, ScriptRecord, StyleRecord];
    assert IdentMatches(KeyIfGiven, [Ident("meta", None)][0], CharsetRecord);
    MetaRuleExamples.SingleViolator(KeyIfGiven, rest, [Ident("meta", None)], 0);
    OneOrderIssue(CharsetRecord, "before", TitleAfterMetas, TitleRecord);
    KeyedViolatorText(CharsetRecord);
    BeforeCharsetWording();
  }

  lemma {:induction false} TitleBeforeCharset()
    ensures OrderIssues(Violators(KeyIfGiven, OrderMeta[..1], [Ident("title", None)]), "after", CharsetBeforeTitles, CharsetRecord)
      == [Issue(Error, "Element must not occur after title", CharsetBeforeTitles, Some(CharsetRecord))]
  {
    assert OrderMeta[..1] == [TitleRecord];
    assert IdentMatches(KeyIfGiven, [Ident("title", None)][0], TitleRecord);
    MetaRuleExamples.SingleViolator(KeyIfGiven, [TitleRecord], [Ident("title", None)], 0);
    OneOrderIssue(TitleRecord, "after", CharsetBeforeTitles, CharsetRecord);
    assert ViolatorText(TitleRecord) == "title";
    AfterTitleOrderWording();
  }

  lemma {:induction false} StyleAfterScript()
    ensures OrderIssues(Violators(KeyIfGiven, OrderMeta[3..], [Ident("style", None)]), "before", ScriptAfterStyles, ScriptRecord)
      == [Issue(Error, "Element must not occur before style:stylesheet", ScriptAfterStyles, Some(ScriptRecord))]
  {
    assert OrderMeta[3..] == [StyleRecord];
    assert IdentMatches(KeyIfGiven, [Ident("style", None)][0], StyleRecord);
    MetaRuleExamples.SingleViolator(KeyIfGiven, [StyleRecord], [Ident("style", None)], 0);
    OneOrderIssue(StyleRecord, "before", ScriptAfterStyles, ScriptRecord);
    KeyedViolatorText(StyleRecord);
    BeforeStyleWording();
  }

  lemma {:induction false} ScriptBeforeStyle()
    ensures OrderIssues(Violators(KeyIfGiven, OrderMeta[..3], [Ident("script", None)]), "after", StyleBeforeScripts, StyleRecord)
      == [Issue(Error, "Element must not occur after script:javascript", StyleBeforeScripts, Some(StyleRecord))]
  {
    var before := OrderMeta[..3];
    assert before == [TitleRecord, CharsetRecord, ScriptRecord];
    assert IdentMatches(KeyIfGiven, [Ident("script", None)][0], ScriptRecord);
    MetaRuleExamples.SingleViolator(KeyIfGiven, before, [Ident("script", None)], 2);
    OneOrderIssue(ScriptRecord, "after", StyleBeforeScripts, StyleRecord);
    KeyedViolatorText(ScriptRecord);
    AfterScriptWording();
  }

  // ---------------------------------------------------------------------
  // Block order (rules.test.ts 295-374)
  // ---------------------------------------------------------------------

  const BlockStart := Ident("meta", Some("block:start"))
  const BlockContent := Ident("meta", Some("block:content"))
  const BlockEnd := Ident("meta", Some("block:end"))
  const Openers := [BlockStart, BlockContent]
  const Closers := [BlockContent, BlockEnd]

  const ContentRule := Rule("meta", "block:content").(followsAny := Some(Openers), precedesAny := Some(Closers))
  const StartRule := Rule("meta", "block:start").(precedesAny := Some(Closers))
  const EndRule := Rule("meta", "block:end").(followsAny := Some(Openers))
  const BlockRules := [ContentRule, StartRule, EndRule]

  const BlockMeta := [
    MetaRuleExamples.Record(0, "meta", "block:content", "Lorem Ipsum"),
    MetaRuleExamples.Record(1, "meta", "block:end", "Lorem Ipsum"),
    MetaRuleExamples.Record(2, "meta", "block:start", "Lorem Ipsum"),
    MetaRuleExamples.Record(3, "meta", "block:content", "Lorem Ipsum")]

  /** A rule with only neighbour constraints, on a record without
      surrounding whitespace, reports only neighbour errors. */
  lemma {:induction false} NeighbourOnlyRule(mode: KeyComparison, meta: seq<MetaItem>, idx: nat, rule: MetaRule)
    requires idx < |meta| && RuleMatches(rule, meta[idx])
    requires meta[idx].value != [] && !IsWhitespace(meta[idx].value[0]) && !IsWhitespace(meta[idx].value[|meta[idx].value| - 1])
    requires rule.min.None? && rule.max.None? && rule.pattern.None?
    requires rule.beforeAll.None? && rule.afterAll.None? && rule.test.None?
    ensures PairIssues(mode, meta, idx, rule) == PrecedesIssues(mode, meta, idx, rule) + FollowsIssues(mode, meta, idx, rule)
  {
    var item := meta[idx];
    MetaRuleExamples.CleanValueLength(item, rule);
    assert LengthOutcome(|item.value|, rule.min, rule.max) == Pass;
    assert LengthIssues(rule, item) == [] && PatternIssues(rule, item) == [];
    assert BeforeAllIssues(mode, meta, idx, rule) == [] && AfterAllIssues(mode, meta, idx, rule) == [];
    assert TestIssues(meta, idx, rule) == [];
    var p, f := PrecedesIssues(mode, meta, idx, rule), FollowsIssues(mode, meta, idx, rule);
    assert [] + [] + p + f + [] + [] + [] == p + f;
  }

  lemma {:induction false} LoremIpsumIsClean()
    ensures forall i :: 0 <= i < 4 ==> BlockMeta[i].value == "Lorem Ipsum"
    ensures |"Lorem Ipsum"| == 11 && !IsWhitespace("Lorem Ipsum"[0]) && !IsWhitespace("Lorem Ipsum"[10])
  {
  }

  /** Record `i` is matched by rule `k` alone and gets its neighbour issues. */
  lemma {:induction false} BlockRecordMatched(mode: KeyComparison, i: nat, k: nat)
    requires (i, k) in {(0, 0), (1, 2), (2, 1), (3, 0)}
    ensures RecordIssues(mode, BlockMeta, i, BlockRules)
      == PrecedesIssues(mode, BlockMeta, i, BlockRules[k]) + FollowsIssues(mode, BlockMeta, i, BlockRules[k])
  {
    assert forall j :: 0 <= j < 3 && j != k ==> BlockRules[j].key != Some(BlockMeta[i].key);
    RecordIssuesOfMatchingRule(mode, BlockMeta, i, BlockRules, k);
    LoremIpsumIsClean();
    NeighbourOnlyRule(mode, BlockMeta, i, BlockRules[k]);
  }

  /** The first content record has no record before it, but a closer after it. */
  lemma {:induction false} FirstContentRecord(mode: KeyComparison)
    ensures RecordIssues(mode, BlockMeta, 0, BlockRules) == [Issue(Error, FollowsMessage(Openers), ContentRule, Some(BlockMeta[0]))]
  {
    BlockRecordMatched(mode, 0, 0);
    assert IdentMatches(mode, Closers[1], BlockMeta[1]);
    NeighbourChecks(mode, BlockMeta, 0, ContentRule);
  }

  /** The end record follows a content record. */
  lemma {:induction false} EndRecord(mode: KeyComparison)
    ensures RecordIssues(mode, BlockMeta, 1, BlockRules) == []
  {
    BlockRecordMatched(mode, 1, 2);
    assert IdentMatches(mode, Openers[1], BlockMeta[0]);
    NeighbourChecks(mode, BlockMeta, 1, EndRule);
  }

  /** The start record precedes a content record. */
  lemma {:induction false} StartRecord(mode: KeyComparison)
    ensures RecordIssues(mode, BlockMeta, 2, BlockRules) == []
  {
    BlockRecordMatched(mode, 2, 1);
    assert IdentMatches(mode, Closers[0], BlockMeta[3]);
    NeighbourChecks(mode, BlockMeta, 2, StartRule);
  }

  /** The last content record follows the start record but has no record after it. */
  lemma {:induction false} LastContentRecord(mode: KeyComparison)
    ensures RecordIssues(mode, BlockMeta, 3, BlockRules) == [Issue(Error, PrecedesMessage(Closers), ContentRule, Some(BlockMeta[3]))]
  {
    BlockRecordMatched(mode, 3, 0);
    assert IdentMatches(mode, Openers[0], BlockMeta[2]);
    NeighbourChecks(mode, BlockMeta, 3, ContentRule);
  }

  /** Whatever the key comparison, the first content record has no opener
      before it and the last has no closer after it; every other record
      stands next to an allowed neighbour. */
  lemma {:induction false} BlockOrderReport(mode: KeyComparison)
    ensures MetaIssuesWith(mode, BlockMeta, BlockRules) == [
      Issue(Error, FollowsMessage(Openers), ContentRule, Some(BlockMeta[0])),
      Issue(Error, PrecedesMessage(Closers), ContentRule, Some(BlockMeta[3]))]
  {
    FirstContentRecord(mode);
    EndRecord(mode);
    StartRecord(mode);
    LastContentRecord(mode);
    BlockRulesOptional();
    var i0 := Issue(Error, FollowsMessage(Openers), ContentRule, Some(BlockMeta[0]));
    var i3 := Issue(Error, PrecedesMessage(Closers), ContentRule, Some(BlockMeta[3]));
    FourRecordsAre(mode, BlockMeta, BlockRules, [i0], [], [], [i3]);
    OuterSingles([i0], [], [], [i3], i0, i3);
  }

  lemma {:induction false} BlockRulesOptional()
    ensures forall j :: 0 <= j < |BlockRules| ==> !BlockRules[j].required
  {
  }

  lemma {:induction false} OuterSingles<T>(a: seq<T>, b: seq<T>, c: seq<T>, d: seq<T>, x: T, y: T)
    requires a == [x] && b == [] && c == [] && d == [y]
    ensures a + b + c + d == [x, y]
  {
  }

  /** Two identities are listed with a comma between them. */
  lemma {:induction false} TwoIdentsText(a: Ident, b: Ident)
    ensures IdentsText([a, b]) == IdentText(a) + ", " + IdentText(b)
  {
    assert [a, b][..1] == [a];
  }

  lemma BlockIdentWordings()
    ensures IdentText(BlockStart) == "meta:block:start"
    ensures IdentText(BlockContent) == "meta:block:content"
    ensures IdentText(BlockEnd) == "meta:block:end"
  {
  }

  lemma FollowsWording()
    ensures "Element must follow one of " + ("meta:block:start" + ", " + "meta:block:content")
      == "Element must follow one of meta:block:start, meta:block:content"
  {
  }

  lemma PrecedesWording()
    ensures "Element must precede one of " + ("meta:block:content" + ", " + "meta:block:end")
      == "Element must precede one of meta:block:content, meta:block:end"
  {
  }

  /** The messages list the identities as the test spells them. */
  lemma {:induction false} BlockMessages()
    ensures FollowsMessage(Openers) == "Element must follow one of meta:block:start, meta:block:content"
    ensures PrecedesMessage(Closers) == "Element must precede one of meta:block:content, meta:block:end"
  {
    TwoIdentsText(BlockStart, BlockContent);
    TwoIdentsText(BlockContent, BlockEnd);
    BlockIdentWordings();
    FollowsWording();
    PrecedesWording();
  }

  /** `validateMeta` reports the two errors the test expects. */
  lemma {:induction false} BlockOrderIssues()
    ensures MetaIssues(BlockMeta, BlockRules) == [
      Issue(Error, "Element must follow one of meta:block:start, meta:block:content", ContentRule, Some(BlockMeta[0])),
      Issue(Error, "Element must precede one of meta:block:content, meta:block:end", ContentRule, Some(BlockMeta[3]))]
  {
    BlockOrderReport(KeyAlways);
    BlockMessages();
  }
}
