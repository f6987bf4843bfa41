/** The scenarios of the SEO validator's test file, evaluated on the model. */
module SeoExamples {
  import opened Wrappers
  import opened JsString
  import opened MetaTypes
  import opened Reports
  import opened SeoRules
  import MetaRuleExamples

  /** The title band the tests share: required, 30 to 50 recommended, 60 at most. */
  const TitleSeo := SeoRule("title", "title", true, Some(30), Some(50), Some(60))

  /** A single record checked by a single rule that matches it: the rule is
      found, so the report is the pair's own verdict. */
  lemma {:induction false} SeoSingleMatched(item: MetaItem, rule: SeoRule)
    requires SeoMatches(rule, item)
    ensures SeoIssues([item], [rule]) == SeoPairIssues(rule, item)
  {
    var meta, rules := [item], [rule];
    SeoRecordOfMatchingRule(item, rules, 0);
    assert meta[0] == item;
    assert SeoPerRecordIssues(meta, rules, 1) == SeoPerRecordIssues(meta, rules, 0) + SeoRecordIssues(meta[0], rules);
    assert SeoFound(meta, rule) by {
      assert SeoMatches(rule, meta[0]);
    }
    assert rules[..0] == [];
    assert SeoMissingIssues(meta, rules) == SeoMissingIssues(meta, []) + [];
  }

  /** A matched single record whose trimmed length has a problem is
      reported with that problem alone. */
  lemma {:induction false} SeoSingleProblem(item: MetaItem, rule: SeoRule, severity: Severity, message: string)
    requires SeoMatches(rule, item)
    requires SeoOutcome(|Trim(item.value)|, rule) == Problem(severity, message)
    ensures SeoIssues([item], [rule]) == [Issue(severity, message, rule, Some(item))]
  {
    SeoSingleMatched(item, rule);
  }

  /** An optional rule reports nothing about a page without records
      (seo.test.ts 18-27). */
  lemma {:induction false} OptionalNotReported()
    ensures SeoIssues([], [SeoRule("meta", "title", false, None, None, None)]) == []
  {
    SeoOptionalNeverMissing([], [SeoRule("meta", "title", false, None, None, None)]);
  }

  /** A required title without a title record is reported once, without a
      record (seo.test.ts 29-48). */
  lemma {:induction false} MissingTitleReported()
    ensures SeoIssues([MetaRuleExamples.Record(0, "meta", "test", "")], [TitleSeo]) == [Issue(Error, MissingElement, TitleSeo, None)]
  {
    var item := MetaRuleExamples.Record(0, "meta", "test", "");
    assert !SeoMatches(TitleSeo, item);
    SeoRecordOfMatchingRule(item, [TitleSeo], 1);
    assert SeoPerRecordIssues([item], [TitleSeo], 1) == SeoPerRecordIssues([item], [TitleSeo], 0) + [];
    assert !SeoFound([item], TitleSeo);
    assert SeoMissingIssues([item], [TitleSeo]) == SeoMissingIssues([item], []) + [Issue(Error, MissingElement, TitleSeo, None)];
  }

  /** An empty title is reported as empty, an error (seo.test.ts 50-69). */
  lemma {:induction false} EmptyTitleReported()
    ensures SeoIssues([MetaRuleExamples.Record(0, "title", "title", "")], [TitleSeo])
      == [Issue(Error, EmptyValue, TitleSeo, Some(MetaRuleExamples.Record(0, "title", "title", "")))]
  {
    SeoSingleProblem(MetaRuleExamples.Record(0, "title", "title", ""), TitleSeo, Error, EmptyValue);
  }

  const BlankSeoTitle := MetaRuleExamples.Record(0, "title", "title", "     ")

  /** A title of five spaces trims to nothing and is reported as empty
      (seo.test.ts 71-90). */
  lemma {:induction false} BlankTitleReported()
    ensures SeoIssues([BlankSeoTitle], [TitleSeo]) == [Issue(Error, EmptyValue, TitleSeo, Some(BlankSeoTitle))]
  {
    TrimEmptyIff(BlankSeoTitle.value);
    SeoSingleProblem(BlankSeoTitle, TitleSeo, Error, EmptyValue);
  }

  /** A clean title of `len` characters is measured whole. */
  lemma {:induction false} CleanTitleOutcome(item: MetaItem, len: nat)
    requires SeoMatches(TitleSeo, item) && |item.value| == len
    requires item.value != [] && !IsWhitespace(item.value[0]) && !IsWhitespace(item.value[|item.value| - 1])
    ensures SeoIssues([item], [TitleSeo]) == SeoPairIssues(TitleSeo, item)
    ensures |Trim(item.value)| == len
  {
    TrimKeepsClean(item.value);
    SeoSingleMatched(item, TitleSeo);
  }

  lemma ShortWording()
    ensures "10" + " / " + "30" + MinNotReached == "10 / 30 - recommended length not reached"
  {
  }

  lemma LongWording()
    ensures "57" + " / " + "50" + SafeExceeded == "57 / 50 - recommended length exceeded"
  {
  }

  lemma MaximumWording()
    ensures "65" + " / " + "60" + MaxExceeded == "65 / 60 - maximum length exceeded"
  {
  }

  /** The three messages of the band tests, digits included. */
  lemma {:induction false} BandMessages()
    ensures LengthMessage(10, 30, MinNotReached) == "10 / 30 - recommended length not reached"
    ensures LengthMessage(57, 50, SafeExceeded) == "57 / 50 - recommended length exceeded"
    ensures LengthMessage(65, 60, MaxExceeded) == "65 / 60 - maximum length exceeded"
  {
    assert NatToString(10) == "10" by { MetaRuleExamples.TwoDigits(10); }
    assert NatToString(30) == "30" by { MetaRuleExamples.TwoDigits(30); }
    assert NatToString(57) == "57" by { MetaRuleExamples.TwoDigits(57); }
    assert NatToString(50) == "50" by { MetaRuleExamples.TwoDigits(50); }
    assert NatToString(65) == "65" by { MetaRuleExamples.TwoDigits(65); }
    assert NatToString(60) == "60" by { MetaRuleExamples.TwoDigits(60); }
    ShortWording();
    LongWording();
    MaximumWording();
  }

  /** A clean 10-character title is below the recommended 30: a warning. */
  lemma {:induction false} ShortTitleWarned(item: MetaItem)
    requires SeoMatches(TitleSeo, item) && |item.value| == 10
    requires !IsWhitespace(item.value[0]) && !IsWhitespace(item.value[9])
    ensures SeoIssues([item], [TitleSeo]) == [Issue(Warning, "10 / 30 - recommended length not reached", TitleSeo, Some(item))]
  {
    CleanTitleOutcome(item, 10);
    BandMessages();
  }

  /** A clean 57-character title is above the recommended 50 but within
      the maximum of 60: a warning. */
  lemma {:induction false} LongTitleWarned(item: MetaItem)
    requires SeoMatches(TitleSeo, item) && |item.value| == 57
    requires !IsWhitespace(item.value[0]) && !IsWhitespace(item.value[56])
    ensures SeoIssues([item], [TitleSeo]) == [Issue(Warning, "57 / 50 - recommended length exceeded", TitleSeo, Some(item))]
  {
    CleanTitleOutcome(item, 57);
    BandMessages();
  }

  /** A clean 65-character title is above the maximum of 60: an error. */
  lemma {:induction false} OverlongTitleRejected(item: MetaItem)
    requires SeoMatches(TitleSeo, item) && |item.value| == 65
    requires !IsWhitespace(item.value[0]) && !IsWhitespace(item.value[64])
    ensures SeoIssues([item], [TitleSeo]) == [Issue(Error, "65 / 60 - maximum length exceeded", TitleSeo, Some(item))]
  {
    CleanTitleOutcome(item, 65);
    BandMessages();
  }

  const CoolStuffTitle := MetaRuleExamples.Record(0, "title", "title", "Cool stuff")
  // The two long titles are written as their first word and the rest, so
  // that their first character is in reach of the verifier.
  const CriticalTitle := MetaRuleExamples.Record(0, "title", "title", "Duis" + " aliqua nulla enim sit fugiat tempor aliqua quis non.")
  const OverlongTitle := MetaRuleExamples.Record(0, "title", "title", "Duis" + " aliqua nulla enim sit fugiat tempor aliqua quis non laboris.")

  lemma {:induction false} CoolStuffShape()
    ensures |CoolStuffTitle.value| == 10 && !IsWhitespace(CoolStuffTitle.value[0]) && !IsWhitespace(CoolStuffTitle.value[9])
  {
    assert CoolStuffTitle.value == "Cool stuff";
  }

  lemma {:induction false} CriticalShape()
    ensures |CriticalTitle.value| == 57 && !IsWhitespace(CriticalTitle.value[0]) && !IsWhitespace(CriticalTitle.value[56])
  {
    var rest := " aliqua nulla enim sit fugiat tempor aliqua quis non.";
    assert CriticalTitle.value == "Duis" + rest;
    assert ("Duis" + rest)[0] == 'D' && ("Duis" + rest)[56] == rest[52] == '.';
  }

  lemma {:induction false} OverlongShape()
    ensures |OverlongTitle.value| == 65 && !IsWhitespace(OverlongTitle.value[0]) && !IsWhitespace(OverlongTitle.value[64])
  {
    var rest := " aliqua nulla enim sit fugiat tempor aliqua quis non laboris.";
    assert OverlongTitle.value == "Duis" + rest;
    assert ("Duis" + rest)[0] == 'D' && ("Duis" + rest)[64] == rest[60] == '.';
  }

  /** "Cool stuff" (seo.test.ts 92-111). */
  lemma {:induction false} MinimumTitleReported()
    ensures SeoIssues([CoolStuffTitle], [TitleSeo]) == [Issue(Warning, "10 / 30 - recommended length not reached", TitleSeo, Some(CoolStuffTitle))]
  {
    CoolStuffShape();
    ShortTitleWarned(CoolStuffTitle);
  }

  /** The 57-character sentence (seo.test.ts 113-132). */
  lemma {:induction false} CriticalTitleReported()
    ensures SeoIssues([CriticalTitle], [TitleSeo]) == [Issue(Warning, "57 / 50 - recommended length exceeded", TitleSeo, Some(CriticalTitle))]
  {
    CriticalShape();
    LongTitleWarned(CriticalTitle);
  }

  /** The 65-character sentence (seo.test.ts 134-153). */
  lemma {:induction false} MaximumTitleReported()
    ensures SeoIssues([OverlongTitle], [TitleSeo]) == [Issue(Error, "65 / 60 - maximum length exceeded", TitleSeo, Some(OverlongTitle))]
  {
    OverlongShape();
    OverlongTitleRejected(OverlongTitle);
  }

  const EmptyMetaTitle := MetaRuleExamples.Record(0, "meta", "title", "")
  const EmptyMetaDescription := MetaRuleExamples.Record(1, "meta", "description", "")
  const DescriptionSeo := SeoRule("meta", "description", false, Some(30), None, None)
  const MetaTitleSeo := SeoRule("meta", "title", false, Some(30), None, None)

  /** Issues follow record order rather than rule order (seo.test.ts
      155-200). */
  lemma {:induction false} SeoIssuesFollowRecordOrder()
    ensures SeoIssues([EmptyMetaTitle, EmptyMetaDescription], [DescriptionSeo, MetaTitleSeo])
      == [Issue(Error, EmptyValue, MetaTitleSeo, Some(EmptyMetaTitle)), Issue(Error, EmptyValue, DescriptionSeo, Some(EmptyMetaDescription))]
  {
    var meta := [EmptyMetaTitle, EmptyMetaDescription];
    var rules := [DescriptionSeo, MetaTitleSeo];
    SeoRecordOfMatchingRule(EmptyMetaTitle, rules, 1);
    SeoRecordOfMatchingRule(EmptyMetaDescription, rules, 0);
    assert SeoPerRecordIssues(meta, rules, 1) == SeoPerRecordIssues(meta, rules, 0) + SeoRecordIssues(meta[0], rules);
    assert SeoPerRecordIssues(meta, rules, 2) == SeoPerRecordIssues(meta, rules, 1) + SeoRecordIssues(meta[1], rules);
    SeoOptionalNeverMissing(meta, rules);
  }
}
