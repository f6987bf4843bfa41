/** The SEO length bands shipped as `defaultSeoRules`. */
module SeoConfig {
  import opened Wrappers
  import opened JsString
  import opened MetaTypes
  import opened Reports
  import opened SeoRules

  /** A band rule on a meta key. */
  function Band(key: string, min: nat, safe: Option<nat>, max: nat): SeoRule {
    SeoRule("meta", key, false, Some(min), safe, Some(max))
  }

  const TitleSeoRule := SeoRule("title", "title", true, Some(30), Some(50), Some(60))
  const AuthorSeoRule := Band("author", 1, Some(30), 100)

  const MetaSeoRules: seq<SeoRule> := [
    Band("title", 30, Some(50), 60),
    Band("description", 50, Some(150), 160),
    AuthorSeoRule,
    Band("og:title", 30, Some(50), 60),
    Band("og:description", 50, Some(150), 160),
    Band("og:image", 1, None, 2000),
    Band("og:url", 1, None, 2000),
    Band("twitter:title", 30, Some(50), 60),
    Band("twitter:description", 50, Some(150), 160),
    Band("twitter:image", 1, None, 2000)
  ]

  const DefaultSeoRules: seq<SeoRule> := [TitleSeoRule] + MetaSeoRules
}

/** Lemmas on what the SEO validator reports under the default bands. */
module SeoConfigFacts {
  import opened Wrappers
  import opened JsString
  import opened MetaTypes
  import opened Reports
  import opened SeoRules
  import opened SeoConfig

  /** Only title:title is required, and every rule with a safe length orders
      its bounds min < safe < max; the others have min < max. */
  lemma {:induction false} SeoRulesShape()
    ensures forall i :: 0 <= i < |DefaultSeoRules| ==>
      (DefaultSeoRules[i].required <==> DefaultSeoRules[i].tag == "title" && DefaultSeoRules[i].key == "title")
    ensures forall i :: 0 <= i < |DefaultSeoRules| ==>
      var r := DefaultSeoRules[i];
      IsSet(r.min) && IsSet(r.max) && r.min.value < r.max.value
      && (r.safe.Some? ==> IsSet(r.safe) && r.min.value < r.safe.value < r.max.value)
    ensures forall i, j :: 0 <= i < j < |DefaultSeoRules| ==>
      (DefaultSeoRules[i].tag, DefaultSeoRules[i].key) != (DefaultSeoRules[j].tag, DefaultSeoRules[j].key)
  {
  }

  /** With the default SEO rules, "Element is missing" is reported exactly
      when there is no title:title record. */
  lemma {:induction false} SeoTitleMissingIff(meta: seq<MetaItem>)
    ensures SeoMissingIssues(meta, DefaultSeoRules) ==
      if exists i :: 0 <= i < |meta| && meta[i].tag == "title" && meta[i].key == "title"
      then [] else [Issue(Error, MissingElement, TitleSeoRule, None)]
  {
    assert forall j :: 0 <= j < |MetaSeoRules| ==> !MetaSeoRules[j].required;
    SeoOptionalNeverMissing(meta, MetaSeoRules);
    SeoMissingAppend(meta, [TitleSeoRule], MetaSeoRules);
    assert [TitleSeoRule][..0] == [];
  }

  lemma {:induction false} SeoMissingAppend(meta: seq<MetaItem>, a: seq<SeoRule>, b: seq<SeoRule>)
    ensures SeoMissingIssues(meta, a + b) == SeoMissingIssues(meta, a) + SeoMissingIssues(meta, b)
    decreases |b|
  {
    if b == [] {
      assert a + b == a;
    } else {
      var b', last := b[..|b| - 1], b[|b| - 1];
      assert (a + b)[..|a + b| - 1] == a + b';
      assert (a + b)[|a + b| - 1] == last;
      SeoMissingAppend(meta, a, b');
    }
  }

  /** Without a safe length (og:image, og:url, twitter:image), a non-empty
      value can only exceed the maximum: the minimum of 1 never fires. */
  lemma {:induction false} NoSafeBandOnlyMax(len: nat, rule: SeoRule)
    requires rule in DefaultSeoRules && rule.safe.None? && len > 0
    ensures SeoOutcome(len, rule).Problem? <==> len > 2000
    ensures SeoOutcome(len, rule).Problem? ==> SeoOutcome(len, rule) == Problem(Error, LengthMessage(len, 2000, MaxExceeded))
  {
  }

  /** With a minimum of 1 the author never gets "recommended length not
      reached": a non-empty author is only warned about above 30 characters. */
  lemma {:induction false} AuthorNeverTooShort(len: nat)
    ensures SeoOutcome(len, AuthorSeoRule).Problem? <==> len == 0 || len > 30
  {
  }
}
