/** The Open Graph rules shipped as `ogRules`: every URL-valued `og:` key
    must hold a fully qualified http(s) URL. */
module OpenGraphRules {
  import opened Wrappers
  import opened JsString
  import opened MetaTypes
  import opened Reports
  import opened MetaRules
  import opened MetaRuleFacts

  const UrlPattern := Pattern(StartsWithHttpScheme, "Value must be a fully qualified URL starting with a protocol")

  /** A rule that checks only the URL pattern of a meta key. */
  function OgRule(key: string): MetaRule {
    Rule("meta", key).(pattern := Some(UrlPattern))
  }

  const OgRules: seq<MetaRule> := [
    OgRule("og:url"),
    OgRule("og:image"), OgRule("og:image:url"), OgRule("og:image:secure_url"),
    OgRule("og:audio"), OgRule("og:audio:url"), OgRule("og:audio:secure_url"),
    OgRule("og:video"), OgRule("og:video:url"), OgRule("og:video:secure_url")]

  /** An optional meta rule on an `og:` key checking only the URL pattern. */
  ghost predicate OgShaped(r: MetaRule) {
    r.tag == "meta" && r.key.Some? && IsPrefix("og:", r.key.value)
    && r.pattern == Some(UrlPattern) && !r.required && r.min.None? && r.max.None?
    && r.followsAny.None? && r.precedesAny.None? && r.afterAll.None? && r.beforeAll.None? && r.test.None?
  }
}

/** Lemmas on what the validator reports under the Open Graph rules. */
module OpenGraphFacts {
  import opened Wrappers
  import opened JsString
  import opened MetaTypes
  import opened Reports
  import opened MetaRules
  import opened MetaRuleFacts
  import opened OpenGraphRules

  /** The Open Graph rules are ten optional meta rules on `og:` keys that
      share one pattern and check nothing else; only the first one is about
      og:url. */
  lemma {:induction false} OgRulesShape()
    ensures |OgRules| == 10
    ensures forall i :: 0 <= i < |OgRules| ==> OgShaped(OgRules[i])
  {
  }

  /** Only the first Open Graph rule is about og:url. */
  lemma {:induction false} OgUrlRuleFirst()
    ensures |OgRules| == 10
    ensures forall i :: 0 <= i < |OgRules| ==> (OgRules[i].key == Some("og:url") <==> i == 0)
  {
  }

  /** No Open Graph rule is required, so they never report a missing element. */
  lemma {:induction false} OgNeverMissing(meta: seq<MetaItem>)
    ensures MissingIssues(meta, OgRules) == []
    ensures forall x :: x in MetaIssues(meta, OgRules) ==> x.meta.Some?
  {
    OptionalRulesNeverMissing(meta, OgRules);
    ReportEntries(KeyAlways, meta, OgRules);
  }

  /** The URL pattern accepts exactly the values that start with "http://" or
      "https://", in lower case. */
  lemma {:induction false} UrlPatternIff(v: string)
    ensures RegexMatches(UrlPattern.rx, v) <==> (|v| >= 7 && v[..7] == "http://") || (|v| >= 8 && v[..8] == "https://")
    ensures RegexMatches(UrlPattern.rx, "https://example.com")
    ensures !RegexMatches(UrlPattern.rx, "HTTPS://example.com")
    ensures !RegexMatches(UrlPattern.rx, "//example.com")
  {
    assert "https://example.com"[..8] == "https://";
    assert "HTTPS://example.com"[0] != 'h';
    assert "//example.com"[0] != 'h';
  }

  /** An og:url record is checked by the first Open Graph rule alone. */
  lemma {:induction false} OgUrlRecordIssues(mode: KeyComparison, meta: seq<MetaItem>, idx: nat)
    requires idx < |meta| && meta[idx].tag == "meta" && meta[idx].key == "og:url"
    ensures |OgRules| == 10
    ensures RecordIssues(mode, meta, idx, OgRules) == PairIssues(mode, meta, idx, OgRules[0])
  {
    OgUrlRuleFirst();
    RecordIssuesOfMatchingRule(mode, meta, idx, OgRules, 0);
  }

  /** A record an Open Graph rule matches gets "Value is empty" when blank,
      and the URL-pattern error unless its raw value starts with a scheme. */
  lemma {:induction false} OgPairIssues(mode: KeyComparison, meta: seq<MetaItem>, idx: nat, rule: MetaRule)
    requires idx < |meta| && OgShaped(rule) && RuleMatches(rule, meta[idx])
    ensures PairIssues(mode, meta, idx, rule) ==
      (if Trim(meta[idx].value) == "" then [Issue(Error, EmptyValue, rule, Some(meta[idx]))] else [])
      + (if RegexMatches(UrlPattern.rx, meta[idx].value) then [] else [Issue(Error, UrlPattern.message, rule, Some(meta[idx]))])
  {
  }

  /** An empty og:url gets "Value is empty" and the URL-pattern error from
      the og:url rule, which is the only rule that reports on it
      (`OgUrlRecordIssues`). */
  lemma {:induction false} EmptyOgUrlIssues(meta: seq<MetaItem>, idx: nat)
    requires idx < |meta| && meta[idx].tag == "meta" && meta[idx].key == "og:url" && meta[idx].value == ""
    ensures PairIssues(KeyAlways, meta, idx, OgRules[0]) == [
      Issue(Error, EmptyValue, OgRules[0], Some(meta[idx])),
      Issue(Error, UrlPattern.message, OgRules[0], Some(meta[idx]))]
  {
    OgRulesShape();
    var rule, item := OgRules[0], meta[idx];
    assert OgShaped(rule) && RuleMatches(rule, item);
    assert Trim(item.value) == "";
    assert LengthIssues(rule, item) == [Issue(Error, EmptyValue, rule, Some(item))];
    assert !RegexMatches(UrlPattern.rx, item.value);
    assert PatternIssues(rule, item) == [Issue(Error, UrlPattern.message, rule, Some(item))];
  }
}
