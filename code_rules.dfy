/** The code rules shipped as `tagRules`: where the base and charset
    declarations must stand, the charset value, and the required title. */
module CodeRules {
  import opened Wrappers
  import opened JsString
  import opened MetaTypes
  import opened Reports
  import opened MetaRules
  import opened MetaRuleFacts

  const CharsetMessage := "Value must be an ASCII case-insensitive match for the string \"utf-8\""

  /** The tags a charset declaration must come before. */
  const CharsetFirstTags: seq<string> := ["title", "meta", "base", "link", "style", "script", "noscript"]

  /** Identities naming a tag only. */
  function TagIdents(tags: seq<string>): seq<Ident> {
    seq(|tags|, i requires 0 <= i < |tags| => Ident(tags[i], None))
  }

  /** The identities of `beforeAll` in the base and charset rules, as
      written in the rule table. */
  const BaseFirst: seq<Ident> := [Ident("link", None), Ident("script", None)]
  const CharsetFirst: seq<Ident> := [Ident("title", None), Ident("meta", None), Ident("base", None),
    Ident("link", None), Ident("style", None), Ident("script", None), Ident("noscript", None)]

  const BaseRule := Rule("base", "base").(beforeAll := Some(BaseFirst))
  const CharsetOrderRule := Rule("meta", "charset").(beforeAll := Some(CharsetFirst))
  const CharsetPatternRule := Rule("meta", "charset").(pattern := Some(Pattern(ContainsUtf8IgnoreCase, CharsetMessage)))
  const TitleRule := Rule("title", "title").(required := true, max := Some(255))

  const TagRules: seq<MetaRule> := [BaseRule, CharsetOrderRule, CharsetPatternRule, TitleRule]
}

/** Lemmas on what the validator reports under the code rules. */
module CodeRuleFacts {
  import opened Wrappers
  import opened JsString
  import opened MetaTypes
  import opened Reports
  import opened MetaRules
  import opened MetaRuleFacts
  import opened CodeRules

  /** The report of the code rules splits into the reports of its four rules. */
  lemma {:induction false} TagRulesRecordIssues(mode: KeyComparison, meta: seq<MetaItem>, idx: nat)
    requires idx < |meta|
    ensures RecordIssues(mode, meta, idx, TagRules)
      == PairIssues(mode, meta, idx, BaseRule) + PairIssues(mode, meta, idx, CharsetOrderRule)
         + PairIssues(mode, meta, idx, CharsetPatternRule) + PairIssues(mode, meta, idx, TitleRule)
  {
    assert TagRules == [BaseRule] + [CharsetOrderRule] + [CharsetPatternRule] + [TitleRule];
    RecordIssuesAppend(mode, meta, idx, [BaseRule] + [CharsetOrderRule] + [CharsetPatternRule], [TitleRule]);
    RecordIssuesAppend(mode, meta, idx, [BaseRule] + [CharsetOrderRule], [CharsetPatternRule]);
    RecordIssuesAppend(mode, meta, idx, [BaseRule], [CharsetOrderRule]);
    assert RecordIssues(mode, meta, idx, [BaseRule]) == PairIssues(mode, meta, idx, BaseRule);
    assert RecordIssues(mode, meta, idx, [CharsetOrderRule]) == PairIssues(mode, meta, idx, CharsetOrderRule);
    assert RecordIssues(mode, meta, idx, [CharsetPatternRule]) == PairIssues(mode, meta, idx, CharsetPatternRule);
    assert RecordIssues(mode, meta, idx, [TitleRule]) == PairIssues(mode, meta, idx, TitleRule);
  }

  /** Of the code rules only the title rule is required. */
  lemma {:induction false} TagRulesMissing(meta: seq<MetaItem>)
    ensures MissingIssues(meta, TagRules) ==
      if exists i :: 0 <= i < |meta| && meta[i].tag == "title" && meta[i].key == "title"
      then [] else [Issue(Error, MissingElement, TitleRule, None)]
  {
    TagRulesMissingTitle(meta);
    TitleFoundIff(meta);
  }

  lemma {:induction false} TagRulesMissingTitle(meta: seq<MetaItem>)
    ensures MissingIssues(meta, TagRules) == if Found(meta, TitleRule) then [] else [Issue(Error, MissingElement, TitleRule, None)]
  {
    var optional := [BaseRule, CharsetOrderRule, CharsetPatternRule];
    assert TagRules == optional + [TitleRule];
    MissingIssuesAppend(meta, optional, [TitleRule]);
    OptionalRulesNeverMissing(meta, optional);
    assert [TitleRule][..0] == [];
  }

  lemma {:induction false} TitleFoundIff(meta: seq<MetaItem>)
    ensures Found(meta, TitleRule) <==> exists i :: 0 <= i < |meta| && meta[i].tag == "title" && meta[i].key == "title"
  {
  }

  lemma {:induction false} OnlyTitleRequired()
    ensures forall r :: r in TagRules && r.required ==> r == TitleRule
  {
  }

  /** The code rules report a missing element (an issue without a record)
      exactly when the record list holds no title:title record. */
  lemma {:induction false} TitleMissingIff(meta: seq<MetaItem>)
    ensures (exists x :: x in MetaIssues(meta, TagRules) && x.meta.None?) <==>
      !exists i :: 0 <= i < |meta| && meta[i].tag == "title" && meta[i].key == "title"
  {
    TitleFoundIff(meta);
    TagRulesMissingTitle(meta);
    ReportEntries(KeyAlways, meta, TagRules);
    OnlyTitleRequired();
    if !Found(meta, TitleRule) {
      var x := Issue(Error, MissingElement, TitleRule, None);
      assert MetaIssues(meta, TagRules) == PerRecordIssues(KeyAlways, meta, TagRules, |meta|) + [x];
      assert x in MetaIssues(meta, TagRules);
    }
  }

  /** A title record is checked by the title rule alone: only its length,
      against a maximum of 255. */
  lemma {:induction false} TitleRecordIssues(mode: KeyComparison, meta: seq<MetaItem>, idx: nat)
    requires idx < |meta| && meta[idx].tag == "title" && meta[idx].key == "title"
    ensures RecordIssues(mode, meta, idx, TagRules) == LengthIssues(TitleRule, meta[idx])
    ensures |Trim(meta[idx].value)| > 255 ==>
      RecordIssues(mode, meta, idx, TagRules)
        == [Issue(Error, LengthMessage(|Trim(meta[idx].value)|, 255, MaxExceeded), TitleRule, Some(meta[idx]))]
    ensures 0 < |Trim(meta[idx].value)| <= 255 ==> RecordIssues(mode, meta, idx, TagRules) == []
  {
    TagRulesRecordIssues(mode, meta, idx);
    OtherRulesSkipTitle(mode, meta, idx);
    TitlePairIssues(mode, meta, idx);
    TitleLengthBounds(meta[idx]);
  }

  lemma {:induction false} OtherRulesSkipTitle(mode: KeyComparison, meta: seq<MetaItem>, idx: nat)
    requires idx < |meta| && meta[idx].tag == "title"
    ensures PairIssues(mode, meta, idx, BaseRule) == []
    ensures PairIssues(mode, meta, idx, CharsetOrderRule) == []
    ensures PairIssues(mode, meta, idx, CharsetPatternRule) == []
  {
  }

  lemma {:induction false} TitlePairIssues(mode: KeyComparison, meta: seq<MetaItem>, idx: nat)
    requires idx < |meta| && meta[idx].tag == "title" && meta[idx].key == "title"
    ensures PairIssues(mode, meta, idx, TitleRule) == LengthIssues(TitleRule, meta[idx])
  {
  }

  lemma {:induction false} TitleLengthBounds(item: MetaItem)
    ensures |Trim(item.value)| > 255 ==>
      LengthIssues(TitleRule, item) == [Issue(Error, LengthMessage(|Trim(item.value)|, 255, MaxExceeded), TitleRule, Some(item))]
    ensures 0 < |Trim(item.value)| <= 255 ==> LengthIssues(TitleRule, item) == []
  {
  }

  /** The charset pattern is unanchored and ignores case: any value holding
      "utf-8" in any letter case passes, wherever it stands. */
  lemma {:induction false} CharsetPatternAnywhere(before: string, w: string, after: string)
    requires EqualsIgnoreCase(w, "utf-8")
    ensures RegexMatches(ContainsUtf8IgnoreCase, before + w + after)
  {
    var v := before + w + after;
    assert v[|before|..|before| + 5] == w;
    assert Utf8At(v, |before|);
  }

  /** A value shorter than "utf-8", or a blank one, fails the charset pattern. */
  lemma {:induction false} CharsetPatternNeedsUtf8(v: string)
    requires |v| < 5 || forall i :: 0 <= i < |v| ==> IsWhitespace(v[i])
    ensures !RegexMatches(ContainsUtf8IgnoreCase, v)
  {
    forall i | 0 <= i <= |v|
      ensures !Utf8At(v, i)
    {
      if i + 5 <= |v| {
        Utf8StartsWithU(v, i);
      }
    }
  }

  /** A match of the charset pattern starts with a 'u' or 'U'. */
  lemma {:induction false} Utf8StartsWithU(v: string, i: nat)
    requires i + 5 <= |v|
    ensures Utf8At(v, i) ==> LowerChar(v[i]) == 'u'
  {
    assert v[i..i + 5][0] == v[i];
  }

  /** The charset is covered by two rules, so a blank charset gets two "Value
      is empty" errors and the pattern error, and nothing else: the ordering
      rule's tag-only identities never match. */
  lemma {:induction false} BlankCharsetIssues(meta: seq<MetaItem>, idx: nat)
    requires idx < |meta| && meta[idx].tag == "meta" && meta[idx].key == "charset"
    requires forall i :: 0 <= i < |meta[idx].value| ==> IsWhitespace(meta[idx].value[i])
    ensures RecordIssues(KeyAlways, meta, idx, TagRules) == [
      Issue(Error, EmptyValue, CharsetOrderRule, Some(meta[idx])),
      Issue(Error, EmptyValue, CharsetPatternRule, Some(meta[idx])),
      Issue(Error, CharsetMessage, CharsetPatternRule, Some(meta[idx]))]
  {
    TagRulesRecordIssues(KeyAlways, meta, idx);
    OtherRulesSkipCharset(KeyAlways, meta, idx);
    BlankCharsetOrder(meta, idx);
    BlankCharsetPattern(meta, idx);
  }

  lemma {:induction false} OtherRulesSkipCharset(mode: KeyComparison, meta: seq<MetaItem>, idx: nat)
    requires idx < |meta| && meta[idx].tag == "meta"
    ensures PairIssues(mode, meta, idx, BaseRule) == []
    ensures PairIssues(mode, meta, idx, TitleRule) == []
  {
  }

  lemma {:induction false} BlankCharsetOrder(meta: seq<MetaItem>, idx: nat)
    requires idx < |meta| && meta[idx].tag == "meta" && meta[idx].key == "charset"
    requires forall i :: 0 <= i < |meta[idx].value| ==> IsWhitespace(meta[idx].value[i])
    ensures PairIssues(KeyAlways, meta, idx, CharsetOrderRule) == [Issue(Error, EmptyValue, CharsetOrderRule, Some(meta[idx]))]
  {
    TrimEmptyIff(meta[idx].value);
    KeylessIdentsNeverMatch(meta[..idx], CharsetFirst, meta[idx]);
    assert BeforeAllIssues(KeyAlways, meta, idx, CharsetOrderRule) == [];
  }

  lemma {:induction false} BlankCharsetPattern(meta: seq<MetaItem>, idx: nat)
    requires idx < |meta| && meta[idx].tag == "meta" && meta[idx].key == "charset"
    requires forall i :: 0 <= i < |meta[idx].value| ==> IsWhitespace(meta[idx].value[i])
    ensures PairIssues(KeyAlways, meta, idx, CharsetPatternRule) == [
      Issue(Error, EmptyValue, CharsetPatternRule, Some(meta[idx])),
      Issue(Error, CharsetMessage, CharsetPatternRule, Some(meta[idx]))]
  {
    TrimEmptyIff(meta[idx].value);
    CharsetPatternNeedsUtf8(meta[idx].value);
  }

  /** As written, the ordering rules of the code rule set never report
      anything: all their identities name a tag only. */
  lemma {:induction false} TagRulesOrderingInert(meta: seq<MetaItem>, idx: nat)
    requires idx < |meta|
    ensures BeforeAllIssues(KeyAlways, meta, idx, BaseRule) == []
    ensures BeforeAllIssues(KeyAlways, meta, idx, CharsetOrderRule) == []
  {
    KeylessIdentsNeverMatch(meta[..idx], BaseFirst, meta[idx]);
    KeylessIdentsNeverMatch(meta[..idx], CharsetFirst, meta[idx]);
  }

  /** With tag-only identities matching by tag, a charset record is reported
      once for every earlier title, meta, base, link, style, script or
      noscript record, and a base record once for every earlier link or
      script record. */
  lemma {:induction false} TagRulesOrderingIntended(meta: seq<MetaItem>, idx: nat)
    requires idx < |meta|
    ensures |BeforeAllIssues(KeyIfGiven, meta, idx, CharsetOrderRule)| == |Violators(KeyIfGiven, meta[..idx], CharsetFirst)|
    ensures forall v :: v in Violators(KeyIfGiven, meta[..idx], CharsetFirst) <==>
      v in meta[..idx] && v.tag in CharsetFirstTags
    ensures |BeforeAllIssues(KeyIfGiven, meta, idx, BaseRule)| == |Violators(KeyIfGiven, meta[..idx], BaseFirst)|
    ensures forall v :: v in Violators(KeyIfGiven, meta[..idx], BaseFirst) <==>
      v in meta[..idx] && v.tag in ["link", "script"]
  {
    AllChecksCount(KeyIfGiven, meta, idx, CharsetOrderRule);
    AllChecksCount(KeyIfGiven, meta, idx, BaseRule);
    TagIdentsMatchByTag(CharsetFirstTags);
    TagIdentsMatchByTag(["link", "script"]);
    FirstIdentsAreTagIdents();
  }

  /** The identity lists of the rule table name the tags and nothing else. */
  lemma {:induction false} FirstIdentsAreTagIdents()
    ensures BaseFirst == TagIdents(["link", "script"])
    ensures CharsetFirst == TagIdents(CharsetFirstTags)
  {
  }

  lemma {:induction false} TagIdentsMatchByTag(tags: seq<string>)
    ensures forall v :: AnyMatches(KeyIfGiven, TagIdents(tags), v) <==> v.tag in tags
  {
    var ids := TagIdents(tags);
    forall v: MetaItem | v.tag in tags
      ensures AnyMatches(KeyIfGiven, ids, v)
    {
      var i :| 0 <= i < |tags| && tags[i] == v.tag;
      assert IdentMatches(KeyIfGiven, ids[i], v);
    }
  }
}
