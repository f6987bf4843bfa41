# Meta Debugger core in Dafny

A model of the validation engine of the Meta Debugger browser extension,
which shows the metadata in a page's `<head>` and reports problems with it,
and of the small string utilities around the engine.

- **Extraction.** Head elements become uniform records of tag, key, value,
  link and remaining attributes, read through the per-tag mapping table.
  There are three variants of the extractor:
  - `getMeta` over the head's children (`Extract`);
  - the content script over the head selector's matches (`ContentScript`);
  - the legacy devtools script (`Devtools`).

  An element is a plain value here: tag name, ordered attribute list and
  text content.
- **Validation.**
  - The code and Open Graph validator `validateMeta` (`MetaRules`) checks
    each record against each rule in this order: length, pattern,
    immediate neighbours, records before and after, and a custom test. A
    final pass reports required elements that are missing.
  - The SEO validator `validateSeo` (`SeoRules`) uses three length bands:
    maximum, safe and minimum.
  - The shipped rule sets are constants: `CodeRules`, `OpenGraphRules` and
    `SeoConfig`.

  Each validator is an imperative method with the source's nested loops. It
  is proved equal to a recursive specification function, and the lemmas in
  `MetaRuleFacts`, `SeoRules`, `CodeRuleFacts`, `OpenGraphFacts` and
  `SeoConfigFacts` state what the reports contain.
- **Panel helpers.**
  - `Duplicates`: the duplicate-key scan and its `warning` class.
  - `Text`: `truncate`, in both of its copies.
  - `Marker`: word marking, mark stripping and `<mark>` conversion.
  - `Templating`: `htmlEncode` and `replacePlaceholders`.
  - `PanelRendering`: how the panel shows a filtered key, marked, then
    encoded, then with its marks turned into `<mark>` elements.
  - `Lib`: the legacy library's XOR-then-base64 `crypt`/`decrypt`, its
    `decodeTemplateName` and its copy of `replacePlaceholders`.
  - `Base64`: the `btoa`/`atob` they call, with the alphabet of section 4
    of RFC 4648.

The panel script and the legacy library carry their own copies of
`truncate`, the marker functions, `replacePlaceholders` and the mapping
table. Each copy is either modelled and shown to agree with the shared
version, or stands for it where the text is identical.

The positional constraints compare identities in one of two ways
(`MetaRules.KeyComparison`):
- `KeyAlways` is the code as written: an identity's key is compared even
  when it has none.
- `KeyIfGiven` is what the rule sets and tests expect: a tag-only identity
  matches by tag.

The validator method runs as written. Every fact in `MetaRuleFacts` is
stated for both comparisons. See "## Findings".

## Model

| member | source | states |
|---|---|---|
| MetaRules.ValidateMeta | src/utils/rules.ts:5-133 | the report is `MetaIssues`: for each record in order, the issues of each rule whose tag and key match it, in rule order, followed by the missing-element errors |
| MetaRules.CheckRecord | src/utils/rules.ts:12-117 | the inner loop appends the issues of every rule, in rule order, for the record at `idx` |
| MetaRules.CheckPair | src/utils/rules.ts:14-115 | for a matching rule the checks append, in this order, the length, pattern, precedes, follows, before-all, after-all and custom-test issues |
| MetaRules.PushLengthIssues | src/utils/rules.ts:14-37 | appends the length issue of the trimmed value: empty, else above `max`, else below `min` |
| MetaRules.PushPatternIssues | src/utils/rules.ts:39-46 | appends the pattern's message when the raw value does not match |
| MetaRules.PushPositionIssues | src/utils/rules.ts:48-75 | appends "Element must precede one of ..." and "Element must follow one of ..." when the next, resp. previous, record is absent or matches none of the listed identities |
| MetaRules.PushOrderIssues | src/utils/rules.ts:84-91 | appends one "Element must not occur after/before ..." per violating record, in record order |
| MetaRules.PushTestIssues | src/utils/rules.ts:110-115 | a custom test result other than `true` is appended with the rule and the record added |
| MetaRules.PushMissingIssues | src/utils/rules.ts:120-130 | appends "Element is missing" for each required rule no record matches, in rule order |
| MetaRuleFacts.LengthBands | src/utils/rules.ts:14-37 | a trimmed length passes exactly when it is non-empty and within every set bound; it yields "Value is empty" exactly when it is 0; every length issue is an error |
| MetaRuleFacts.MaxBeatsMin | src/utils/rules.ts:23-36 | when a length is both above `max` and below `min` (an inverted rule), only the maximum error is reported |
| MetaRuleFacts.ZeroBoundIsUnset | src/utils/rules.ts:23-30 | the bounds are read as booleans, so a bound of 0 behaves exactly like a missing one |
| MetaRuleFacts.LengthIssuesShape | src/utils/rules.ts:14-37 | the length check adds at most one issue, an error naming the rule and the record |
| MetaRuleFacts.PatternOnRawValue | src/utils/rules.ts:39-46 | a pattern issue is reported exactly when the rule has a pattern the untrimmed value does not match, and it is the pattern's own message |
| MetaRuleFacts.PatternSeesUntrimmedValue | src/utils/rules.ts:14-39 | a URL with a leading space fails the `^https?://` pattern although its trimmed value, the one the length check sees, would pass |
| MetaRuleFacts.NeighbourChecks | src/utils/rules.ts:48-75 | a precedes (follows) issue is reported exactly when the rule has the constraint and the record is the last (first) one or the next (previous) record matches none of the identities; at most one each, with the joined identity list in the message |
| MetaRuleFacts.EmptyNeighbourListAlwaysFails | src/utils/rules.ts:51-66 | an empty `precedesAny` or `followsAny` list can never be satisfied |
| MetaRuleFacts.ViolatorsExact | src/utils/rules.ts:80-82 | the violators are exactly the records of the slice that match one of the identities, and no more than the slice holds |
| MetaRuleFacts.ViolatorsAppend | src/utils/rules.ts:80-98 | filtering a joined slice is filtering the parts and joining the results |
| MetaRuleFacts.OrderIssuesExact | src/utils/rules.ts:84-107 | one issue per violator, the k-th naming the k-th violator by its tag alone when tag and key agree |
| MetaRuleFacts.AllChecksCount | src/utils/rules.ts:77-108 | `beforeAll` reports one issue per matching record before the record, `afterAll` one per matching record after it |
| MetaRuleFacts.KeylessIdentsNeverMatch | src/utils/rules.ts:51-98 | as written, an identity without a key never matches a record, so no record can violate it |
| MetaRuleFacts.KeylessIdentsByTag | src/types/Rules.ts:25-32 | with keys compared only when given, a keyless identity matches exactly the records of its tag |
| MetaRuleFacts.KeylessRuleNeverMatches | src/utils/rules.ts:13-122 | a rule without a key is never applied to a record and never found, so it reports nothing per record |
| MetaRuleFacts.PairIssuesShape | src/utils/rules.ts:13-115 | every issue of a rule about a record names that rule and that record, and there is none unless tag and key match |
| MetaRuleFacts.RecordIssuesShape | src/utils/rules.ts:12-117 | every issue about the record at `idx` names a rule of the list that matches the record |
| MetaRuleFacts.RecordIssuesAppend | src/utils/rules.ts:12-117 | the inner loop over two joined rule lists gives the two results joined |
| MetaRuleFacts.RecordIssuesOfMatchingRule | src/utils/rules.ts:12-13 | when only the rule at `k` matches the record, the record's issues are that rule's alone, and none if no rule matches |
| MetaRuleFacts.PerRecordIssuesShape | src/utils/rules.ts:9-118 | each per-record issue names one of the records scanned so far and a rule that matches it |
| MetaRuleFacts.PerRecordPrefix | src/utils/rules.ts:9-118 | the issues of the first `m` records are a prefix of those of the first `n >= m` records |
| MetaRuleFacts.MissingIssuesExact | src/utils/rules.ts:120-130 | "Element is missing" is reported for a rule exactly when the rule is required and no record has its tag and key; at most once per rule |
| MetaRuleFacts.MissingIssuesAppend | src/utils/rules.ts:120-130 | the missing pass over joined rule lists is the two passes joined |
| MetaRuleFacts.OptionalRulesNeverMissing | src/utils/rules.ts:122 | rules none of which is required never report a missing element |
| MetaRuleFacts.MissingComeLast | src/utils/rules.ts:9-132 | no issue about a record comes after a missing-element issue |
| MetaRuleFacts.ReportEntries | src/utils/rules.ts:5-133 | every report entry is either about a record of the page and a rule matching it, or a missing-element error of a required rule no record matches |
| MetaRuleFacts.Degenerate | src/utils/rules.ts:5-133 | an empty page reports only the missing elements, and an empty rule list reports nothing |
| MetaRuleExamples.BlankValueIsEmpty | src/utils/rules.test.ts:7-34 | a title of blanks under a rule with a minimum is reported only as "Value is empty": the length is measured on the trimmed value |
| MetaRuleExamples.TestCalledWithItsRecord | src/utils/rules.test.ts:35-61 | the custom test receives the record, the whole list and the record's index, and a passing test adds nothing |
| MetaRuleExamples.MissingTitleReported | src/utils/rules.test.ts:62-97 | a required title rule over records without a title reports one "Element is missing" error with no record |
| MetaRuleExamples.EmptyValueIsEmpty | src/utils/rules.test.ts:98-125 | an empty title is reported as "Value is empty" rather than below its minimum |
| MetaRuleExamples.EmptyValueReport | src/utils/rules.ts:14-22 | any record whose value trims to nothing, under a rule with only length bounds, gets exactly the "Value is empty" error |
| MetaRuleExamples.MinimumNotReachedMessage | src/utils/rules.test.ts:126-153 | "Cool stuff" under a minimum of 30 gives "10 / 30 - minimum length not reached" |
| MetaRuleExamples.MaximumExceededMessage | src/utils/rules.test.ts:154-181 | a 65-character title under a maximum of 60 gives "65 / 60 - maximum length exceeded" |
| MetaRuleExamples.PatternMismatchReported | src/utils/rules.test.ts:182-209 | a charset of "ansi" under an exact utf-8 pattern reports the pattern's message |
| MetaRuleExamples.TestProblemReported | src/utils/rules.test.ts:376-403 | a test returning a problem has that problem reported with the rule and the record added |
| MetaRuleExamples.IssuesFollowRecordOrder | src/utils/rules.test.ts:404-449 | the issues come in record order even when the rules are listed in another order |
| MetaRuleExamples.LengthProblemReport | src/utils/rules.ts:14-37 | a clean value under a rule with only length bounds is reported with exactly the length verdict's message |
| MetaRuleExamples.PatternOnlyReport | src/utils/rules.ts:39-46 | a clean value under a rule with only a pattern gets exactly the pattern issues |
| MetaRuleExamples.TestOnlyReport | src/utils/rules.ts:110-115 | under a rule with only a test, the report is the test's verdict on the record, a one-record list and index 0 |
| MetaRuleExamples.OrderOnlyRule | src/utils/rules.ts:77-108 | a rule with only `beforeAll`/`afterAll` reports exactly its before-all issues followed by its after-all issues |
| MetaRuleExamples.TwoRecordReport | src/utils/rules.ts:9-130 | the report over two records is the first record's issues, then the second's, then the missing elements |
| MetaRuleExamples.CharsetAfterTitleReport | src/utils/rules.ts:77-91 | a two-record page, a title and then a charset, under "charset before all titles" alone: the title is not checked and the charset gets exactly the before-all issues of the titles before it |
| MetaRuleExamples.TagOnlyOrderAsWritten | src/utils/rules.ts:77-91 | as written, a charset after a title under "charset before all titles", the first rule of the general-order test, is not reported: the tag-only identity `{ tag: 'title' }` never matches |
| MetaRuleExamples.TagOnlyOrderIntended | src/utils/rules.ts:77-91 | with keys compared only when given, that charset is reported once, with "Element must not occur after title" |
| MetaRuleOrderExamples.FourRecordReport | src/utils/rules.ts:9-130 | the report over four records is the issues of record 0, 1, 2 and 3 in that order, then the missing elements |
| MetaRuleOrderExamples.FourRecordsAre | src/utils/rules.ts:9-130 | under rules none of which is required, four records whose issues are known report exactly those issues, in record order |
| MetaRuleOrderExamples.OneOrderIssue | src/utils/rules.ts:84-91 | a single violator gives one error "Element must not occur <position> <violator>" about the checked record |
| MetaRuleOrderExamples.OrderOnlyRecord | src/utils/rules.ts:12-108 | a clean record that only one rule matches, a rule that constrains only order, gets exactly that rule's before-all issues followed by its after-all issues |
| MetaRuleOrderExamples.OrderPageShape | src/utils/rules.test.ts:211-265 | each of the four records of the general-order test is matched by exactly one of the four rules, and that rule only constrains order, with one tag-only identity per list |
| MetaRuleOrderExamples.KeylessOrderIssues | src/utils/rules.ts:77-107 | as written, an ordering list of identities without keys raises no issue, whatever the records |
| MetaRuleOrderExamples.KeylessBefore | src/utils/rules.ts:77-91 | as written, a `beforeAll` list holding one keyless identity raises no issue |
| MetaRuleOrderExamples.KeylessAfter | src/utils/rules.ts:93-107 | as written, an `afterAll` list holding one keyless identity raises no issue |
| MetaRuleOrderExamples.KeylessOrderRecord | src/utils/rules.ts:12-108 | as written, a record matched only by an ordering rule with one keyless identity per list gets no issue |
| MetaRuleOrderExamples.AsWrittenRecordsClean | src/utils/rules.test.ts:210-265 | as written, none of the four records of the general-order test gets an issue |
| MetaRuleOrderExamples.OrderRecordsMatched | src/utils/rules.test.ts:210-265 | the title is checked only by "title after all metas", the charset only by "charset before all titles", the script only by "script after all styles" and the style only by "style before all scripts" |
| MetaRuleOrderExamples.OrderRecords | src/utils/rules.test.ts:210-265 | each record's issues are its ordering issues against the records on the constrained side: the records after the title and the script, the records before the charset and the style |
| MetaRuleOrderExamples.GeneralOrderReport | src/utils/rules.test.ts:210-294 | for either key comparison, the report is the four records' ordering issues in record order, with no missing element |
| MetaRuleOrderExamples.GeneralOrderAsWritten | src/utils/rules.test.ts:210-294 | as written, the page for which the test expects four ordering errors gets an empty report |
| MetaRuleOrderExamples.GeneralOrderIntended | src/utils/rules.test.ts:210-294 | with tag-only identities matching by tag, the report is exactly the four errors the test lists, in its order, each with its rule and its record |
| MetaRuleOrderExamples.KeyedViolatorText | src/utils/rules.ts:88 | a violator whose tag and key differ is named `tag:key` |
| MetaRuleOrderExamples.MetaAfterTitle | src/utils/rules.test.ts:268-273 | with matching by tag, the title is reported once, with "Element must not occur before meta:charset" |
| MetaRuleOrderExamples.TitleBeforeCharset | src/utils/rules.test.ts:274-279 | with matching by tag, the charset is reported once, with "Element must not occur after title" |
| MetaRuleOrderExamples.StyleAfterScript | src/utils/rules.test.ts:280-285 | with matching by tag, the script is reported once, with "Element must not occur before style:stylesheet" |
| MetaRuleOrderExamples.ScriptBeforeStyle | src/utils/rules.test.ts:286-291 | with matching by tag, the style is reported once, with "Element must not occur after script:javascript" |
| MetaRuleOrderExamples.NeighbourOnlyRule | src/utils/rules.ts:13-75 | a rule with only neighbour constraints, on a clean record, reports exactly its precedes issues followed by its follows issues |
| MetaRuleOrderExamples.BlockRecordMatched | src/utils/rules.test.ts:296-359 | each record of the block-order test is matched by exactly one rule: the content records by the content rule, the end record by the end rule, the start record by the start rule |
| MetaRuleOrderExamples.FirstContentRecord | src/utils/rules.test.ts:361-366 | the first content record has no record before it, so it gets the follows error, and the end record after it satisfies its precedes constraint |
| MetaRuleOrderExamples.EndRecord | src/utils/rules.test.ts:317-342 | the end record follows a content record and gets no issue |
| MetaRuleOrderExamples.StartRecord | src/utils/rules.test.ts:309-316 | the start record precedes a content record and gets no issue |
| MetaRuleOrderExamples.LastContentRecord | src/utils/rules.test.ts:367-372 | the last content record follows the start record but has no record after it, so it gets the precedes error alone |
| MetaRuleOrderExamples.BlockOrderReport | src/utils/rules.test.ts:295-374 | for either key comparison, the report is the follows error of the first content record and then the precedes error of the last, both from the content rule |
| MetaRuleOrderExamples.TwoIdentsText | src/utils/rules.ts:54-56 | two identities are listed as `tag:key, tag:key` |
| MetaRuleOrderExamples.BlockMessages | src/utils/rules.test.ts:363-369 | the two messages list the identities as "meta:block:start, meta:block:content" and "meta:block:content, meta:block:end" |
| MetaRuleOrderExamples.BlockOrderIssues | src/utils/rules.test.ts:295-374 | `validateMeta` as written reports exactly the two errors the test lists, in its order |
| CodeRuleFacts.TagRulesRecordIssues | src/config/rules.ts:3-33 | a record's issues under the code rules are those of the base, charset-order, charset-pattern and title rules, in that order |
| CodeRuleFacts.TagRulesMissing | src/config/rules.ts:27-32 | the only missing-element issue is the title's, reported exactly when there is no title record |
| CodeRuleFacts.OnlyTitleRequired | src/config/rules.ts:3-33 | the title rule is the only required code rule |
| CodeRuleFacts.TitleMissingIff | src/config/rules.ts:27-32 | the code-rule report holds an issue without a record exactly when the page has no title element |
| CodeRuleFacts.TitleRecordIssues | src/config/rules.ts:27-32 | a title record is checked only by the title rule: an error above 255 trimmed characters, none for 1 to 255 |
| CodeRuleFacts.TitleLengthBounds | src/config/rules.ts:31 | the title rule flags a trimmed length above 255 with the maximum error and accepts 1 to 255 |
| CodeRuleFacts.CharsetPatternAnywhere | src/config/rules.ts:25 | `/utf-8/i` matches a value holding "utf-8" in any case anywhere in it |
| CodeRuleFacts.CharsetPatternNeedsUtf8 | src/config/rules.ts:25 | a value shorter than 5 characters, or all blanks, never matches `/utf-8/i` |
| CodeRuleFacts.BlankCharsetIssues | src/config/rules.ts:9-26 | a blank charset gets "Value is empty" from both charset rules and then the utf-8 message |
| CodeRuleFacts.TagRulesOrderingInert | src/config/rules.ts:7-20 | as written, the base and charset `beforeAll` lists, whose identities have no key, never report anything |
| CodeRuleFacts.TagRulesOrderingIntended | src/config/rules.ts:7-20 | with keys compared only when given, the charset is flagged once per earlier title, meta, base, link, style, script or noscript element, and the base once per earlier link or script |
| CodeRuleFacts.TagIdentsMatchByTag | src/types/Rules.ts:25-32 | with keys compared only when given, a tag-only identity list matches a record exactly when the record's tag is listed |
| OpenGraphFacts.OgRulesShape | src/config/open-graph.ts:5-63 | the Open Graph rules are ten optional meta rules on `og:` keys that check only the shared URL pattern |
| OpenGraphFacts.OgUrlRuleFirst | src/config/open-graph.ts:6-11 | og:url is the first rule and no other rule names it |
| OpenGraphFacts.OgNeverMissing | src/config/open-graph.ts:5-63 | no Open Graph rule is required, so the report never holds a missing-element issue |
| OpenGraphFacts.UrlPatternIff | src/config/open-graph.ts:3 | `/^https?:\/\//` matches exactly the values starting with "http://" or "https://": case-sensitive and anchored |
| OpenGraphFacts.OgUrlRecordIssues | src/config/open-graph.ts:5-63 | an og:url record is checked by the first rule only |
| OpenGraphFacts.OgPairIssues | src/utils/rules.ts:14-46 | an Open Graph rule reports "Value is empty" for a blank value and the URL message when the raw value lacks the scheme, in that order |
| OpenGraphFacts.EmptyOgUrlIssues | src/config/open-graph.ts:7-11 | an empty og:url gets both "Value is empty" and the URL message |
| SeoRules.ValidateSeo | src/utils/seo.ts:5-62 | the report is `SeoIssues`: the issues of every record, rule by rule and in record order, followed by the missing-element errors |
| SeoRules.CheckSeoRecord | src/utils/seo.ts:12-46 | the inner loop pushes, for one record, the issues of each rule in rule order |
| SeoRules.CheckSeoPair | src/utils/seo.ts:13-45 | a rule whose tag and key match the record adds the one length issue the chain of checks selects; any other rule adds nothing |
| SeoRules.CheckSeoMissing | src/utils/seo.ts:49-59 | the final loop adds "Element is missing" for each required rule that no record matches, in rule order |
| SeoRules.SeoBands | src/utils/seo.ts:14-44 | a trimmed length passes exactly when it is non-empty and within every set `max`, `safe` and `min`; it yields "Value is empty" exactly when it is 0; the issue is an error exactly when the value is empty or above `max` (above `safe` and below `min` are warnings) |
| SeoRules.SeoPrecedence | src/utils/seo.ts:23-36 | the `else if` chain: above `max` gives the maximum error even when `safe` is also exceeded; above `safe` only gives the recommended-length warning |
| SeoRules.SeoZeroBoundIsUnset | src/utils/seo.ts:23-37 | the bounds are read as booleans, so a bound of 0 behaves exactly like a missing one |
| SeoRules.SeoPairShape | src/utils/seo.ts:13-45 | one rule adds at most one issue for one record, only when tag and key match and the length check fails, and the issue carries that rule and that record |
| SeoRules.SeoRecordIssuesShape | src/utils/seo.ts:12-46 | a record gets at most one issue per rule, each naming a rule of the list that matches the record |
| SeoRules.SeoRecordOfMatchingRule | src/utils/seo.ts:12-13 | when only the rule at `k` matches a record, the record's issues are that rule's, and none if no rule matches |
| SeoRules.SeoPerRecordShape | src/utils/seo.ts:9-47 | each per-record issue names one of the records scanned so far and a matching rule; the issues of a shorter prefix are a prefix of the issues of a longer one |
| SeoRules.SeoMissingExact | src/utils/seo.ts:49-59 | a missing-element issue is reported for a rule exactly when the rule is required and no record has its tag and key, and it carries no record |
| SeoRules.SeoOptionalNeverMissing | src/utils/seo.ts:51 | rules none of which is required never report a missing element |
| SeoRules.SeoReportEntries | src/utils/seo.ts:5-62 | every entry of the report is either about a record of the page and a rule matching it, or a missing-element error of a required rule that no record matches |
| SeoRules.SeoMissingComeLast | src/utils/seo.ts:9-61 | in the report, no issue about a record comes after a missing-element issue |
| SeoExamples.SeoSingleMatched | src/utils/seo.ts:5-62 | a single record checked by a single rule that matches it is reported with exactly that pair's verdict, and the rule is never missing |
| SeoExamples.SeoSingleProblem | src/utils/seo.ts:13-58 | a single matched record whose trimmed length has a problem is reported with that problem alone |
| SeoExamples.OptionalNotReported | src/utils/seo.test.ts:18-27 | an optional rule reports nothing about a page without records |
| SeoExamples.MissingTitleReported | src/utils/seo.test.ts:29-48 | a required title rule over a page without a title reports one "Element is missing" error with no record |
| SeoExamples.EmptyTitleReported | src/utils/seo.test.ts:50-69 | an empty title is reported as "Value is empty", an error |
| SeoExamples.BlankTitleReported | src/utils/seo.test.ts:71-90 | a title of five spaces trims to nothing and is reported as "Value is empty" |
| SeoExamples.CleanTitleOutcome | src/utils/seo.ts:14 | a title without surrounding whitespace is measured whole |
| SeoExamples.BandMessages | src/utils/seo.ts:26-40 | the three band messages spell out as "10 / 30 - recommended length not reached", "57 / 50 - recommended length exceeded" and "65 / 60 - maximum length exceeded" |
| SeoExamples.ShortTitleWarned | src/utils/seo.ts:37-43 | every clean 10-character title is below the recommended 30 and gets that warning alone |
| SeoExamples.LongTitleWarned | src/utils/seo.ts:30-36 | every clean 57-character title is above the recommended 50 but within 60 and gets the recommended-length warning alone |
| SeoExamples.OverlongTitleRejected | src/utils/seo.ts:23-29 | every clean 65-character title is above the maximum of 60 and gets the maximum error alone, not the warning |
| SeoExamples.MinimumTitleReported | src/utils/seo.test.ts:92-111 | "Cool stuff" gives the warning "10 / 30 - recommended length not reached" |
| SeoExamples.CriticalTitleReported | src/utils/seo.test.ts:113-132 | the test's 57-character sentence gives the warning "57 / 50 - recommended length exceeded" |
| SeoExamples.MaximumTitleReported | src/utils/seo.test.ts:134-153 | the test's 65-character sentence gives the error "65 / 60 - maximum length exceeded" |
| SeoExamples.SeoIssuesFollowRecordOrder | src/utils/seo.test.ts:155-200 | two empty records are reported in record order, each with the rule that matches it, although the rules are listed the other way round |
| SeoConfigFacts.SeoRulesShape | src/config/seo.ts:3-79 | in the default SEO rules only the title element is required; every rule sets `min < max`, and `min < safe < max` when it has `safe`; no two rules share tag and key |
| SeoConfigFacts.SeoTitleMissingIff | src/config/seo.ts:3-11 | with the default rules the only missing-element issue possible is the title's, reported exactly when the page has no `title` element |
| SeoConfigFacts.SeoMissingAppend | src/utils/seo.ts:50-59 | the missing-element pass over two rule lists joined is the two passes joined |
| SeoConfigFacts.NoSafeBandOnlyMax | src/config/seo.ts:47-78 | for the default rules without a `safe` bound (image and URL), a non-empty value is flagged exactly when it is longer than 2000, with the maximum error |
| SeoConfigFacts.AuthorNeverTooShort | src/config/seo.ts:26-32 | for `author`, whose `min` is 1, a value is flagged exactly when it is empty or longer than 30 characters |
| JsString.TrimStart | src/utils/rules.ts:14 | the leading blanks `trim` removes: the result is a suffix, starts with a non-blank, and everything dropped is blank |
| JsString.TrimEnd | src/utils/rules.ts:14 | the trailing blanks `trim` removes: the result is a prefix, ends with a non-blank, and everything dropped is blank |
| JsString.TrimEmptyIff | src/utils/rules.ts:14-16 | a value trims to the empty string exactly when every character is blank |
| JsString.TrimKeepsClean | src/utils/rules.ts:14 | a value without leading or trailing blanks is its own trim |
| JsString.ToLower | src/utils/meta.ts:17 | `toLowerCase` on the ASCII tag names: same length, each upper-case letter lowered and every other character kept |
| JsString.NatToString | src/utils/rules.ts:26 | a length printed in a message is a non-empty run of decimal digits without a leading zero |
| JsString.NatToStringRoundTrip | src/utils/rules.ts:26 | reading back the printed digits gives the number |
| JsString.NatToStringInjective | src/utils/rules.ts:26-33 | different numbers print differently |
| Reports.LengthMessageNotEmptyValue | src/utils/rules.ts:16-36 | a length message never reads "Value is empty", so the empty verdict is told apart from every length verdict |
| Reports.LengthMessageInjective | src/utils/rules.ts:26-33 | "len / bound - ..." messages with the same suffix are equal only for equal length and bound |
| MetaTypes.FindAttr | src/utils/meta.ts:16-39 | an attribute lookup finds an attribute exactly when one of that name is present, and returns one of that name |
| MetaConfig.ConfigShape | src/config/meta.ts:3-47 | the table maps exactly TITLE, BASE, META and LINK; META tries charset, name, property and http-equiv in that order |
| MetaConfig.MappersFor | src/utils/meta.ts:14 | `metaConfig[tagName] ?? []`: no mappers for an unlisted tag, at most four for a listed one, none of which takes its key from the text |
| Extract.FirstApplicable | src/utils/meta.ts:15-53 | the mapper used is the first whose key attribute is absent from the config or present on the element; none if no mapper applies |
| Extract.FilterAttributes | src/utils/meta.ts:64-74 | the loop keeps the attributes, in order, whose name is not excluded |
| Extract.FilteredMembers | src/utils/meta.ts:67-71 | an attribute is kept exactly when it is on the element and its name is not excluded |
| Extract.FilteredAppend | src/utils/meta.ts:67-71 | filtering joined attribute lists is joining the filtered lists |
| Extract.FilteredNothingExcluded | src/utils/meta.test.ts:275-282 | with nothing excluded every attribute is returned |
| Extract.GetMeta | src/utils/meta.ts:8-59 | the records are those `MetaOf` builds: at most one per child element, in document order |
| Extract.MapElement | src/utils/meta.ts:13-55 | one element becomes the record of its first applicable mapper, or none |
| Extract.MetaOfRecords | src/utils/meta.ts:12-58 | there are no more records than elements; each record carries the index of the element it came from and is that element's record; indices strictly increase |
| Extract.MetaOfComplete | src/utils/meta.ts:12-58 | the element at `i` has a record in the list exactly when some mapper applies to it |
| Extract.UnmappedTagYieldsNothing | src/utils/meta.test.ts:166-274 | elements of tags missing from the table (style, script, noscript) give no record |
| Extract.TitleRecord | src/utils/meta.test.ts:5-18 | a title element gives tag and key "title" and its text as value |
| Extract.BaseRecord | src/utils/meta.test.ts:61-74 | a base element gives key "base", its href (else its text) as value, and its other attributes |
| Extract.LinkRecord | src/utils/meta.test.ts:75-134 | a link element without `rel` gives nothing; with `rel` its key is the rel value and its value the href (else the text) |
| Extract.MetaRecord | src/utils/meta.test.ts:19-60 | a meta element is read by the first of charset, name, property and http-equiv it carries, with the content as value (the charset itself for charset), and gives nothing without any of them |
| Extract.RecordOfMapper | src/utils/meta.ts:17-51 | the record of an element is built from its first applicable mapper: lower-cased tag, the mapper's key and value, and the attributes without the mapper's two |
| Extract.AttrValueRecord | src/utils/meta.ts:32-51 | a mapper keyed by an attribute value reads the key from that attribute and the value from the value attribute, else the text |
| Extract.ValueOfAttribute | src/utils/meta.ts:38-42 | the value is the value attribute when present, else the text |
| Extract.KeyOfAttribute | src/utils/meta.ts:32-34 | a key taken from an attribute value is that attribute's value |
| Extract.LinkOnlyChangesValueLink | src/utils/meta.ts:49 | how `valueLink` is read changes nothing else in the records, and each record's link is that of its element |
| Extract.ResolvedLinks | src/utils/meta.test.ts:135-165 | with the href resolved against the page, every record is the same except that its link is the resolved URL, present exactly when the element has an href |
| Extract.RawHrefDiffersFromResolved | src/utils/meta.test.ts:61-73 | the base element `<base href="/">` gets the link "/" as written, where the test expects the document base URL |
| ContentScript.GetPageMeta | src/content-script.ts:36-87 | over the elements the head selector matches, the records are exactly those `getMeta` builds: each carries the index of its element, and an element has a record exactly when a mapper applies to it |
| ContentScript.MatchIndices | src/content-script.ts:40-84 | every record's index is that of a matched element, and the element at `i` has a record exactly when a mapper applies |
| ContentScript.MatchYieldsRecord | src/content-script.ts:41-82 | of the selected elements only a link without `rel` and a meta without charset, name, property and http-equiv give no record |
| Devtools.GetPageMeta | src/js/devtools.js:37-132 | the legacy extractor builds, element by element, the records of the shared table with `valueLink` read from the `href` property |
| Devtools.LegacyItem | src/js/devtools.js:97-127 | the inner loop builds the record of the first applicable mapping field by field and stops there |
| Devtools.LegacyValue | src/js/devtools.js:105-109 | where the element carries the value attribute, reading it without a fallback gives the same value as the shared extractor |
| Devtools.LegacyAgreesWithGetMeta | src/js/devtools.js:99-125 | the legacy records are those of `getMeta` except for `valueLink`, which is the resolved URL for link and base records and absent for title and meta records |
| Devtools.LowerTag | src/js/devtools.js:101 | lower-casing the table's tag names gives title, meta, link and base, and only LINK (BASE) gives link (base) |
| Duplicates.DuplicateKeys | src/js/panel-meta.js:218-227 | the scan reports, in record order, the key of every meta, base or title record whose key an earlier such record already had, unless the key is ignored |
| Duplicates.RepeatedKeysCount | src/js/panel-meta.js:218-227 | a key carried by `n >= 2` scanned records is reported `n - 1` times; a key seen once, or an ignored key, is not reported |
| Duplicates.IgnoredNeverReported | src/js/panel-meta.js:10-13 | the two Windows task keys are never reported |
| Duplicates.WarningIff | src/js/panel-meta.js:244 | a record gets the `warning` class exactly when its key is not ignored and at least two meta, base or title records carry it; the first of them is flagged too, and so is a record of another tag with that key |
| Duplicates.OtherTagsIgnored | src/js/panel-meta.js:220 | a record of another tag, such as link, never makes a key a duplicate |
| Duplicates.ScannedKeys | src/js/panel-meta.js:220-222 | there are no more scanned keys than records |
| Text.Clamp | src/utils/text.ts:59 | the end position `substring` uses: the limit kept inside `[0, len]` |
| Text.Substring | src/utils/text.ts:59 | `substring(0, length)` is the prefix up to the clamped limit |
| Text.Substr | src/js/panel-meta.js:154 | `substr(0, length)` is a prefix whose length is the clamped limit |
| Text.Truncate | src/utils/text.ts:58-60 | a value no longer than the limit is returned unchanged; a longer one is cut to the limit and ends in the ellipsis U+2026 |
| Text.TruncateSubstr | src/js/panel-meta.js:152-157 | the panel copy returns a value no longer than the limit unchanged |
| Text.TruncateCopiesAgree | src/js/panel-meta.js:152-157 | the panel's `substr` copy and the utility's `substring` version give the same string for every integer limit |
| Text.TruncateIdempotent | src/utils/text.ts:58-60 | truncating a truncated value changes nothing |
| Text.TruncateKeepsPrefix | src/utils/text.ts:59 | a value longer than `n` keeps exactly its first `n` characters, then the ellipsis |
| Text.TruncateExamples | src/utils/text.test.ts:21-40 | at a limit of 50 the empty and the short text stay unchanged and the long text keeps 50 characters plus the ellipsis U+2026; the test spells its expected ending differently, see "## Findings" |
| Text.SpelledEllipsisNeverProduced | src/utils/text.test.ts:35 | no truncated value ends in the three characters U+00E2 U+20AC U+00A6 the test expects, since every cut ends in U+2026 |
| Marker.MarkWords | src/utils/marker.ts:6-13 | without words the string is unchanged; otherwise each word is applied in turn, and removing the marks gives back the marks-free form of the input |
| Marker.StripWordMarks | src/utils/marker.ts:18-20 | the result holds no mark and is no longer than the input |
| Marker.StripExactlyMarks | src/utils/marker.ts:18-20 | stripping removes every mark character and nothing else |
| Marker.StripConcat | src/utils/marker.ts:18-20 | stripping a joined string strips the parts |
| Marker.StripMarkFree | src/utils/marker.ts:18-20 | a string without marks is left unchanged |
| Marker.StripIdempotent | src/utils/marker.ts:18-20 | stripping twice is stripping once |
| Marker.MarkWordStrips | src/utils/marker.ts:9 | marking one word only adds marks: stripping undoes it |
| Marker.MarkAllStrips | src/utils/marker.ts:6-13 | marking any list of words only adds marks |
| Marker.MarkThenStrip | src/utils/marker.ts:6-20 | `stripWordMarks(markWords(s, words)) == s` for a string without marks |
| Marker.MarkWordAbsent | src/utils/marker.ts:9 | a word that occurs nowhere, in any case, leaves the string unchanged |
| Marker.MarkWordLeftmost | src/utils/marker.ts:9 | the leftmost case-insensitive occurrence is wrapped in marks in its original case and the search resumes after it |
| Marker.CloseFrom | src/utils/marker.ts:26 | the lazy `(.+?)` closes a run at a mark at or after the candidate position |
| Marker.ConvertMarkFree | src/utils/marker.ts:25-27 | a string without marks is left unchanged |
| Marker.ConvertMarkFreePrefix | src/utils/marker.ts:25-27 | a marks-free prefix is copied unchanged |
| Marker.ConvertMarkedRun | src/utils/marker.ts:26 | a non-empty marked run without line breaks becomes `<mark>run</mark>` |
| Marker.MarkedWordRendered | src/utils/marker.ts:6-27 | `convertMarksToHtml(markWords(s, [w]))` renders the first match of a literal word as a `<mark>` element around the text in its original case, copies the text before it, and renders the rest the same way |
| PanelRendering.HtmlEncodeConcat | src/utils/templating.ts:4-8 | encoding a joined text encodes each part: the text node is serialised character by character |
| PanelRendering.EncodedCharsFrom | src/utils/templating.ts:4-8 | every encoded character comes from the text or from the spelling of an entity |
| PanelRendering.EncodeMark | src/utils/templating.ts:4-8 | the mark character U+FEFF passes through encoding unchanged |
| PanelRendering.EncodePlainRun | src/utils/templating.ts:4-8 | a non-empty text without marks or line breaks encodes to a non-empty text without them |
| PanelRendering.EncodeMarkFree | src/utils/templating.ts:4-8 | encoding a text without marks adds none |
| PanelRendering.EncodeMarkedRun | src/utils/templating.ts:4-8 | encoding keeps the two marks around a matched word and encodes the text between them |
| PanelRendering.MarkedKeyRendered | src/js/panel-meta.js:252 | `convertMarksToHtml(htmlEncode(markWords(key, [w])))` renders the first match as `<mark>` around the encoded match in its original case, with the encoded text before it and the rest rendered the same way |
| PanelRendering.MarkupKeyRendered | src/js/panel-meta.js:252 | the key `a<b` under the filter word "b" is shown as `a&lt;<mark>b</mark>` |
| Marker.StripSentence | src/utils/marker.test.ts:19-27 | stripping the marked test sentence gives the plain sentence |
| Marker.ConvertSentence | src/utils/marker.test.ts:29-39 | converting the marked test sentence wraps "eu" and "ipsum" in `<mark>` |
| Marker.ConvertTwoRuns | src/utils/marker.ts:26 | two marked runs separated by plain text both become `<mark>` elements and the text between is kept |
| Templating.HtmlRoundTrip | src/utils/templating.ts:4-8 | reading the entities back from `htmlEncode(text)` gives `text`: the encoding loses nothing |
| Templating.HtmlEncodeSafe | src/utils/templating.ts:4-8 | the encoded text holds no `<`, `>` or no-break space, so a value cannot open a tag |
| Templating.HtmlEncodePlain | src/utils/templating.ts:4-8 | text without `&`, `<`, `>` or a no-break space is encoded as itself |
| Templating.EscapeRegex | src/utils/templating.ts:20 | escaping adds characters and removes none |
| Templating.EscapePlainKey | src/utils/templating.ts:20 | a key without regex syntax characters is escaped to itself |
| Templating.EscapeSpecialKey | src/utils/templating.ts:20 | a key with a regex syntax character is escaped to a longer string, so it names a different property |
| Templating.Lookup | src/utils/templating.ts:21 | a property the data does not have reads as "undefined" |
| Templating.LookupFinds | src/utils/templating.ts:21 | with distinct keys, reading the `i`-th key gives the `i`-th value |
| Templating.ReplaceAbsent | src/utils/templating.ts:22 | a global replace of a placeholder that does not occur changes nothing |
| Templating.ReplaceFirst | src/utils/templating.ts:22 | the global replace substitutes the leftmost occurrence and resumes after it |
| Templating.ReplaceOnce | src/utils/templating.ts:22 | a placeholder occurring exactly once is replaced by the replacement and the rest kept |
| Templating.ReplaceKey | src/utils/templating.ts:18-23 | one round of the loop replaces every `__key__` with the value read under the regex-escaped key, HTML-encoded unless `escape` is `false` |
| Templating.ReplacePlaceholders | src/utils/templating.ts:13-26 | the keys are applied in order, each replacing all its placeholders; for keys without regex syntax characters this is the rendering with every key's own value |
| Templating.PlainKeyReplacement | src/utils/templating.ts:20-21 | for plain keys the value read under the escaped key is the key's own value |
| Templating.PlainKeysRenderAsIntended | src/utils/templating.ts:17-24 | with plain, distinct keys the loop as written renders what the corrected rendering gives |
| Templating.RenderFillsPlaceholder | src/utils/templating.test.ts:31-35 | a template with one `__key__` renders with the key's value, HTML-encoded unless `escape` is `false`, and everything else kept |
| Templating.SpecialKeyReadsUndefined | src/utils/templating.ts:20-21 | as written, the key "a.b" fills `__a.b__` with "undefined", where its value "x" is meant |
| Base64.EncodeSextet | src/js/lib.js:110 | every six-bit value has an alphabet character that decodes back to it and is not the pad |
| Base64.SextetOf | src/js/lib.js:121 | an alphabet character decodes to a six-bit value |
| Base64.SextetInverse | src/js/lib.js:121 | decoding then encoding an alphabet character gives it back |
| Base64.Quad | src/js/lib.js:110 | three bytes encode to four alphabet characters |
| Base64.EncodeUnpadded | src/js/lib.js:110 | the encoding before padding uses only the alphabet |
| Base64.UnpaddedLength | src/js/lib.js:110 | `n` bytes give `4 * (n / 3)` characters plus 2 or 3 for a partial group |
| Base64.PaddedLength | src/js/lib.js:110 | with padding the output has `4 * ceil(n / 3)` characters |
| Base64.BtoaShape | src/js/lib.js:110 | `btoa` succeeds exactly on binary strings and then returns `4 * ceil(n / 3)` characters, each of the alphabet or the pad |
| Base64.RemoveWhitespace | src/js/lib.js:121 | `atob` drops every ASCII whitespace character |
| Base64.Group | src/js/lib.js:121 | four sextets decode to three bytes |
| Base64.Atob | src/js/lib.js:121 | a successful `atob` returns a binary string |
| Base64.DecodedIsBinary | src/js/lib.js:121 | decoding alphabet characters gives bytes |
| Base64.AtobFails | src/js/lib.js:121 | `atob` throws exactly when, without whitespace and padding, the length is `4k + 1` or a character is outside the alphabet |
| Base64.QuadRoundTrip | src/js/lib.js:110-121 | the sextets of three bytes decode to those bytes |
| Base64.DecodeUnpadded | src/js/lib.js:110-121 | decoding the unpadded encoding of bytes gives the bytes back |
| Base64.BtoaPaddingDropped | src/js/lib.js:110-121 | removing whitespace and padding from `btoa`'s output gives the unpadded encoding |
| Base64.AtobBtoa | src/js/lib.js:110-121 | `atob(btoa(s)) == s` for every binary string |
| Lib.Salt | src/js/lib.js:105 | `saltId || 42`: a missing salt or a salt of 0 becomes 42, any other salt is kept, and the salt is never 0 |
| Lib.Key | src/js/lib.js:108 | the part of the salt that reaches a 16-bit code unit lies in `[0, 65536)` |
| Lib.XorUnit | src/js/lib.js:108 | `fromCharCode(c ^ salt)` is again a 16-bit code unit |
| Lib.XorAll | src/js/lib.js:107-109 | XORing each unit keeps the length and gives code units |
| Lib.XorBelow | src/js/lib.js:108 | XOR of two `n`-bit numbers is an `n`-bit number: a byte XOR the default salt stays a byte |
| Lib.Crypt | src/js/lib.js:104-111 | `crypt` returns `btoa` of the text with every unit XORed with the salt, or the error `btoa` throws |
| Lib.Decrypt | src/js/lib.js:119-127 | `decrypt` returns the `atob` result with every unit XORed with the salt, or the error `atob` throws |
| Lib.DecodeTemplateName | src/js/lib.js:134-136 | `decodeTemplateName(name)` is `decrypt(name)` with the default salt 42 |
| Lib.XorInvolution | src/js/lib.js:108-124 | XOR with the same key twice gives the number back |
| Lib.XorAllInvolution | src/js/lib.js:107-125 | XORing a text with the same key twice gives the text back |
| Lib.CryptSucceedsIff | src/js/lib.js:104-110 | `crypt` throws exactly when some unit XORed with the salt is not a byte |
| Lib.Latin1AlwaysEncrypts | src/js/lib.js:104-110 | with the default salt every text of bytes can be encrypted |
| Lib.CryptShape | src/js/lib.js:104-110 | the output of `crypt` has `4 * ceil(n / 3)` characters of the base64 alphabet or the pad |
| Lib.CryptRoundTrip | src/js/lib.js:104-127 | `decrypt(crypt(t, s), s) == t` whenever `crypt` does not throw |
| Lib.ReplacePlaceholders | src/js/lib.js:17-29 | the library copy renders exactly what the templating utility renders as written, for distinct keys and values without `$`; for keys without regular-expression syntax that is the intended rendering |

## Left out

- DOM, messaging and lifecycle code are not modelled. This covers ports, the mutation observers, message listeners and tab injection (src/content-script.ts:89-181, src/js/devtools.js:135-165), and the panel's rendering, filter form and severity roll-up.
- The findDuplicates helper that src/panel-meta.ts imports is not part of this model. The duplicate scan modelled is the loop of the panel script.
- `linkUrls` and its URL regular expression are left out. They are regex-engine behaviour with nothing to state beyond examples.
- `getTemplate`, `getClosestComment` and `getAllComments` are left out. They only read the DOM.
- Element trees are left out. An element is a value holding its tag name, attributes and text.
- URL resolution is left out. The browser's resolution of `href` is the parameter `resolve`.
- Regular expressions other than `/utf-8/i` and `/^https?:\/\//` are left out. A rule's other patterns are given by their match predicate (`Regex.Custom`).
- `htmlEncode` is the serialisation of a text node: it escapes `&`, `<`, `>` and the no-break space. Serialisation beyond a single text node is not modelled.
- Strings are sequences of Unicode scalar values, so lengths count characters rather than UTF-16 code units. `Base64` and `Lib` work on explicit sequences of 16-bit code units.
- The data object's `for...in` order is its list order. JavaScript enumerates integer-like keys first; that is not modelled.
- Templating.ReplacePlaceholders: requires values without `$`. The code passes values to `String.prototype.replace` as replacement strings, where `$&`, `$1` and similar would be expanded; that is not modelled.
- Lib.ReplacePlaceholders: requires values without `$`, for the same reason.
- Marker.MarkWords: requires filter words of printable ASCII without regular-expression syntax characters. Words with regex syntax would be read as patterns by `new RegExp`, and non-ASCII words would meet Unicode case folding; neither is modelled.
- Lib.Crypt: the salt is an optional integer. Other falsy salts, such as `""`, `null` or `NaN`, and non-integer salts are not modelled. The code truncates the salt to 32 bits for `^`; the model keeps its low 16 bits, which is what reaches a code unit.
- Devtools.GetPageMeta: requires that each element carries the value attribute of its first applicable mapping. The legacy code reads that attribute without a check and throws a TypeError otherwise; the exception is not modelled.
- ContentScript.GetPageMeta: requires elements of the four selected tags. The code's table lookup has no fallback.
- Rule bounds are natural numbers. The rule types declare `min`, `safe` and `max` as `number` (src/types/Rules.ts:18-42); negative or fractional bounds are not modelled.
- Of the test files' examples, these are proved: every test of the two validators (src/utils/rules.test.ts and src/utils/seo.test.ts), the truncate cases and the marked sentence. Two of the validator tests are proved for every title of the test's length without surrounding whitespace rather than for the test's sentence: the maximum-length test of src/utils/rules.test.ts:154-181 and the pattern test, which is stated for any record whose value is "ansi". The `markWords` sentence and the `escapeHtml`/`render` examples are not evaluated. Those tests also import `escapeHtml` and `render`, which src/utils/templating.ts does not export. `Templating.RenderFillsPlaceholder` states the rendering the `render` test describes.

## Findings

| source | as written | input that shows it | evidently intended | confidence | as-written member | corrected member |
|---|---|---|---|---|---|---|
| src/utils/rules.ts:51-98 | identities are compared with `key === item.key`, so a tag-only identity such as `{ tag: 'title' }` (key `undefined`) never matches a record | the four rules and four records of src/utils/rules.test.ts:210-294 give an empty report | a tag-only identity matches every record of its tag; the test expects four "Element must not occur ..." errors | high, not executed | MetaRuleOrderExamples.GeneralOrderAsWritten | MetaRuleOrderExamples.GeneralOrderIntended |
| src/config/rules.ts:7-20 | the `beforeAll` lists of the base and charset rules hold only tag-only identities, so under the comparison above they never report | any page with a `<link>` before `<base>`, or a `<title>` before `<meta charset>` | base is flagged once per earlier link or script, and charset once per earlier title, meta, base, link, style, script or noscript | high, not executed | CodeRuleFacts.TagRulesOrderingInert | CodeRuleFacts.TagRulesOrderingIntended |
| src/utils/meta.ts:49 | `valueLink` is `getAttribute('href')`, the href as written | `<base href="/">` gives the link "/" | the tests at src/utils/meta.test.ts:61-73 and 135-165 expect the href resolved against the document | high, not executed | Extract.RawHrefDiffersFromResolved | Extract.ResolvedLinks |
| src/utils/templating.ts:20-21 | the key is regex-escaped into the same variable, and the value is then read under the escaped key | template `__a.b__`, data `{ "a.b": "x" }` and escape off render "undefined" (src/js/lib.js:23-24 likewise) | the key's own value "x" is filled in; only the pattern needs the escaped key | high, not executed | Templating.SpecialKeyReadsUndefined | Templating.RenderFillsPlaceholder |
| src/utils/text.test.ts:35 | the expected ending of the long text is the three characters U+00E2 U+20AC U+00A6, the UTF-8 bytes of the ellipsis read as Windows-1252 | `truncate` of the test's long text at 50, which src/utils/text.ts:58-60 ends in U+2026 | the expected value ends in the ellipsis U+2026 | high, not executed | Text.SpelledEllipsisNeverProduced | Text.TruncateExamples |
