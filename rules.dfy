/** The code and Open Graph validator (`validateMeta`): every record is
    checked against every rule that names its tag and key, and a final pass
    reports the required rules no record matched. */
module MetaRules {
  import opened Wrappers
  import opened JsString
  import opened MetaTypes
  import opened Reports

  /** A record identity in a positional constraint; `key` may be left out
      (`{ tag: 'title' }`). */
  datatype Ident = Ident(tag: string, key: Option<string>)

  /** The regular expressions the rule sets use. `/utf-8/i` is unanchored and
      case-insensitive; `/^https?:\/\//` is anchored and case-sensitive; any
      other expression is given by its match predicate. */
  datatype Regex =
    | ContainsUtf8IgnoreCase
    | StartsWithHttpScheme
    | Custom(matches: string -> bool)

  datatype Pattern = Pattern(rx: Regex, message: string)

  /** A custom test: `true` (`Pass`) or a problem to report. */
  type TestFn = (MetaItem, seq<MetaItem>, nat) -> Outcome

  /** A rule of a code rule set. Absent optional members are `None`;
      `required` is `false` when absent. */
  datatype MetaRule = MetaRule(
    tag: string,
    key: Option<string>,
    required: bool,
    min: Option<nat>,
    max: Option<nat>,
    pattern: Option<Pattern>,
    followsAny: Option<seq<Ident>>,
    precedesAny: Option<seq<Ident>>,
    afterAll: Option<seq<Ident>>,
    beforeAll: Option<seq<Ident>>,
    test: Option<TestFn>)

  type MetaIssue = Issue<MetaRule>

  /** A rule with only its tag and key; the rule sets add the other members. */
  function Rule(tag: string, key: string): MetaRule {
    MetaRule(tag, Some(key), false, None, None, None, None, None, None, None, None)
  }

  predicate IsPrefix(p: string, s: string) {
    |p| <= |s| && s[..|p|] == p
  }

  /** "utf-8", in any case, starts at position `i` of the value. */
  predicate Utf8At(value: string, i: int) {
    0 <= i && i + 5 <= |value| && EqualsIgnoreCase(value[i..i + 5], "utf-8")
  }

  /** `value.match(rx)` is not null. */
  predicate RegexMatches(rx: Regex, value: string) {
    match rx
    case ContainsUtf8IgnoreCase => exists i :: 0 <= i <= |value| && Utf8At(value, i)
    case StartsWithHttpScheme => IsPrefix("http://", value) || IsPrefix("https://", value)
    case Custom(f) => f(value)
  }

  /** `item.tag === rule.tag && item.key === rule.key` */
  predicate RuleMatches(rule: MetaRule, item: MetaItem) {
    item.tag == rule.tag && rule.key == Some(item.key)
  }

  /** How an identity's key is compared. `KeyAlways` is the code:
      `key === item.key` even when the identity has no key, which never holds
      for a record. `KeyIfGiven` is what the rule sets and tests expect: an
      identity without a key matches every record of its tag. */
  datatype KeyComparison = KeyAlways | KeyIfGiven

  predicate IdentMatches(mode: KeyComparison, id: Ident, item: MetaItem) {
    id.tag == item.tag && (id.key == Some(item.key) || (mode == KeyIfGiven && id.key.None?))
  }

  /** `ids.some(({ tag, key }) => tag === item.tag && key === item.key)` */
  predicate AnyMatches(mode: KeyComparison, ids: seq<Ident>, item: MetaItem) {
    exists i :: 0 <= i < |ids| && IdentMatches(mode, ids[i], item)
  }

  /** `${item.tag}:${item.key}`, where a missing key prints as "undefined". */
  function IdentText(id: Ident): string {
    id.tag + ":" + id.key.GetOr("undefined")
  }

  /** `ids.map(IdentText).join(', ')` */
  function IdentsText(ids: seq<Ident>): string
    decreases |ids|
  {
    if |ids| == 0 then ""
    else if |ids| == 1 then IdentText(ids[0])
    else IdentsText(ids[..|ids| - 1]) + ", " + IdentText(ids[|ids| - 1])
  }

  /** A violating record is named by its tag alone when tag and key agree. */
  function ViolatorText(item: MetaItem): string {
    if item.tag == item.key then item.tag else item.tag + ":" + item.key
  }

  /** `items.filter(item => AnyMatches(ids, item))` */
  function Violators(mode: KeyComparison, items: seq<MetaItem>, ids: seq<Ident>): seq<MetaItem>
    decreases |items|
  {
    if items == [] then []
    else
      var last := items[|items| - 1];
      Violators(mode, items[..|items| - 1], ids) + (if AnyMatches(mode, ids, last) then [last] else [])
  }

  // ---------------------------------------------------------------------
  // The checks of one (record, rule) pair, in the order the code runs them
  // ---------------------------------------------------------------------

  const MinNotReached := " - minimum length not reached"

  /** The verdict on a trimmed length: empty, then maximum, then minimum. */
  function LengthOutcome(len: nat, min: Option<nat>, max: Option<nat>): Outcome {
    if len < 1 then Problem(Error, EmptyValue)
    else if IsSet(max) && len > max.value then Problem(Error, LengthMessage(len, max.value, MaxExceeded))
    else if IsSet(min) && len < min.value then Problem(Error, LengthMessage(len, min.value, MinNotReached))
    else Pass
  }

  /** A problem becomes one issue of the rule about the record. */
  function Raise(outcome: Outcome, rule: MetaRule, item: MetaItem): seq<MetaIssue> {
    match outcome
    case Pass => []
    case Problem(severity, message) => [Issue(severity, message, rule, Some(item))]
  }

  function LengthIssues(rule: MetaRule, item: MetaItem): seq<MetaIssue> {
    Raise(LengthOutcome(|Trim(item.value)|, rule.min, rule.max), rule, item)
  }

  /** The pattern is tried on the raw value, not the trimmed one. */
  function PatternIssues(rule: MetaRule, item: MetaItem): seq<MetaIssue> {
    match rule.pattern
    case None => []
    case Some(p) => if RegexMatches(p.rx, item.value) then [] else [Issue(Error, p.message, rule, Some(item))]
  }

  function PrecedesMessage(ids: seq<Ident>): string {
    "Element must precede one of " + IdentsText(ids)
  }

  function FollowsMessage(ids: seq<Ident>): string {
    "Element must follow one of " + IdentsText(ids)
  }

  function PrecedesIssues(mode: KeyComparison, meta: seq<MetaItem>, idx: nat, rule: MetaRule): seq<MetaIssue>
    requires idx < |meta|
  {
    match rule.precedesAny
    case None => []
    case Some(ids) =>
      if idx + 1 < |meta| && AnyMatches(mode, ids, meta[idx + 1]) then []
      else [Issue(Error, PrecedesMessage(ids), rule, Some(meta[idx]))]
  }

  function FollowsIssues(mode: KeyComparison, meta: seq<MetaItem>, idx: nat, rule: MetaRule): seq<MetaIssue>
    requires idx < |meta|
  {
    match rule.followsAny
    case None => []
    case Some(ids) =>
      if idx > 0 && AnyMatches(mode, ids, meta[idx - 1]) then []
      else [Issue(Error, FollowsMessage(ids), rule, Some(meta[idx]))]
  }

  /** One "Element must not occur {after|before} ..." error per violator, in order. */
  function OrderIssues(violators: seq<MetaItem>, position: string, rule: MetaRule, item: MetaItem): seq<MetaIssue>
    decreases |violators|
  {
    if violators == [] then []
    else
      OrderIssues(violators[..|violators| - 1], position, rule, item)
      + [Issue(Error, "Element must not occur " + position + " " + ViolatorText(violators[|violators| - 1]), rule, Some(item))]
  }

  function BeforeAllIssues(mode: KeyComparison, meta: seq<MetaItem>, idx: nat, rule: MetaRule): seq<MetaIssue>
    requires idx < |meta|
  {
    match rule.beforeAll
    case None => []
    case Some(ids) => OrderIssues(Violators(mode, meta[..idx], ids), "after", rule, meta[idx])
  }

  function AfterAllIssues(mode: KeyComparison, meta: seq<MetaItem>, idx: nat, rule: MetaRule): seq<MetaIssue>
    requires idx < |meta|
  {
    match rule.afterAll
    case None => []
    case Some(ids) => OrderIssues(Violators(mode, meta[idx + 1..], ids), "before", rule, meta[idx])
  }

  /** A problem from the custom test, with the rule and the record added. */
  function TestIssues(meta: seq<MetaItem>, idx: nat, rule: MetaRule): seq<MetaIssue>
    requires idx < |meta|
  {
    match rule.test
    case None => []
    case Some(f) => Raise(f(meta[idx], meta, idx), rule, meta[idx])
  }

  /** Everything one rule reports about the record at `idx`. */
  function PairIssues(mode: KeyComparison, meta: seq<MetaItem>, idx: nat, rule: MetaRule): seq<MetaIssue>
    requires idx < |meta|
  {
    if !RuleMatches(rule, meta[idx]) then []
    else
      LengthIssues(rule, meta[idx]) + PatternIssues(rule, meta[idx])
      + PrecedesIssues(mode, meta, idx, rule) + FollowsIssues(mode, meta, idx, rule)
      + BeforeAllIssues(mode, meta, idx, rule) + AfterAllIssues(mode, meta, idx, rule)
      + TestIssues(meta, idx, rule)
  }

  /** The issues of the record at `idx`, rule by rule. */
  function RecordIssues(mode: KeyComparison, meta: seq<MetaItem>, idx: nat, rules: seq<MetaRule>): seq<MetaIssue>
    requires idx < |meta|
    decreases |rules|
  {
    if rules == [] then []
    else RecordIssues(mode, meta, idx, rules[..|rules| - 1]) + PairIssues(mode, meta, idx, rules[|rules| - 1])
  }

  /** The issues of the first `n` records, record by record. */
  function PerRecordIssues(mode: KeyComparison, meta: seq<MetaItem>, rules: seq<MetaRule>, n: nat): seq<MetaIssue>
    requires n <= |meta|
  {
    if n == 0 then []
    else PerRecordIssues(mode, meta, rules, n - 1) + RecordIssues(mode, meta, n - 1, rules)
  }

  /** `meta.find(item => item.tag === rule.tag && item.key === rule.key)` succeeds. */
  predicate Found(meta: seq<MetaItem>, rule: MetaRule) {
    exists i :: 0 <= i < |meta| && RuleMatches(rule, meta[i])
  }

  /** The final pass: one "Element is missing" per required rule without a record. */
  function MissingIssues(meta: seq<MetaItem>, rules: seq<MetaRule>): seq<MetaIssue>
    decreases |rules|
  {
    if rules == [] then []
    else
      var rule := rules[|rules| - 1];
      MissingIssues(meta, rules[..|rules| - 1])
      + (if rule.required && !Found(meta, rule) then [Issue(Error, MissingElement, rule, None)] else [])
  }

  function MetaIssuesWith(mode: KeyComparison, meta: seq<MetaItem>, rules: seq<MetaRule>): seq<MetaIssue> {
    PerRecordIssues(mode, meta, rules, |meta|) + MissingIssues(meta, rules)
  }

  /** The report `validateMeta` returns. */
  function MetaIssues(meta: seq<MetaItem>, rules: seq<MetaRule>): seq<MetaIssue> {
    MetaIssuesWith(KeyAlways, meta, rules)
  }

  /** The report the rule sets and tests expect, with keyless identities
      matching by tag. */
  function IntendedMetaIssues(meta: seq<MetaItem>, rules: seq<MetaRule>): seq<MetaIssue> {
    MetaIssuesWith(KeyIfGiven, meta, rules)
  }

  // ---------------------------------------------------------------------
  // The validator
  // ---------------------------------------------------------------------

  lemma {:induction false} AppendAssoc<T>(a: seq<T>, b: seq<T>, c: seq<T>)
    ensures (a + b) + c == a + (b + c)
  {
  }

  /** `validateMeta(meta, rules)` */
  method ValidateMeta(meta: seq<MetaItem>, rules: seq<MetaRule>) returns (issues: seq<MetaIssue>)
    ensures issues == MetaIssues(meta, rules)
  {
    issues := [];
    for idx := 0 to |meta|
      invariant issues == PerRecordIssues(KeyAlways, meta, rules, idx)
    {
      issues := CheckRecord(issues, meta, idx, rules);
    }
    issues := PushMissingIssues(issues, meta, rules);
  }

  /** The inner loop over the rules for the record at `idx`. */
  method CheckRecord(issues: seq<MetaIssue>, meta: seq<MetaItem>, idx: nat, rules: seq<MetaRule>) returns (result: seq<MetaIssue>)
    requires idx < |meta|
    ensures result == issues + RecordIssues(KeyAlways, meta, idx, rules)
  {
    var item := meta[idx];
    result := issues;
    for j := 0 to |rules|
      invariant result == issues + RecordIssues(KeyAlways, meta, idx, rules[..j])
    {
      assert rules[..j + 1][..j] == rules[..j];
      var rule := rules[j];
      ghost var before := result;
      if item.tag == rule.tag && rule.key == Some(item.key) {
        var found := CheckPair(meta, idx, rule);
        result := result + found;
      }
      assert result == before + PairIssues(KeyAlways, meta, idx, rule);
      AppendAssoc(issues, RecordIssues(KeyAlways, meta, idx, rules[..j]), PairIssues(KeyAlways, meta, idx, rule));
    }
    assert rules[..|rules|] == rules;
  }

  /** The final loop over the rules. */
  method PushMissingIssues(issues: seq<MetaIssue>, meta: seq<MetaItem>, rules: seq<MetaRule>) returns (result: seq<MetaIssue>)
    ensures result == issues + MissingIssues(meta, rules)
  {
    result := issues;
    for j := 0 to |rules|
      invariant result == issues + MissingIssues(meta, rules[..j])
    {
      assert rules[..j + 1][..j] == rules[..j];
      var rule := rules[j];
      if rule.required && !Found(meta, rule) {
        result := result + [Issue(Error, MissingElement, rule, None)];
      }
    }
    assert rules[..|rules|] == rules;
  }

  /** The body of the inner loop for a rule that matches the record: the
      checks push their issues one after the other. */
  method CheckPair(meta: seq<MetaItem>, idx: nat, rule: MetaRule) returns (issues: seq<MetaIssue>)
    requires idx < |meta| && RuleMatches(rule, meta[idx])
    ensures issues == PairIssues(KeyAlways, meta, idx, rule)
  {
    var item := meta[idx];
    issues := PushLengthIssues([], rule, item);
    assert issues == LengthIssues(rule, item);
    issues := PushPatternIssues(issues, rule, item);
    issues := PushPositionIssues(issues, meta, idx, rule);
    if rule.beforeAll.Some? {
      var violatingItems := Violators(KeyAlways, meta[..idx], rule.beforeAll.value);
      issues := PushOrderIssues(issues, violatingItems, "after", rule, item);
    } else {
      assert issues == issues + BeforeAllIssues(KeyAlways, meta, idx, rule);
    }
    if rule.afterAll.Some? {
      var violatingItems := Violators(KeyAlways, meta[idx + 1..], rule.afterAll.value);
      issues := PushOrderIssues(issues, violatingItems, "before", rule, item);
    } else {
      assert issues == issues + AfterAllIssues(KeyAlways, meta, idx, rule);
    }
    assert issues == LengthIssues(rule, item) + PatternIssues(rule, item)
      + PrecedesIssues(KeyAlways, meta, idx, rule) + FollowsIssues(KeyAlways, meta, idx, rule)
      + BeforeAllIssues(KeyAlways, meta, idx, rule) + AfterAllIssues(KeyAlways, meta, idx, rule);
    issues := PushTestIssues(issues, meta, idx, rule);
  }

  /** A non-true test result is copied with the rule and the record added. */
  method PushTestIssues(issues: seq<MetaIssue>, meta: seq<MetaItem>, idx: nat, rule: MetaRule) returns (result: seq<MetaIssue>)
    requires idx < |meta|
    ensures result == issues + TestIssues(meta, idx, rule)
  {
    result := issues;
    if rule.test.Some? {
      var outcome := rule.test.value(meta[idx], meta, idx);
      if outcome.Problem? {
        result := result + [Issue(outcome.severity, outcome.message, rule, Some(meta[idx]))];
      }
    }
  }

  method PushLengthIssues(issues: seq<MetaIssue>, rule: MetaRule, item: MetaItem) returns (result: seq<MetaIssue>)
    ensures result == issues + LengthIssues(rule, item)
  {
    var cleanValue := Trim(item.value);
    result := issues;
    if |cleanValue| < 1 {
      result := result + [Issue(Error, EmptyValue, rule, Some(item))];
    } else if IsSet(rule.max) && |cleanValue| > rule.max.value {
      result := result + [Issue(Error, LengthMessage(|cleanValue|, rule.max.value, MaxExceeded), rule, Some(item))];
    } else if IsSet(rule.min) && |cleanValue| < rule.min.value {
      result := result + [Issue(Error, LengthMessage(|cleanValue|, rule.min.value, MinNotReached), rule, Some(item))];
    }
  }

  method PushPatternIssues(issues: seq<MetaIssue>, rule: MetaRule, item: MetaItem) returns (result: seq<MetaIssue>)
    ensures result == issues + PatternIssues(rule, item)
  {
    result := issues;
    if rule.pattern.Some? && !RegexMatches(rule.pattern.value.rx, item.value) {
      result := result + [Issue(Error, rule.pattern.value.message, rule, Some(item))];
    }
  }

  /** The `precedesAny` and `followsAny` checks. */
  method PushPositionIssues(issues: seq<MetaIssue>, meta: seq<MetaItem>, idx: nat, rule: MetaRule) returns (result: seq<MetaIssue>)
    requires idx < |meta|
    ensures result == issues + PrecedesIssues(KeyAlways, meta, idx, rule) + FollowsIssues(KeyAlways, meta, idx, rule)
  {
    result := issues;
    if rule.precedesAny.Some? {
      var mandatoryNextItems := rule.precedesAny.value;
      if !(idx + 1 < |meta|) || !AnyMatches(KeyAlways, mandatoryNextItems, meta[idx + 1]) {
        result := result + [Issue(Error, PrecedesMessage(mandatoryNextItems), rule, Some(meta[idx]))];
      }
    }
    if rule.followsAny.Some? {
      var mandatoryPrevItems := rule.followsAny.value;
      if !(idx > 0) || !AnyMatches(KeyAlways, mandatoryPrevItems, meta[idx - 1]) {
        result := result + [Issue(Error, FollowsMessage(mandatoryPrevItems), rule, Some(meta[idx]))];
      }
    }
  }

  /** `for (const { tag, key } of violatingItems) issues.push(...)` */
  method PushOrderIssues(issues: seq<MetaIssue>, violatingItems: seq<MetaItem>, position: string, rule: MetaRule, item: MetaItem)
    returns (result: seq<MetaIssue>)
    ensures result == issues + OrderIssues(violatingItems, position, rule, item)
  {
    result := issues;
    for k := 0 to |violatingItems|
      invariant result == issues + OrderIssues(violatingItems[..k], position, rule, item)
    {
      assert violatingItems[..k + 1][..k] == violatingItems[..k];
      var v := violatingItems[k];
      result := result + [Issue(Error, "Element must not occur " + position + " " + ViolatorText(v), rule, Some(item))];
    }
    assert violatingItems[..|violatingItems|] == violatingItems;
  }
}
