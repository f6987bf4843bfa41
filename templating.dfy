/** Template rendering for the panel: `htmlEncode` (a text node serialised
    by `innerHTML`) and `replacePlaceholders`, which substitutes every
    `__key__` of a template with the (escaped) value of `key`, key by key. */
module Templating {
  import opened Wrappers

  // ---------------------------------------------------------------------
  // htmlEncode
  // ---------------------------------------------------------------------

  const NoBreakSpace: char := '\U{00A0}'

  /** How the HTML serialiser writes one character of a text node. */
  function EncodeChar(c: char): string {
    if c == '&' then "&amp;"
    else if c == NoBreakSpace then "&nbsp;"
    else if c == '<' then "&lt;"
    else if c == '>' then "&gt;"
    else [c]
  }

  /** `htmlEncode(text)`: the `innerHTML` of a `div` holding one text node. */
  function HtmlEncode(text: string): string
    decreases |text|
  {
    if text == [] then [] else EncodeChar(text[0]) + HtmlEncode(text[1..])
  }

  /** Reads the four entities back: the partner of HtmlEncode. */
  function HtmlDecode(s: string): string
    decreases |s|
  {
    if s == [] then []
    else if "&amp;" <= s then "&" + HtmlDecode(s[5..])
    else if "&nbsp;" <= s then [NoBreakSpace] + HtmlDecode(s[6..])
    else if "&lt;" <= s then "<" + HtmlDecode(s[4..])
    else if "&gt;" <= s then ">" + HtmlDecode(s[4..])
    else [s[0]] + HtmlDecode(s[1..])
  }

  lemma {:induction false} DecodeEncodedChar(c: char, rest: string)
    ensures HtmlDecode(EncodeChar(c) + rest) == [c] + HtmlDecode(rest)
  {
    var s := EncodeChar(c) + rest;
    if c == '&' {
      assert s[..5] == "&amp;" && s[5..] == rest;
    } else if c == NoBreakSpace {
      assert s[..6] == "&nbsp;" && s[6..] == rest;
      assert !("&amp;" <= s) by { assert s[1] == 'n'; }
    } else if c == '<' {
      assert s[..4] == "&lt;" && s[4..] == rest;
      assert !("&amp;" <= s) && !("&nbsp;" <= s) by { assert s[1] == 'l'; }
    } else if c == '>' {
      assert s[..4] == "&gt;" && s[4..] == rest;
      assert !("&amp;" <= s) && !("&nbsp;" <= s) && !("&lt;" <= s) by { assert s[1] == 'g'; }
    } else {
      assert s[0] == c && s[1..] == rest;
    }
  }

  /** Encoding loses nothing: decoding gives the text back. */
  lemma {:induction false} HtmlRoundTrip(text: string)
    ensures HtmlDecode(HtmlEncode(text)) == text
    decreases |text|
  {
    if text != [] {
      HtmlRoundTrip(text[1..]);
      DecodeEncodedChar(text[0], HtmlEncode(text[1..]));
    }
  }

  /** The encoded text holds no markup: no `<`, no `>` and no raw no-break space. */
  lemma {:induction false} HtmlEncodeSafe(text: string)
    ensures forall i :: 0 <= i < |HtmlEncode(text)| ==>
      HtmlEncode(text)[i] != '<' && HtmlEncode(text)[i] != '>' && HtmlEncode(text)[i] != NoBreakSpace
    decreases |text|
  {
    if text != [] {
      HtmlEncodeSafe(text[1..]);
    }
  }

  /** Text without the four special characters, quotes included, is left as it is. */
  lemma {:induction false} HtmlEncodePlain(text: string)
    requires forall i :: 0 <= i < |text| ==> text[i] !in {'&', '<', '>', NoBreakSpace}
    ensures HtmlEncode(text) == text
    decreases |text|
  {
    if text != [] {
      HtmlEncodePlain(text[1..]);
    }
  }

  // ---------------------------------------------------------------------
  // One global replacement
  // ---------------------------------------------------------------------

  /** `pat` occurs somewhere in `s`. */
  predicate Occurs(s: string, pat: string)
    decreases |s|
  {
    pat <= s || (s != [] && Occurs(s[1..], pat))
  }

  /** An occurrence at any position is found. */
  lemma {:induction false} OccursAt(s: string, pat: string, p: nat)
    requires p + |pat| <= |s| && s[p..p + |pat|] == pat
    ensures Occurs(s, pat)
    decreases p
  {
    if p == 0 {
      assert s[..|pat|] == pat;
    } else {
      assert s[1..][p - 1..p - 1 + |pat|] == s[p..p + |pat|];
      OccursAt(s[1..], pat, p - 1);
    }
  }

  /** And whatever is found is an occurrence at some position. */
  lemma {:induction false} OccursWitness(s: string, pat: string) returns (p: nat)
    requires Occurs(s, pat)
    ensures p + |pat| <= |s| && s[p..p + |pat|] == pat
    decreases |s|
  {
    if pat <= s {
      p := 0;
      assert s[..|pat|] == pat;
    } else {
      var q := OccursWitness(s[1..], pat);
      p := q + 1;
      assert s[1..][q..q + |pat|] == s[p..p + |pat|];
    }
  }

  /** `s.replace(new RegExp(pattern, 'g'), rep)` for a pattern that matches
      the literal `pat` and a replacement without `$`: one left-to-right pass
      that replaces each occurrence and resumes after it. */
  function ReplaceAll(s: string, pat: string, rep: string): string
    requires pat != []
    decreases |s|
  {
    if pat <= s then rep + ReplaceAll(s[|pat|..], pat, rep)
    else if s == [] then []
    else [s[0]] + ReplaceAll(s[1..], pat, rep)
  }

  /** A template without the placeholder is returned unchanged. */
  lemma {:induction false} ReplaceAbsent(s: string, pat: string, rep: string)
    requires pat != [] && !Occurs(s, pat)
    ensures ReplaceAll(s, pat, rep) == s
    decreases |s|
  {
    if s != [] {
      ReplaceAbsent(s[1..], pat, rep);
    }
  }

  /** The pass is leftmost and non-overlapping: the text before the first
      occurrence is kept, the occurrence becomes `rep` and the pass resumes
      right after it. No occurrence starts inside `a` exactly when none lies
      within `a` followed by all but the last character of `pat`. */
  lemma {:induction false} ReplaceFirst(a: string, pat: string, b: string, rep: string)
    requires pat != [] && !Occurs(a + pat[..|pat| - 1], pat)
    ensures ReplaceAll(a + pat + b, pat, rep) == a + (rep + ReplaceAll(b, pat, rep))
    decreases |a|
  {
    var s := a + pat + b;
    if a == [] {
      assert s == pat + b && s[|pat|..] == b;
      assert a + (rep + ReplaceAll(b, pat, rep)) == rep + ReplaceAll(b, pat, rep);
    } else {
      var t := a[1..] + pat + b;
      assert s == [a[0]] + t;
      var u := a + pat[..|pat| - 1];
      assert u[1..] == a[1..] + pat[..|pat| - 1];
      assert !(pat <= u);
      assert u[..|pat|] == s[..|pat|];
      assert !(pat <= s);
      ReplaceFirst(a[1..], pat, b, rep);
      ReplaceSkip(a[0], t, pat, rep);
      var tail := rep + ReplaceAll(b, pat, rep);
      assert [a[0]] + (a[1..] + tail) == a + tail by {
        assert [a[0]] + a[1..] == a;
      }
    }
  }

  lemma {:induction false} ReplaceSkip(c: char, t: string, pat: string, rep: string)
    requires pat != [] && !(pat <= [c] + t)
    ensures ReplaceAll([c] + t, pat, rep) == [c] + ReplaceAll(t, pat, rep)
  {
    var s := [c] + t;
    assert s[0] == c && s[1..] == t;
  }

  // ---------------------------------------------------------------------
  // replacePlaceholders
  // ---------------------------------------------------------------------

  /** The characters the source escapes before building the pattern. */
  predicate IsRegexSpecial(c: char) {
    c in ".*+?^=!:${}()|[]/\\"
  }

  /** `placeholder.replace(/([.*+?\^=!:${}()|\[\]\/\\])/g, '\\$1')` */
  function EscapeRegex(key: string): (r: string)
    ensures |r| >= |key|
    decreases |key|
  {
    if key == [] then []
    else (if IsRegexSpecial(key[0]) then ['\\', key[0]] else [key[0]]) + EscapeRegex(key[1..])
  }

  /** A key without special characters is its own escape. */
  lemma {:induction false} EscapePlainKey(key: string)
    requires forall i :: 0 <= i < |key| ==> !IsRegexSpecial(key[i])
    ensures EscapeRegex(key) == key
    decreases |key|
  {
    if key != [] {
      EscapePlainKey(key[1..]);
    }
  }

  /** A key with a special character escapes to a different, longer string. */
  lemma {:induction false} EscapeSpecialKey(key: string)
    requires exists i :: 0 <= i < |key| && IsRegexSpecial(key[i])
    ensures |EscapeRegex(key)| > |key|
    decreases |key|
  {
    if !IsRegexSpecial(key[0]) {
      var i :| 0 <= i < |key| && IsRegexSpecial(key[i]);
      assert IsRegexSpecial(key[1..][i - 1]);
      EscapeSpecialKey(key[1..]);
    }
  }

  /** The data object: its own enumerable properties in `for...in` order. */
  type Data = seq<(string, string)>

  predicate DistinctKeys(data: Data) {
    forall i, j :: 0 <= i < j < |data| ==> data[i].0 != data[j].0
  }

  /** No key holds a character the source escapes. */
  predicate PlainKeys(data: Data) {
    forall i :: 0 <= i < |data| ==> forall j :: 0 <= j < |data[i].0| ==> !IsRegexSpecial(data[i].0[j])
  }

  /** `data[key]`, with a missing property read as `undefined`, whose text
      is "undefined" both for a text node and for `String.prototype.replace`. */
  function Lookup(data: Data, key: string): (v: string)
    ensures (forall i :: 0 <= i < |data| ==> data[i].0 != key) ==> v == "undefined"
    decreases |data|
  {
    if data == [] then "undefined"
    else if data[0].0 == key then data[0].1
    else Lookup(data[1..], key)
  }

  lemma {:induction false} LookupFinds(data: Data, i: nat)
    requires DistinctKeys(data) && i < |data|
    ensures Lookup(data, data[i].0) == data[i].1
    decreases i
  {
    if i > 0 {
      assert DistinctKeys(data[1..]) by {
        forall a, b | 0 <= a < b < |data[1..]|
          ensures data[1..][a].0 != data[1..][b].0
        {
          assert data[1..][a] == data[a + 1] && data[1..][b] == data[b + 1];
        }
      }
      LookupFinds(data[1..], i - 1);
    }
  }

  /** `escape = escape !== false`: only an explicit `false` turns escaping off. */
  function EscapeOn(escape: Option<bool>): bool {
    escape != Some(false)
  }

  function Placeholder(key: string): string {
    "__" + key + "__"
  }

  /** The replacement the source computes for the `n`-th key: the value is
      read under the regex-escaped key. */
  function ReplacementAsWritten(data: Data, n: nat, escape: Option<bool>): string
    requires n < |data|
  {
    var raw := Lookup(data, EscapeRegex(data[n].0));
    if EscapeOn(escape) then HtmlEncode(raw) else raw
  }

  /** The replacement the source evidently means: the key's own value. */
  function Replacement(data: Data, n: nat, escape: Option<bool>): string
    requires n < |data|
  {
    if EscapeOn(escape) then HtmlEncode(data[n].1) else data[n].1
  }

  /** The first `n` keys applied in order, as the loop runs. */
  function RenderAsWritten(html: string, data: Data, n: nat, escape: Option<bool>): string
    requires n <= |data|
    decreases n
  {
    if n == 0 then html
    else ReplaceAll(RenderAsWritten(html, data, n - 1, escape), Placeholder(data[n - 1].0),
      ReplacementAsWritten(data, n - 1, escape))
  }

  /** The corrected rendering: every key's own value. */
  function Render(html: string, data: Data, n: nat, escape: Option<bool>): string
    requires n <= |data|
    decreases n
  {
    if n == 0 then html
    else ReplaceAll(Render(html, data, n - 1, escape), Placeholder(data[n - 1].0),
      Replacement(data, n - 1, escape))
  }

  /** One round of the loop: the key is regex-escaped, its value read under
      the escaped key and encoded unless `escape` is `false`, and every
      `__key__` of `html` replaced. */
  method ReplaceKey(html: string, data: Data, n: nat, escape: Option<bool>) returns (r: string)
    requires n < |data|
    ensures r == ReplaceAll(html, Placeholder(data[n].0), ReplacementAsWritten(data, n, escape))
  {
    var escapeOn := escape != Some(false);
    var placeholder := data[n].0;
    placeholder := EscapeRegex(placeholder);
    var replacement := if escapeOn then HtmlEncode(Lookup(data, placeholder)) else Lookup(data, placeholder);
    r := ReplaceAll(html, Placeholder(data[n].0), replacement);
  }

  /** `replacePlaceholders(html, data, escape)` as written. */
  method ReplacePlaceholders(html: string, data: Data, escape: Option<bool>) returns (r: string)
    requires DistinctKeys(data)
    requires forall i :: 0 <= i < |data| ==> '$' !in data[i].1
    ensures r == RenderAsWritten(html, data, |data|, escape)
    ensures PlainKeys(data) ==> r == Render(html, data, |data|, escape)
  {
    r := html;
    for n := 0 to |data|
      invariant r == RenderAsWritten(html, data, n, escape)
    {
      r := ReplaceKey(r, data, n, escape);
    }
    if PlainKeys(data) {
      PlainKeysRenderAsIntended(html, data, |data|, escape);
    }
  }

  /** A key without special characters reads its own value. */
  lemma {:induction false} PlainKeyReplacement(data: Data, n: nat, escape: Option<bool>)
    requires n < |data| && DistinctKeys(data) && PlainKeys(data)
    ensures ReplacementAsWritten(data, n, escape) == Replacement(data, n, escape)
  {
    var key := data[n].0;
    assert forall j :: 0 <= j < |key| ==> !IsRegexSpecial(key[j]);
    EscapePlainKey(key);
    LookupFinds(data, n);
  }

  lemma {:induction false} PlainKeysRenderAsIntended(html: string, data: Data, n: nat, escape: Option<bool>)
    requires n <= |data| && DistinctKeys(data) && PlainKeys(data)
    ensures RenderAsWritten(html, data, n, escape) == Render(html, data, n, escape)
    decreases n
  {
    if n > 0 {
      var before := RenderAsWritten(html, data, n - 1, escape);
      var rep := ReplacementAsWritten(data, n - 1, escape);
      assert RenderAsWritten(html, data, n, escape) == ReplaceAll(before, Placeholder(data[n - 1].0), rep);
      PlainKeysRenderAsIntended(html, data, n - 1, escape);
      PlainKeyReplacement(data, n - 1, escape);
      assert Render(html, data, n, escape) == ReplaceAll(before, Placeholder(data[n - 1].0), rep);
    }
  }

  /** One occurrence, replaced. */
  lemma {:induction false} ReplaceOnce(a: string, pat: string, b: string, rep: string)
    requires pat != [] && !Occurs(a + pat[..|pat| - 1], pat) && !Occurs(b, pat)
    ensures ReplaceAll(a + pat + b, pat, rep) == a + rep + b
  {
    ReplaceFirst(a, pat, b, rep);
    ReplaceAbsent(b, pat, rep);
  }

  /** The corrected rendering puts a key's own value, encoded unless
      escaping is off, where its placeholder stood, whatever characters the
      key holds. */
  lemma {:induction false} RenderFillsPlaceholder(a: string, key: string, value: string, b: string, escape: Option<bool>)
    requires !Occurs(a + Placeholder(key)[..|Placeholder(key)| - 1], Placeholder(key))
    requires !Occurs(b, Placeholder(key))
    ensures Render(a + Placeholder(key) + b, [(key, value)], 1, escape)
      == a + (if EscapeOn(escape) then HtmlEncode(value) else value) + b
  {
    ReplaceOnce(a, Placeholder(key), b, Replacement([(key, value)], 0, escape));
  }

  // ---------------------------------------------------------------------
  // A key with a special character
  // ---------------------------------------------------------------------

  lemma {:induction false} ReplaceWhole(pat: string, rep: string)
    requires pat != []
    ensures ReplaceAll(pat, pat, rep) == rep
  {
    assert pat[|pat|..] == [];
  }

  /** The key `a.b` with value `x`, rendered into `__a.b__` without escaping:
      the code looks the value up under the escaped key `a\.b`, finds
      nothing and renders "undefined", where `x` is meant. */
  lemma {:induction false} SpecialKeyReadsUndefined()
    ensures RenderAsWritten("__a.b__", [("a.b", "x")], 1, Some(false)) == "undefined"
    ensures Render("__a.b__", [("a.b", "x")], 1, Some(false)) == "x"
  {
    var key := "a.b";
    assert IsRegexSpecial(key[1]);
    EscapeSpecialKey(key);
    assert Placeholder(key) == "__a.b__";
    ReplaceWhole("__a.b__", "undefined");
    ReplaceWhole("__a.b__", "x");
  }
}
