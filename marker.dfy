/** Word marking for the filter highlight: `markWords` wraps every match of
    a filter word in the invisible mark character U+FEFF, `stripWordMarks`
    removes the marks again and `convertMarksToHtml` turns each marked run
    into a `<mark>` element. The panel script carries the same three
    functions. */
module Marker {
  import opened Wrappers
  import opened JsString

  /** `MARK_CHAR`, the zero width no-break space. */
  const Mark: char := '\U{FEFF}'

  predicate MarkFree(s: string) {
    forall i :: 0 <= i < |s| ==> s[i] != Mark
  }

  // ---------------------------------------------------------------------
  // markWords
  // ---------------------------------------------------------------------

  /** A character that `new RegExp('(' + word + ')', 'gi')` reads as itself:
      printable ASCII other than the pattern syntax characters. */
  predicate IsLiteralChar(c: char) {
    ' ' <= c <= '~' && c !in "^$\\.*+?()[]{}|"
  }

  predicate IsLiteralWord(w: string) {
    forall i :: 0 <= i < |w| ==> IsLiteralChar(w[i])
  }

  /** A case-insensitive occurrence of `w` starts at `p`. */
  predicate MatchAt(s: string, p: nat, w: string) {
    p + |w| <= |s| && EqualsIgnoreCase(s[p..p + |w|], w)
  }

  /** `s.replace(new RegExp('(' + w + ')', 'gi'), MARK + '$1' + MARK)` for a
      literal, non-empty `w`: one left-to-right pass that wraps each match,
      in its original case, and resumes after it. */
  function MarkWord(s: string, w: string): string
    requires w != []
    decreases |s|
  {
    if MatchAt(s, 0, w) then [Mark] + s[..|w|] + [Mark] + MarkWord(s[|w|..], w)
    else if s == [] then []
    else [s[0]] + MarkWord(s[1..], w)
  }

  /** The words applied in order; an empty word leaves the string as it is. */
  function MarkAll(s: string, words: seq<string>): string
    decreases |words|
  {
    if words == [] then s
    else
      var t := MarkAll(s, words[..|words| - 1]);
      var w := words[|words| - 1];
      if |w| > 0 then MarkWord(t, w) else t
  }

  /** `markWords(string, words)`: `null` leaves the string alone, otherwise
      every word is applied in turn. */
  method MarkWords(s: string, words: Option<seq<string>>) returns (r: string)
    requires words.Some? ==> forall i :: 0 <= i < |words.value| ==> IsLiteralWord(words.value[i])
    ensures words.None? ==> r == s
    ensures words.Some? ==> r == MarkAll(s, words.value)
    ensures StripWordMarks(r) == StripWordMarks(s)
  {
    r := s;
    if words.Some? {
      var ws := words.value;
      for i := 0 to |ws|
        invariant r == MarkAll(s, ws[..i])
      {
        assert ws[..i + 1][..i] == ws[..i];
        r := if |ws[i]| > 0 then MarkWord(r, ws[i]) else r;
      }
      assert ws[..|ws|] == ws;
      MarkAllStrips(s, ws);
    }
  }

  // ---------------------------------------------------------------------
  // stripWordMarks
  // ---------------------------------------------------------------------

  /** `string.replace(new RegExp(MARK_CHAR, 'g'), '')` */
  function StripWordMarks(s: string): (r: string)
    ensures MarkFree(r)
    ensures |r| <= |s|
  {
    if s == [] then []
    else (if s[0] == Mark then [] else [s[0]]) + StripWordMarks(s[1..])
  }

  lemma {:induction false} StripConcat(a: string, b: string)
    ensures StripWordMarks(a + b) == StripWordMarks(a) + StripWordMarks(b)
    decreases |a|
  {
    if a == [] {
      assert a + b == b;
    } else {
      assert (a + b)[0] == a[0] && (a + b)[1..] == a[1..] + b;
      StripConcat(a[1..], b);
    }
  }

  /** Only marks are removed: every other character keeps its count. */
  lemma {:induction false} StripExactlyMarks(s: string)
    ensures multiset(StripWordMarks(s)) == multiset(s)[Mark := 0]
    decreases |s|
  {
    if s != [] {
      StripExactlyMarks(s[1..]);
      assert s == [s[0]] + s[1..];
    }
  }

  /** A string without marks is left unchanged, which makes stripping idempotent. */
  lemma {:induction false} StripMarkFree(s: string)
    requires MarkFree(s)
    ensures StripWordMarks(s) == s
    decreases |s|
  {
    if s != [] {
      StripMarkFree(s[1..]);
    }
  }

  lemma {:induction false} StripIdempotent(s: string)
    ensures StripWordMarks(StripWordMarks(s)) == StripWordMarks(s)
  {
    StripMarkFree(StripWordMarks(s));
  }

  lemma {:induction false} StripWrapped(m: string, t: string)
    ensures StripWordMarks([Mark] + m + [Mark] + t) == StripWordMarks(m) + StripWordMarks(t)
  {
    assert [Mark] + m + [Mark] + t == [Mark] + (m + ([Mark] + t));
    StripConcat([Mark], m + ([Mark] + t));
    StripConcat(m, [Mark] + t);
    StripConcat([Mark], t);
  }

  /** Marking one word only inserts marks. */
  lemma {:induction false} MarkWordStrips(s: string, w: string)
    requires w != []
    ensures StripWordMarks(MarkWord(s, w)) == StripWordMarks(s)
    decreases |s|
  {
    if MatchAt(s, 0, w) {
      var m, rest := s[..|w|], s[|w|..];
      MarkWordStrips(rest, w);
      StripWrapped(m, MarkWord(rest, w));
      StripConcat(m, rest);
      assert s == m + rest;
    } else if s != [] {
      MarkWordStrips(s[1..], w);
      StripConcat([s[0]], MarkWord(s[1..], w));
      StripConcat([s[0]], s[1..]);
      assert s == [s[0]] + s[1..];
    }
  }

  /** Stripping undoes marking, whatever the words. */
  lemma {:induction false} MarkAllStrips(s: string, words: seq<string>)
    ensures StripWordMarks(MarkAll(s, words)) == StripWordMarks(s)
    decreases |words|
  {
    if words != [] {
      var t := MarkAll(s, words[..|words| - 1]);
      MarkAllStrips(s, words[..|words| - 1]);
      if |words[|words| - 1]| > 0 {
        MarkWordStrips(t, words[|words| - 1]);
      }
    }
  }

  /** For a text without marks, `stripWordMarks(markWords(s, words)) == s`. */
  lemma {:induction false} MarkThenStrip(s: string, words: seq<string>)
    requires MarkFree(s)
    ensures StripWordMarks(MarkAll(s, words)) == s
  {
    MarkAllStrips(s, words);
    StripMarkFree(s);
  }

  /** A word that does not occur changes nothing. */
  lemma {:induction false} MarkWordAbsent(s: string, w: string)
    requires w != []
    requires forall p :: 0 <= p <= |s| ==> !MatchAt(s, p, w)
    ensures MarkWord(s, w) == s
    decreases |s|
  {
    if s != [] {
      assert !MatchAt(s, 0, w);
      forall p | 0 <= p <= |s[1..]|
        ensures !MatchAt(s[1..], p, w)
      {
        ShiftedMatch(s, p, w);
      }
      MarkWordAbsent(s[1..], w);
    }
  }

  lemma {:induction false} ShiftedMatch(s: string, p: nat, w: string)
    requires s != []
    ensures MatchAt(s[1..], p, w) <==> MatchAt(s, p + 1, w)
  {
    if p + 1 + |w| <= |s| {
      assert s[1..][p..p + |w|] == s[p + 1..p + 1 + |w|];
    }
  }

  /** The pass is leftmost and non-overlapping: text before the first match
      is kept, the match is wrapped in its original case and the pass resumes
      right after it. */
  lemma {:induction false} MarkWordLeftmost(a: string, m: string, b: string, w: string)
    requires w != [] && EqualsIgnoreCase(m, w)
    requires forall p :: 0 <= p < |a| ==> !MatchAt(a + m + b, p, w)
    ensures MarkWord(a + m + b, w) == a + ([Mark] + m + [Mark] + MarkWord(b, w))
    decreases |a|
  {
    var s := a + m + b;
    var run := [Mark] + m + [Mark] + MarkWord(b, w);
    if a == [] {
      assert s == m + b;
      MarkWordHere(m, b, w);
      assert a + run == run;
    } else {
      var t := a[1..] + m + b;
      assert s == [a[0]] + t;
      assert !MatchAt(s, 0, w);
      forall p | 0 <= p < |a[1..]|
        ensures !MatchAt(t, p, w)
      {
        ShiftedMatch(s, p, w);
      }
      MarkWordLeftmost(a[1..], m, b, w);
      MarkWordSkip(a[0], t, w);
      ConsAssoc(a[0], a[1..], run);
      assert [a[0]] + a[1..] == a;
    }
  }

  /** A match at the start is wrapped and the pass resumes after it. */
  lemma {:induction false} MarkWordHere(m: string, b: string, w: string)
    requires w != [] && EqualsIgnoreCase(m, w)
    ensures MarkWord(m + b, w) == [Mark] + m + [Mark] + MarkWord(b, w)
  {
    var s := m + b;
    assert s[..|w|] == m && s[|w|..] == b;
    assert MatchAt(s, 0, w);
  }

  /** A character where no match starts is copied. */
  lemma {:induction false} MarkWordSkip(c: char, t: string, w: string)
    requires w != [] && !MatchAt([c] + t, 0, w)
    ensures MarkWord([c] + t, w) == [c] + MarkWord(t, w)
  {
    var s := [c] + t;
    assert s[0] == c && s[1..] == t;
  }

  lemma {:induction false} ConsAssoc(c: char, t: string, r: string)
    ensures [c] + (t + r) == ([c] + t) + r
  {
  }

  // ---------------------------------------------------------------------
  // convertMarksToHtml
  // ---------------------------------------------------------------------

  /** The characters `.` does not match: LF, CR, LS and PS. */
  predicate IsLineTerminator(c: char) {
    c == '\n' || c == '\r' || c == '\U{2028}' || c == '\U{2029}'
  }

  /** Where the lazy `(.+?)` closes a run opened by the mark at `s[0]`: the
      first mark at a position `q >= 2` with no line terminator in `s[1..q]`.
      `q` is the candidate under test; `s[1..q - 1]` is already known to be
      free of line terminators. */
  function CloseFrom(s: string, q: nat): (r: Option<nat>)
    requires 2 <= q
    ensures r.Some? ==> q <= r.value < |s| && s[r.value] == Mark
    decreases |s| - q
  {
    if q >= |s| then None
    else if IsLineTerminator(s[q - 1]) then None
    else if s[q] == Mark then Some(q)
    else CloseFrom(s, q + 1)
  }

  /** `string.replace(new RegExp(MARK_CHAR + '(.+?)' + MARK_CHAR, 'gm'), '<mark>$1</mark>')` */
  function ConvertMarksToHtml(s: string): string
    decreases |s|
  {
    if s == [] then []
    else if s[0] == Mark && CloseFrom(s, 2).Some? then
      var q := CloseFrom(s, 2).value;
      "<mark>" + s[1..q] + "</mark>" + ConvertMarksToHtml(s[q + 1..])
    else [s[0]] + ConvertMarksToHtml(s[1..])
  }

  /** A text without marks comes out unchanged. */
  lemma {:induction false} ConvertMarkFree(s: string)
    requires MarkFree(s)
    ensures ConvertMarksToHtml(s) == s
    decreases |s|
  {
    if s != [] {
      ConvertMarkFree(s[1..]);
    }
  }

  /** Text before the first mark is copied as it is. */
  lemma {:induction false} ConvertMarkFreePrefix(a: string, b: string)
    requires MarkFree(a)
    ensures ConvertMarksToHtml(a + b) == a + ConvertMarksToHtml(b)
    decreases |a|
  {
    if a == [] {
      assert a + b == b;
    } else {
      assert (a + b)[0] == a[0] && (a + b)[1..] == a[1..] + b;
      ConvertMarkFreePrefix(a[1..], b);
    }
  }

  lemma {:induction false} CloseAtNextMark(x: string, rest: string, q: nat)
    requires x != [] && MarkFree(x)
    requires forall i :: 0 <= i < |x| ==> !IsLineTerminator(x[i])
    requires 2 <= q <= |x| + 1
    ensures CloseFrom([Mark] + x + [Mark] + rest, q) == Some(|x| + 1)
    decreases |x| + 1 - q
  {
    var s := [Mark] + x + [Mark] + rest;
    assert s[q - 1] == x[q - 2];
    if q < |x| + 1 {
      assert s[q] == x[q - 1];
      CloseAtNextMark(x, rest, q + 1);
    }
  }

  /** A marked run without marks or line breaks inside becomes one `<mark>`
      element, and the conversion goes on after its closing mark. */
  lemma {:induction false} ConvertMarkedRun(x: string, rest: string)
    requires x != [] && MarkFree(x)
    requires forall i :: 0 <= i < |x| ==> !IsLineTerminator(x[i])
    ensures ConvertMarksToHtml([Mark] + x + [Mark] + rest) == "<mark>" + x + "</mark>" + ConvertMarksToHtml(rest)
  {
    var s := [Mark] + x + [Mark] + rest;
    CloseAtNextMark(x, rest, 2);
    assert s[1..|x| + 1] == x;
    assert s[|x| + 2..] == rest;
  }

  /** A match of a literal word holds neither a mark nor a line terminator. */
  lemma {:induction false} LiteralMatchIsPlain(m: string, w: string)
    requires IsLiteralWord(w) && EqualsIgnoreCase(m, w)
    ensures MarkFree(m)
    ensures forall i :: 0 <= i < |m| ==> !IsLineTerminator(m[i])
  {
    forall i | 0 <= i < |m|
      ensures m[i] != Mark && !IsLineTerminator(m[i])
    {
      assert LowerChar(m[i]) == LowerChar(w[i]);
    }
  }

  /** Marking a word and converting the marks renders the first match of a
      literal word as a `<mark>` element holding the matched text. */
  lemma {:induction false} MarkedWordRendered(a: string, m: string, b: string, w: string)
    requires w != [] && IsLiteralWord(w) && EqualsIgnoreCase(m, w) && MarkFree(a)
    requires forall p :: 0 <= p < |a| ==> !MatchAt(a + m + b, p, w)
    ensures ConvertMarksToHtml(MarkWord(a + m + b, w))
      == a + ("<mark>" + m + "</mark>" + ConvertMarksToHtml(MarkWord(b, w)))
  {
    var tail := MarkWord(b, w);
    var run := [Mark] + m + [Mark] + tail;
    MarkWordLeftmost(a, m, b, w);
    LiteralMatchIsPlain(m, w);
    ConvertMarkFreePrefix(a, run);
    ConvertMarkedRun(m, tail);
  }

  // ---------------------------------------------------------------------
  // The documented sentence
  // ---------------------------------------------------------------------

  const Head := "Consectetur aliqua "
  const Middle := " occaecat quis eiusmod fugiat sit "
  const Tail := " ullamco ea minim."

  /** The sentence with "eu" and "ipsum" marked, as `markWords` leaves it. */
  const MarkedSentence := Head + ([Mark] + "eu" + [Mark] + (Middle + ([Mark] + "ipsum" + [Mark] + Tail)))

  lemma {:induction false} SentencePartsMarkFree()
    ensures MarkFree(Head) && MarkFree(Middle) && MarkFree(Tail) && MarkFree("eu") && MarkFree("ipsum")
  {
  }

  /** Stripping the marked sentence gives back the plain sentence. */
  lemma {:induction false} StripSentence()
    ensures StripWordMarks(MarkedSentence) == Head + ("eu" + (Middle + ("ipsum" + Tail)))
  {
    SentencePartsMarkFree();
    var second := Middle + ([Mark] + "ipsum" + [Mark] + Tail);
    StripConcat(Head, [Mark] + "eu" + [Mark] + second);
    StripWrapped("eu", second);
    StripConcat(Middle, [Mark] + "ipsum" + [Mark] + Tail);
    StripWrapped("ipsum", Tail);
    StripMarkFree(Head);
    StripMarkFree(Middle);
    StripMarkFree(Tail);
    StripMarkFree("eu");
    StripMarkFree("ipsum");
  }

  /** Converting the marked sentence renders both marked words as `<mark>` elements. */
  lemma {:induction false} ConvertSentence()
    ensures ConvertMarksToHtml(MarkedSentence)
      == Head + ("<mark>" + "eu" + "</mark>" + (Middle + ("<mark>" + "ipsum" + "</mark>" + Tail)))
  {
    SentencePartsMarkFree();
    ConvertTwoRuns(Head, "eu", Middle, "ipsum", Tail);
  }

  /** Two marked runs between mark-free text, as in the documented sentence. */
  lemma {:induction false} ConvertTwoRuns(h: string, x: string, m: string, y: string, t: string)
    requires MarkFree(h) && MarkFree(m) && MarkFree(t)
    requires x != [] && MarkFree(x) && forall i :: 0 <= i < |x| ==> !IsLineTerminator(x[i])
    requires y != [] && MarkFree(y) && forall i :: 0 <= i < |y| ==> !IsLineTerminator(y[i])
    ensures ConvertMarksToHtml(h + ([Mark] + x + [Mark] + (m + ([Mark] + y + [Mark] + t))))
      == h + ("<mark>" + x + "</mark>" + (m + ("<mark>" + y + "</mark>" + t)))
  {
    var run2 := [Mark] + y + [Mark] + t;
    var second := m + run2;
    var run1 := [Mark] + x + [Mark] + second;
    ConvertMarkFree(t);
    ConvertMarkedRun(y, t);
    ConvertMarkFreePrefix(m, run2);
    ConvertMarkedRun(x, second);
    ConvertMarkFreePrefix(h, run1);
  }
}
