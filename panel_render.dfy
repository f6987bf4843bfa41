/** How the panel renders a filtered key: the key is marked, then
    HTML-encoded, then its marks become `<mark>` elements. The encoding sits
    between the two marker steps, so the marks must pass through it. */
module PanelRendering {
  import opened Wrappers
  import opened JsString
  import opened Marker
  import opened Templating

  /** The characters an entity is spelled with. */
  const EntityChars := "&amp;nbslgt"

  /** Encoding a joined text encodes the parts. */
  lemma {:induction false} HtmlEncodeConcat(a: string, b: string)
    ensures HtmlEncode(a + b) == HtmlEncode(a) + HtmlEncode(b)
    decreases |a|
  {
    if a == [] {
      assert a + b == b;
    } else {
      assert (a + b)[0] == a[0] && (a + b)[1..] == a[1..] + b;
      HtmlEncodeConcat(a[1..], b);
      assert HtmlEncode(a + b) == EncodeChar(a[0]) + (HtmlEncode(a[1..]) + HtmlEncode(b));
    }
  }

  /** Every encoded character is a character of the text or of an entity. */
  lemma {:induction false} EncodedCharsFrom(s: string)
    ensures forall i :: 0 <= i < |HtmlEncode(s)| ==> HtmlEncode(s)[i] in s || HtmlEncode(s)[i] in EntityChars
    decreases |s|
  {
    if s != [] {
      EncodedCharsFrom(s[1..]);
      var e, r := EncodeChar(s[0]), HtmlEncode(s[1..]);
      assert forall i :: 0 <= i < |e| ==> e[i] == s[0] || e[i] in EntityChars;
      assert HtmlEncode(s) == e + r;
      forall i | 0 <= i < |e + r|
        ensures (e + r)[i] in s || (e + r)[i] in EntityChars
      {
        if i >= |e| {
          assert (e + r)[i] == r[i - |e|];
          assert r[i - |e|] in s[1..] ==> r[i - |e|] in s;
        }
      }
    }
  }

  /** The mark is not an entity character, so it passes through unchanged. */
  lemma {:induction false} EncodeMark()
    ensures HtmlEncode([Mark]) == [Mark]
  {
    assert [Mark][1..] == [];
  }

  /** Encoding a text without marks or line breaks yields a non-empty text
      without them when the text is non-empty. */
  lemma {:induction false} EncodePlainRun(m: string)
    requires m != [] && MarkFree(m)
    requires forall i :: 0 <= i < |m| ==> !IsLineTerminator(m[i])
    ensures HtmlEncode(m) != [] && MarkFree(HtmlEncode(m))
    ensures forall i :: 0 <= i < |HtmlEncode(m)| ==> !IsLineTerminator(HtmlEncode(m)[i])
  {
    EncodedCharsFrom(m);
    assert HtmlEncode(m) == EncodeChar(m[0]) + HtmlEncode(m[1..]);
  }

  lemma {:induction false} EncodeMarkFree(a: string)
    requires MarkFree(a)
    ensures MarkFree(HtmlEncode(a))
  {
    EncodedCharsFrom(a);
  }

  /** The encoded run of a marked word: encoding keeps the two marks and
      encodes the text between them. */
  lemma {:induction false} EncodeMarkedRun(a: string, m: string, tail: string)
    ensures HtmlEncode(a + ([Mark] + m + [Mark] + tail))
      == HtmlEncode(a) + ([Mark] + HtmlEncode(m) + [Mark] + HtmlEncode(tail))
  {
    HtmlEncodeConcat(a, [Mark] + m + [Mark] + tail);
    HtmlEncodeConcat([Mark] + m + [Mark], tail);
    HtmlEncodeConcat([Mark] + m, [Mark]);
    HtmlEncodeConcat([Mark], m);
    EncodeMark();
  }

  /** `convertMarksToHtml(htmlEncode(markWords(key, [w])))`: the first match
      of a literal word is rendered as a `<mark>` element around the encoded
      text in its original case; the text before it is encoded, and the rest
      is rendered the same way. */
  lemma {:induction false} MarkedKeyRendered(a: string, m: string, b: string, w: string)
    requires w != [] && IsLiteralWord(w) && EqualsIgnoreCase(m, w) && MarkFree(a)
    requires forall p :: 0 <= p < |a| ==> !MatchAt(a + m + b, p, w)
    ensures ConvertMarksToHtml(HtmlEncode(MarkWord(a + m + b, w)))
      == HtmlEncode(a) + ("<mark>" + HtmlEncode(m) + "</mark>" + ConvertMarksToHtml(HtmlEncode(MarkWord(b, w))))
  {
    var tail := MarkWord(b, w);
    MarkWordLeftmost(a, m, b, w);
    LiteralMatchIsPlain(m, w);
    EncodeMarkedRun(a, m, tail);
    EncodeMarkFree(a);
    EncodePlainRun(m);
    ConvertMarkFreePrefix(HtmlEncode(a), [Mark] + HtmlEncode(m) + [Mark] + HtmlEncode(tail));
    ConvertMarkedRun(HtmlEncode(m), HtmlEncode(tail));
  }

  /** A key with a markup character is shown with its entity: `a<b` under
      the filter word "b" renders as `a&lt;<mark>b</mark>`. */
  lemma {:induction false} MarkupKeyRendered()
    ensures ConvertMarksToHtml(HtmlEncode(MarkWord("a<b", "b"))) == "a&lt;<mark>b</mark>"
  {
    MarkupKeyMatches();
    MarkedKeyRendered("a<", "b", "", "b");
    MarkupKeyPieces();
  }

  lemma {:induction false} MarkupKeyMatches()
    ensures "a<b" == "a<" + "b" + ""
    ensures forall p :: 0 <= p < |"a<"| ==> !MatchAt("a<" + "b" + "", p, "b")
    ensures EqualsIgnoreCase("b", "b") && IsLiteralWord("b")
  {
    var s := "a<" + "b" + "";
    assert s[0..1] == "a" && s[1..2] == "<";
    assert "a"[0] == 'a' && "<"[0] == '<' && "b"[0] == 'b';
    assert LowerChar("a"[0]) != LowerChar("b"[0]) && LowerChar("<"[0]) != LowerChar("b"[0]);
    assert !EqualsIgnoreCase("a", "b") && !EqualsIgnoreCase("<", "b");
  }

  lemma {:induction false} MarkupKeyPieces()
    ensures MarkWord("", "b") == "" && ConvertMarksToHtml(HtmlEncode("")) == ""
    ensures HtmlEncode("a<") == "a&lt;" && HtmlEncode("b") == "b"
    ensures "a&lt;" + ("<mark>" + "b" + "</mark>" + "") == "a&lt;<mark>b</mark>"
  {
    assert HtmlEncode("a<") == EncodeChar('a') + HtmlEncode("<");
    assert HtmlEncode("<") == EncodeChar('<') + HtmlEncode("");
  }
}
