/** `truncate`: a displayed value longer than the limit is cut to the limit
    and ends in an ellipsis. The panel script has its own copy written with
    `substr`; both are modelled and shown to agree. */
module Text {

  const Ellipsis: char := '\U{2026}'

  /** Clamps a relative position into `[0, len]`, as `substring` and `substr`
      do with their integer arguments. */
  function Clamp(n: int, len: nat): (r: nat)
    ensures r <= len
    ensures 0 <= n <= len ==> r == n
    ensures n < 0 ==> r == 0
    ensures n > len ==> r == len
  {
    if n < 0 then 0 else if n > len then len else n
  }

  /** `s.substring(0, end)`: the end is clamped and the start is 0. */
  function Substring(s: string, end: int): (r: string)
    ensures r == s[..Clamp(end, |s|)]
  {
    s[..Clamp(end, |s|)]
  }

  /** `s.substr(0, length)`: the length is clamped to `[0, |s| - 0]`. */
  function Substr(s: string, length: int): (r: string)
    ensures |r| == Clamp(length, |s|) && r <= s
  {
    var count := if length < 0 then 0 else if length > |s| then |s| else length;
    s[0..0 + count]
  }

  /** `truncate(string, length)` of the utilities. */
  function Truncate(s: string, length: int): (r: string)
    ensures |s| <= length ==> r == s
    ensures |s| > length ==>
      |r| == Clamp(length, |s|) + 1 && r[..|r| - 1] <= s && r[|r| - 1] == Ellipsis
  {
    if |s| > length then Substring(s, length) + [Ellipsis] else s
  }

  /** `truncate(string, length)` of the panel script, written with `substr`. */
  function TruncateSubstr(s: string, length: int): (r: string)
    ensures |s| <= length ==> r == s
  {
    if |s| > length then Substr(s, length) + [Ellipsis] else s
  }

  /** The two copies compute the same string for every integer limit. */
  lemma {:induction false} TruncateCopiesAgree(s: string, length: int)
    ensures TruncateSubstr(s, length) == Truncate(s, length)
  {
    if |s| > length {
      var t := Substr(s, length);
      assert t == s[..|t|];
    }
  }

  /** A truncated value truncates to itself: the ellipsis takes the place of
      the removed tail, so cutting again removes nothing new. */
  lemma {:induction false} TruncateIdempotent(s: string, length: int)
    ensures Truncate(Truncate(s, length), length) == Truncate(s, length)
  {
    var r := Truncate(s, length);
    if |s| > length {
      var n := Clamp(length, |s|);
      assert |r| == n + 1 && r[..n] == s[..n];
      assert Truncate(r, length) == r[..n] + [Ellipsis];
    }
  }

  /** A value cut at `n` keeps exactly its first `n` characters. */
  lemma {:induction false} TruncateKeepsPrefix(s: string, n: nat)
    requires |s| > n
    ensures Truncate(s, n) == s[..n] + [Ellipsis]
    ensures |Truncate(s, n)| == n + 1
  {
  }

  const ShortText := "Qui aliqua exercitation laboris."
  const LongText := "Qui aliqua exercitation laboris dolor eiusmod proident aliquip."
  const LongTextCut := "Qui aliqua exercitation laboris dolor eiusmod proi\U{2026}"

  /** The long case as the test file spells its expectation: the three
      characters U+00E2 U+20AC U+00A6 ("â€¦"), which are the UTF-8 bytes of
      the ellipsis read as Windows-1252. */
  const LongTextCutAsSpelled := "Qui aliqua exercitation laboris dolor eiusmod proi\U{00E2}\U{20AC}\U{00A6}"

  /** No limit makes `truncate` end in the spelled expectation's last
      character, so the long case cannot equal it. */
  lemma {:induction false} SpelledEllipsisNeverProduced(s: string, length: int)
    requires |s| > length
    ensures Truncate(s, length) != LongTextCutAsSpelled
  {
    var r := Truncate(s, length);
    assert r[|r| - 1] == Ellipsis;
    assert LongTextCutAsSpelled[|LongTextCutAsSpelled| - 1] == '\U{00A6}';
  }

  /** The documented cases at a limit of 50: no text and a short text stay as
      they are, a long text keeps 50 characters and gets the ellipsis. */
  lemma {:induction false} TruncateExamples()
    ensures Truncate("", 50) == ""
    ensures Truncate(ShortText, 50) == ShortText
    ensures Truncate(LongText, 50) == LongTextCut
  {
    TruncateKeepsPrefix(LongText, 50);
    assert LongText[..50] == "Qui aliqua exercitation laboris dolor eiusmod proi";
  }
}
