/** The browser's `btoa` and `atob` over JavaScript strings, taken as
    sequences of UTF-16 code units (integers in `[0, 65536)`). `btoa`
    encodes a binary string (every unit below 256) with the alphabet and
    padding of section 4 of RFC 4648 and throws on any other unit; `atob` is
    the forgiving decoder: it drops ASCII whitespace and up to two trailing
    pad characters, and throws on a length of the form 4k + 1 or on a
    character outside the alphabet. */
module Base64 {
  import opened Wrappers

  const InvalidCharacterError := "InvalidCharacterError"

  /** The pad character `=`. */
  const Pad: int := 61

  /** A binary string: every unit is a byte. */
  predicate IsBinary(s: seq<int>) {
    forall i :: 0 <= i < |s| ==> 0 <= s[i] < 256
  }

  // ---------------------------------------------------------------------
  // The alphabet
  // ---------------------------------------------------------------------

  /** The alphabet of Table 1 in section 4 of RFC 4648: `A`-`Z`, `a`-`z`,
      `0`-`9`, `+` and `/`. */
  predicate InAlphabet(c: int) {
    65 <= c <= 90 || 97 <= c <= 122 || 48 <= c <= 57 || c == 43 || c == 47
  }

  /** The character for a 6-bit value: 0-25 are `A`-`Z`, 26-51 `a`-`z`,
      52-61 `0`-`9`, 62 is `+` and 63 is `/`. */
  function EncodeSextet(x: int): (c: int)
    requires 0 <= x < 64
    ensures InAlphabet(c) && SextetOf(c) == x && c != Pad
  {
    if x < 26 then x + 65
    else if x < 52 then x - 26 + 97
    else if x < 62 then x - 52 + 48
    else if x == 62 then 43
    else 47
  }

  /** The 6-bit value of an alphabet character. */
  function SextetOf(c: int): (x: int)
    requires InAlphabet(c)
    ensures 0 <= x < 64
  {
    if 65 <= c <= 90 then c - 65
    else if 97 <= c <= 122 then c - 97 + 26
    else if 48 <= c <= 57 then c - 48 + 52
    else if c == 43 then 62
    else 63
  }

  /** Each alphabet character is the character of its own value, so the
      alphabet and the values 0-63 are in one-to-one correspondence. */
  lemma {:induction false} SextetInverse(c: int)
    requires InAlphabet(c)
    ensures EncodeSextet(SextetOf(c)) == c
  {
  }

  // ---------------------------------------------------------------------
  // btoa
  // ---------------------------------------------------------------------

  /** The four characters of a full group of three bytes: the 24 bits cut
      into four sextets, most significant first. */
  function Quad(b0: int, b1: int, b2: int): (q: seq<int>)
    requires 0 <= b0 < 256 && 0 <= b1 < 256 && 0 <= b2 < 256
    ensures |q| == 4 && forall k :: 0 <= k < 4 ==> InAlphabet(q[k])
  {
    [EncodeSextet(b0 / 4), EncodeSextet(b0 % 4 * 16 + b1 / 16),
     EncodeSextet(b1 % 16 * 4 + b2 / 64), EncodeSextet(b2 % 64)]
  }

  /** The encoding without its padding: two characters for a final single
      byte, three for a final pair, the missing bits zero. */
  function EncodeUnpadded(b: seq<int>): (e: seq<int>)
    requires IsBinary(b)
    ensures forall i :: 0 <= i < |e| ==> InAlphabet(e[i])
    decreases |b|
  {
    if |b| == 0 then []
    else if |b| == 1 then
      var c0, c1 := EncodeSextet(b[0] / 4), EncodeSextet(b[0] % 4 * 16);
      assert InAlphabet(c0) && InAlphabet(c1);
      [c0, c1]
    else if |b| == 2 then
      var c0, c1, c2 := EncodeSextet(b[0] / 4), EncodeSextet(b[0] % 4 * 16 + b[1] / 16), EncodeSextet(b[1] % 16 * 4);
      assert InAlphabet(c0) && InAlphabet(c1) && InAlphabet(c2);
      [c0, c1, c2]
    else
      var q, rest := Quad(b[0], b[1], b[2]), EncodeUnpadded(b[3..]);
      assert forall i :: 0 <= i < |q + rest| ==> InAlphabet((q + rest)[i]) by {
        forall i | 0 <= i < |q + rest|
          ensures InAlphabet((q + rest)[i])
        {
          if i >= 4 {
            assert (q + rest)[i] == rest[i - 4];
          }
        }
      }
      q + rest
  }

  /** The pad characters that complete the last group. */
  function Padding(n: nat): seq<int> {
    if n % 3 == 1 then [Pad, Pad] else if n % 3 == 2 then [Pad] else []
  }

  /** `btoa(s)`: throws when a unit is not a byte. */
  function Btoa(s: seq<int>): Result<seq<int>> {
    if IsBinary(s) then Success(EncodeUnpadded(s) + Padding(|s|)) else Failure(InvalidCharacterError)
  }

  /** Three bytes take four characters, a final byte two and a final pair three. */
  lemma {:induction false} UnpaddedLength(b: seq<int>)
    requires IsBinary(b)
    ensures |EncodeUnpadded(b)| == 4 * (|b| / 3) + (if |b| % 3 == 0 then 0 else |b| % 3 + 1)
    decreases |b|
  {
    if |b| >= 3 {
      UnpaddedLength(b[3..]);
      assert |EncodeUnpadded(b)| == 4 + |EncodeUnpadded(b[3..])|;
      assert |b[3..]| / 3 == |b| / 3 - 1 && |b[3..]| % 3 == |b| % 3;
    }
  }

  lemma {:induction false} PaddedLength(n: nat)
    ensures 4 * (n / 3) + (if n % 3 == 0 then 0 else n % 3 + 1) + |Padding(n)| == 4 * ((n + 2) / 3)
  {
  }

  /** The unpadded length is never of the form 4k + 1. */
  lemma {:induction false} UnpaddedNotOneMod4(n: nat, len: int)
    requires len == 4 * (n / 3) + (if n % 3 == 0 then 0 else n % 3 + 1)
    ensures len % 4 != 1
  {
    var q, r := n / 3, n % 3;
    assert len == 4 * q + (if r == 0 then 0 else r + 1);
  }

  /** `btoa` fails exactly on a unit above 255; its output is
      `4 * ceil(n / 3)` characters of the alphabet, ended by at most two pad
      characters. */
  lemma {:induction false} BtoaShape(s: seq<int>)
    ensures Btoa(s).Success? <==> IsBinary(s)
    ensures Btoa(s).Success? ==> |Btoa(s).value| == 4 * ((|s| + 2) / 3)
    ensures Btoa(s).Success? ==>
      forall i :: 0 <= i < |Btoa(s).value| ==> InAlphabet(Btoa(s).value[i]) || Btoa(s).value[i] == Pad
  {
    if IsBinary(s) {
      var e := EncodeUnpadded(s);
      UnpaddedLength(s);
      PaddedLength(|s|);
      assert Btoa(s).value == e + Padding(|s|);
    }
  }

  // ---------------------------------------------------------------------
  // atob
  // ---------------------------------------------------------------------

  /** ASCII whitespace: TAB, LF, FF, CR and SPACE. */
  predicate IsAsciiWhitespace(c: int) {
    c == 9 || c == 10 || c == 12 || c == 13 || c == 32
  }

  function RemoveWhitespace(s: seq<int>): (r: seq<int>)
    ensures forall i :: 0 <= i < |r| ==> !IsAsciiWhitespace(r[i])
    decreases |s|
  {
    if s == [] then []
    else (if IsAsciiWhitespace(s[0]) then [] else [s[0]]) + RemoveWhitespace(s[1..])
  }

  /** With a length divisible by four, one or two trailing pads are dropped. */
  function DropPadding(d: seq<int>): seq<int> {
    if |d| % 4 == 0 && |d| >= 2 && d[|d| - 1] == Pad && d[|d| - 2] == Pad then d[..|d| - 2]
    else if |d| % 4 == 0 && |d| >= 1 && d[|d| - 1] == Pad then d[..|d| - 1]
    else d
  }

  /** The three bytes four sextets carry. */
  function Group(s0: int, s1: int, s2: int, s3: int): (r: seq<int>)
    requires 0 <= s0 < 64 && 0 <= s1 < 64 && 0 <= s2 < 64 && 0 <= s3 < 64
    ensures |r| == 3 && 0 <= r[0] < 256 && 0 <= r[1] < 256 && 0 <= r[2] < 256
  {
    [s0 * 4 + s1 / 16, s1 % 16 * 16 + s2 / 4, s2 % 4 * 64 + s3]
  }

  /** The bytes of characters all in the alphabet, four to three; a final
      pair gives one byte and a final triple two, the spare bits dropped.
      (`Atob` never passes a final single character.) */
  function DecodeGroups(d: seq<int>): seq<int>
    requires forall i :: 0 <= i < |d| ==> InAlphabet(d[i])
    decreases |d|
  {
    if |d| < 2 then []
    else if |d| == 2 then Group(SextetOf(d[0]), SextetOf(d[1]), 0, 0)[..1]
    else if |d| == 3 then Group(SextetOf(d[0]), SextetOf(d[1]), SextetOf(d[2]), 0)[..2]
    else Group(SextetOf(d[0]), SextetOf(d[1]), SextetOf(d[2]), SextetOf(d[3])) + DecodeGroups(d[4..])
  }

  /** `atob(s)`, the forgiving decoder. */
  function Atob(s: seq<int>): (r: Result<seq<int>>)
    ensures r.Success? ==> IsBinary(r.value)
  {
    var d := DropPadding(RemoveWhitespace(s));
    if |d| % 4 == 1 then Failure(InvalidCharacterError)
    else if exists i :: 0 <= i < |d| && !InAlphabet(d[i]) then Failure(InvalidCharacterError)
    else
      var bytes := DecodeGroups(d);
      assert IsBinary(bytes) by { DecodedIsBinary(d); }
      Success(bytes)
  }

  lemma {:induction false} DecodedIsBinary(d: seq<int>)
    requires forall i :: 0 <= i < |d| ==> InAlphabet(d[i])
    ensures IsBinary(DecodeGroups(d))
    decreases |d|
  {
    if |d| >= 4 {
      DecodedIsBinary(d[4..]);
      var g := Group(SextetOf(d[0]), SextetOf(d[1]), SextetOf(d[2]), SextetOf(d[3]));
      assert DecodeGroups(d) == g + DecodeGroups(d[4..]);
    }
  }

  /** `atob` fails exactly when, after whitespace and padding are dropped,
      the length is 4k + 1 or a character is outside the alphabet. */
  lemma {:induction false} AtobFails(s: seq<int>)
    ensures var d := DropPadding(RemoveWhitespace(s));
      Atob(s).Failure? <==> |d| % 4 == 1 || exists i :: 0 <= i < |d| && !InAlphabet(d[i])
  {
  }

  // ---------------------------------------------------------------------
  // The round trip
  // ---------------------------------------------------------------------

  /** A full group decodes to the three bytes it came from. */
  lemma {:induction false} QuadRoundTrip(b0: int, b1: int, b2: int)
    requires 0 <= b0 < 256 && 0 <= b1 < 256 && 0 <= b2 < 256
    ensures Group(b0 / 4, b0 % 4 * 16 + b1 / 16, b1 % 16 * 4 + b2 / 64, b2 % 64) == [b0, b1, b2]
  {
  }

  lemma {:induction false} PairRoundTrip(b0: int)
    requires 0 <= b0 < 256
    ensures Group(b0 / 4, b0 % 4 * 16, 0, 0)[..1] == [b0]
  {
  }

  lemma {:induction false} TripleRoundTrip(b0: int, b1: int)
    requires 0 <= b0 < 256 && 0 <= b1 < 256
    ensures Group(b0 / 4, b0 % 4 * 16 + b1 / 16, b1 % 16 * 4, 0)[..2] == [b0, b1]
  {
  }

  /** Four alphabet characters in front decode to the three bytes their
      sextets carry. */
  lemma {:induction false} DecodeQuad(x0: int, x1: int, x2: int, x3: int, rest: seq<int>)
    requires 0 <= x0 < 64 && 0 <= x1 < 64 && 0 <= x2 < 64 && 0 <= x3 < 64
    requires forall i :: 0 <= i < |rest| ==> InAlphabet(rest[i])
    ensures var d := [EncodeSextet(x0), EncodeSextet(x1), EncodeSextet(x2), EncodeSextet(x3)] + rest;
      (forall i :: 0 <= i < |d| ==> InAlphabet(d[i])) &&
      DecodeGroups(d) == Group(x0, x1, x2, x3) + DecodeGroups(rest)
  {
    var q := [EncodeSextet(x0), EncodeSextet(x1), EncodeSextet(x2), EncodeSextet(x3)];
    var d := q + rest;
    assert forall i :: 0 <= i < |d| ==> InAlphabet(d[i]) by {
      forall i | 0 <= i < |d|
        ensures InAlphabet(d[i])
      {
        if i >= 4 {
          assert d[i] == rest[i - 4];
        }
      }
    }
    assert d[..4] == q && d[4..] == rest;
    assert SextetOf(d[0]) == x0 && SextetOf(d[1]) == x1 && SextetOf(d[2]) == x2 && SextetOf(d[3]) == x3;
  }

  /** Two alphabet characters decode to the one byte their sextets carry. */
  lemma {:induction false} DecodePair(x0: int, x1: int)
    requires 0 <= x0 < 64 && 0 <= x1 < 64
    ensures DecodeGroups([EncodeSextet(x0), EncodeSextet(x1)]) == Group(x0, x1, 0, 0)[..1]
  {
    var e := [EncodeSextet(x0), EncodeSextet(x1)];
    assert SextetOf(e[0]) == x0 && SextetOf(e[1]) == x1;
  }

  /** Three alphabet characters decode to the two bytes their sextets carry. */
  lemma {:induction false} DecodeTriple(x0: int, x1: int, x2: int)
    requires 0 <= x0 < 64 && 0 <= x1 < 64 && 0 <= x2 < 64
    ensures DecodeGroups([EncodeSextet(x0), EncodeSextet(x1), EncodeSextet(x2)]) == Group(x0, x1, x2, 0)[..2]
  {
    var e := [EncodeSextet(x0), EncodeSextet(x1), EncodeSextet(x2)];
    assert SextetOf(e[0]) == x0 && SextetOf(e[1]) == x1 && SextetOf(e[2]) == x2;
  }

  /** A final single byte decodes from its two characters. */
  lemma {:induction false} DecodeOne(b: seq<int>)
    requires IsBinary(b) && |b| == 1
    ensures DecodeGroups(EncodeUnpadded(b)) == b
  {
    var b0 := b[0];
    assert EncodeUnpadded(b) == [EncodeSextet(b0 / 4), EncodeSextet(b0 % 4 * 16)];
    DecodePair(b0 / 4, b0 % 4 * 16);
    PairRoundTrip(b0);
    assert b == [b0];
  }

  /** A final pair of bytes decodes from its three characters. */
  lemma {:induction false} DecodeTwo(b: seq<int>)
    requires IsBinary(b) && |b| == 2
    ensures DecodeGroups(EncodeUnpadded(b)) == b
  {
    var b0, b1 := b[0], b[1];
    assert EncodeUnpadded(b) == [EncodeSextet(b0 / 4), EncodeSextet(b0 % 4 * 16 + b1 / 16), EncodeSextet(b1 % 16 * 4)];
    DecodeTriple(b0 / 4, b0 % 4 * 16 + b1 / 16, b1 % 16 * 4);
    TripleRoundTrip(b0, b1);
    assert b == [b0, b1];
  }

  /** Three bytes in front decode from their four characters. */
  lemma {:induction false} DecodeThree(b: seq<int>)
    requires IsBinary(b) && |b| >= 3
    ensures DecodeGroups(EncodeUnpadded(b)) == b[..3] + DecodeGroups(EncodeUnpadded(b[3..]))
  {
    var b0, b1, b2 := b[0], b[1], b[2];
    var rest := EncodeUnpadded(b[3..]);
    assert EncodeUnpadded(b) == Quad(b0, b1, b2) + rest;
    DecodeQuad(b0 / 4, b0 % 4 * 16 + b1 / 16, b1 % 16 * 4 + b2 / 64, b2 % 64, rest);
    QuadRoundTrip(b0, b1, b2);
    assert b[..3] == [b0, b1, b2];
  }

  /** The unpadded encoding decodes to the bytes it came from. */
  lemma {:induction false} DecodeUnpadded(b: seq<int>)
    requires IsBinary(b)
    ensures DecodeGroups(EncodeUnpadded(b)) == b
    decreases |b|
  {
    if |b| >= 3 {
      DecodeUnpadded(b[3..]);
      DecodeThree(b);
      assert b == b[..3] + b[3..];
    } else if |b| == 1 {
      DecodeOne(b);
    } else if |b| == 2 {
      DecodeTwo(b);
    }
  }

  lemma {:induction false} NoWhitespaceKept(s: seq<int>)
    requires forall i :: 0 <= i < |s| ==> !IsAsciiWhitespace(s[i])
    ensures RemoveWhitespace(s) == s
    decreases |s|
  {
    if s != [] {
      NoWhitespaceKept(s[1..]);
    }
  }

  /** Alphabet characters followed by the padding their count calls for lose
      exactly the padding. */
  lemma {:induction false} DropPaddingOf(e: seq<int>, n: nat)
    requires |e| == 4 * (n / 3) + (if n % 3 == 0 then 0 else n % 3 + 1)
    requires forall i :: 0 <= i < |e| ==> InAlphabet(e[i])
    ensures DropPadding(e + Padding(n)) == e
  {
    var full := e + Padding(n);
    if n % 3 == 1 {
      assert full[..|full| - 2] == e;
    } else if n % 3 == 2 {
      assert full[..|full| - 1] == e;
      assert InAlphabet(full[|full| - 2]);
    } else {
      assert full == e;
      if |e| > 0 {
        assert InAlphabet(e[|e| - 1]);
      }
    }
  }

  lemma {:induction false} PaddedHasNoWhitespace(e: seq<int>, n: nat)
    requires forall i :: 0 <= i < |e| ==> InAlphabet(e[i])
    ensures RemoveWhitespace(e + Padding(n)) == e + Padding(n)
  {
    var full := e + Padding(n);
    forall i | 0 <= i < |full|
      ensures !IsAsciiWhitespace(full[i])
    {
      if i < |e| {
        assert InAlphabet(e[i]);
      }
    }
    NoWhitespaceKept(full);
  }

  /** The output of `btoa` holds no whitespace, so `atob` drops nothing but
      the padding. */
  lemma {:induction false} BtoaPaddingDropped(s: seq<int>)
    requires IsBinary(s)
    ensures DropPadding(RemoveWhitespace(Btoa(s).value)) == EncodeUnpadded(s)
  {
    var e := EncodeUnpadded(s);
    UnpaddedLength(s);
    PaddedHasNoWhitespace(e, |s|);
    DropPaddingOf(e, |s|);
  }

  /** `atob(btoa(s)) == s` for every binary string. */
  lemma {:induction false} AtobBtoa(s: seq<int>)
    requires IsBinary(s)
    ensures Atob(Btoa(s).value) == Success(s)
  {
    var e := EncodeUnpadded(s);
    BtoaPaddingDropped(s);
    UnpaddedLength(s);
    UnpaddedNotOneMod4(|s|, |e|);
    assert !exists i :: 0 <= i < |e| && !InAlphabet(e[i]);
    DecodeUnpadded(s);
  }
}
