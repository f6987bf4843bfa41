/** The helpers of the legacy panel library: the XOR-and-base64 "encryption"
    used for template names, and its own copy of the placeholder filler.
    Strings are sequences of UTF-16 code units, as in `Base64`. */
module Lib {
  import opened Wrappers
  import Base64
  import Templating

  /** A JavaScript string: every unit is a 16-bit code unit. */
  predicate IsUnits(s: seq<int>) {
    forall i :: 0 <= i < |s| ==> 0 <= s[i] < 0x1_0000
  }

  /** `saltId || 42`: a missing salt, or a salt of 0, becomes 42. */
  function Salt(saltId: Option<int>): (salt: int)
    ensures salt != 0
    ensures saltId == None || saltId == Some(0) ==> salt == 42
    ensures saltId.Some? && saltId.value != 0 ==> salt == saltId.value
  {
    match saltId
    case None => 42
    case Some(s) => if s == 0 then 42 else s
  }

  /** `charCode ^ salt` is taken on 32-bit integers and `fromCharCode` keeps
      its low 16 bits; since a code unit has no higher bits, only the salt's
      low 16 bits (in two's complement) take part. */
  function Key(salt: int): (k: int)
    ensures 0 <= k < 0x1_0000
  {
    salt % 0x1_0000
  }

  /** Bitwise exclusive or of two non-negative integers, lowest bit first. */
  function Xor(a: nat, b: nat): nat
    decreases a + b
  {
    if a == 0 && b == 0 then 0
    else 2 * Xor(a / 2, b / 2) + (a % 2 + b % 2) % 2
  }

  function Pow2(n: nat): (p: nat)
    ensures p >= 1
  {
    if n == 0 then 1 else 2 * Pow2(n - 1)
  }

  /** Numbers of `n` bits XOR to a number of `n` bits. */
  lemma {:induction false} XorBelow(a: nat, b: nat, n: nat)
    requires a < Pow2(n) && b < Pow2(n)
    ensures Xor(a, b) < Pow2(n)
    decreases n
  {
    if n > 0 && !(a == 0 && b == 0) {
      XorBelow(a / 2, b / 2, n - 1);
    }
  }

  lemma {:induction false} UnitAndByteWidths()
    ensures Pow2(8) == 256 && Pow2(16) == 0x1_0000
  {
    assert Pow2(4) == 16;
    assert Pow2(8) == 256;
    assert Pow2(12) == 4096;
  }

  /** `String.fromCharCode(c ^ key)` for a code unit `c`. */
  function XorUnit(c: int, k: int): (r: int)
    requires 0 <= c < 0x1_0000 && 0 <= k < 0x1_0000
    ensures 0 <= r < 0x1_0000
  {
    UnitAndByteWidths();
    XorBelow(c, k, 16);
    Xor(c, k)
  }

  /** Each unit of `t` XORed with the key. */
  function XorAll(t: seq<int>, k: int): (r: seq<int>)
    requires IsUnits(t) && 0 <= k < 0x1_0000
    ensures |r| == |t| && IsUnits(r)
  {
    seq(|t|, i requires 0 <= i < |t| => XorUnit(t[i], k))
  }

  /** What `crypt(text, saltId)` returns, or the error `btoa` throws. */
  function CryptOf(text: seq<int>, saltId: Option<int>): Result<seq<int>>
    requires IsUnits(text)
  {
    Base64.Btoa(XorAll(text, Key(Salt(saltId))))
  }

  /** What `decrypt(text, saltId)` returns, or the error `atob` throws. */
  function DecryptOf(text: seq<int>, saltId: Option<int>): Result<seq<int>> {
    match Base64.Atob(text)
    case Failure(e) => Failure(e)
    case Success(bytes) =>
      assert IsUnits(bytes);
      Success(XorAll(bytes, Key(Salt(saltId))))
  }

  /** `crypt`: each unit XORed with the salt, then `btoa`. */
  method Crypt(text: seq<int>, saltId: Option<int>) returns (r: Result<seq<int>>)
    requires IsUnits(text)
    ensures r == CryptOf(text, saltId)
  {
    var salt := Salt(saltId);
    var result: seq<int> := [];
    for i := 0 to |text|
      invariant result == XorAll(text[..i], Key(salt))
    {
      result := result + [XorUnit(text[i], Key(salt))];
    }
    assert text[..|text|] == text;
    r := Base64.Btoa(result);
  }

  /** `decrypt`: `atob`, then each unit XORed with the salt. */
  method Decrypt(text: seq<int>, saltId: Option<int>) returns (r: Result<seq<int>>)
    ensures r == DecryptOf(text, saltId)
  {
    var salt := Salt(saltId);
    var decoded := Base64.Atob(text);
    if decoded.Failure? {
      return Failure(decoded.error);
    }
    var bytes := decoded.value;
    assert IsUnits(bytes);
    var result: seq<int> := [];
    for i := 0 to |bytes|
      invariant result == XorAll(bytes[..i], Key(salt))
    {
      result := result + [XorUnit(bytes[i], Key(salt))];
    }
    assert bytes[..|bytes|] == bytes;
    r := Success(result);
  }

  /** `decodeTemplateName(name)` is `decrypt(name, 42)`. */
  method DecodeTemplateName(name: seq<int>) returns (r: Result<seq<int>>)
    ensures r == DecryptOf(name, None)
  {
    r := Decrypt(name, Some(42));
  }

  /** The defining step of `Xor` holds also when both numbers are 0. */
  lemma {:induction false} XorStep(a: nat, b: nat)
    ensures Xor(a, b) == 2 * Xor(a / 2, b / 2) + (a % 2 + b % 2) % 2
  {
  }

  lemma {:induction false} HalfOf(x: nat, bit: nat)
    requires bit < 2
    ensures (2 * x + bit) / 2 == x && (2 * x + bit) % 2 == bit
  {
  }

  lemma {:induction false} BitTwice(p: nat, q: nat)
    requires p < 2 && q < 2
    ensures ((p + q) % 2 + q) % 2 == p
  {
  }

  /** XOR with the same key undoes itself. */
  lemma {:induction false} XorInvolution(a: nat, k: nat)
    ensures Xor(Xor(a, k), k) == a
    decreases a + k
  {
    if !(a == 0 && k == 0) {
      var h := Xor(a / 2, k / 2);
      var bit := (a % 2 + k % 2) % 2;
      var r := Xor(a, k);
      assert r == 2 * h + bit;
      HalfOf(h, bit);
      XorInvolution(a / 2, k / 2);
      XorStep(r, k);
      BitTwice(a % 2, k % 2);
      assert Xor(r, k) == 2 * (a / 2) + a % 2;
    }
  }

  lemma {:induction false} XorAllInvolution(t: seq<int>, k: int)
    requires IsUnits(t) && 0 <= k < 0x1_0000
    ensures XorAll(XorAll(t, k), k) == t
  {
    var u := XorAll(XorAll(t, k), k);
    forall i | 0 <= i < |t|
      ensures u[i] == t[i]
    {
      XorInvolution(t[i], k);
    }
  }

  /** `crypt` throws exactly when some unit XORed with the salt is not a
      byte, since `btoa` throws on such a unit. */
  lemma {:induction false} CryptSucceedsIff(text: seq<int>, saltId: Option<int>)
    requires IsUnits(text)
    ensures CryptOf(text, saltId).Success? <==>
      forall i :: 0 <= i < |text| ==> XorUnit(text[i], Key(Salt(saltId))) < 256
  {
    var x := XorAll(text, Key(Salt(saltId)));
    Base64.BtoaShape(x);
    assert forall i :: 0 <= i < |text| ==> x[i] == XorUnit(text[i], Key(Salt(saltId)));
  }

  /** With the default salt, every Latin-1 text can be encrypted. */
  lemma {:induction false} Latin1AlwaysEncrypts(text: seq<int>)
    requires forall i :: 0 <= i < |text| ==> 0 <= text[i] < 256
    ensures CryptOf(text, None).Success?
  {
    assert Key(Salt(None)) == 42;
    UnitAndByteWidths();
    forall i | 0 <= i < |text|
      ensures XorUnit(text[i], 42) < 256
    {
      XorBelow(text[i], 42, 8);
    }
    CryptSucceedsIff(text, None);
  }

  /** The output of `crypt` is base64 of `4 * ceil(n / 3)` characters. */
  lemma {:induction false} CryptShape(text: seq<int>, saltId: Option<int>)
    requires IsUnits(text) && CryptOf(text, saltId).Success?
    ensures |CryptOf(text, saltId).value| == 4 * ((|text| + 2) / 3)
    ensures forall i :: 0 <= i < |CryptOf(text, saltId).value| ==>
      Base64.InAlphabet(CryptOf(text, saltId).value[i]) || CryptOf(text, saltId).value[i] == Base64.Pad
  {
    Base64.BtoaShape(XorAll(text, Key(Salt(saltId))));
  }

  /** `decrypt(crypt(t, s), s) == t` whenever `crypt` does not throw. */
  lemma {:induction false} CryptRoundTrip(text: seq<int>, saltId: Option<int>)
    requires IsUnits(text) && CryptOf(text, saltId).Success?
    ensures DecryptOf(CryptOf(text, saltId).value, saltId) == Success(text)
  {
    var k := Key(Salt(saltId));
    var x := XorAll(text, k);
    Base64.BtoaShape(x);
    Base64.AtobBtoa(x);
    XorAllInvolution(text, k);
  }

  /** `replacePlaceholders` of the library: its loop runs the same round as
      the templating utility's for each key, so both render the same string. */
  method ReplacePlaceholders(html: string, data: Templating.Data, escape: Option<bool>) returns (r: string)
    requires Templating.DistinctKeys(data)
    requires forall i :: 0 <= i < |data| ==> '$' !in data[i].1
    ensures r == Templating.RenderAsWritten(html, data, |data|, escape)
    ensures Templating.PlainKeys(data) ==> r == Templating.Render(html, data, |data|, escape)
  {
    r := html;
    for n := 0 to |data|
      invariant r == Templating.RenderAsWritten(html, data, n, escape)
    {
      r := Templating.ReplaceKey(r, data, n, escape);
    }
    if Templating.PlainKeys(data) {
      Templating.PlainKeysRenderAsIntended(html, data, |data|, escape);
    }
  }
}
