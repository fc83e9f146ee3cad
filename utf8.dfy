/** The bytes that stand behind a PHP string: the model's strings are
    sequences of Unicode scalar values, and the PHP string holding the same
    text holds their UTF-8 encoding (RFC 3629). Only the credentials that
    are base64-encoded ever need to be seen as bytes. */
module Utf8 {
  import opened PhpValues
  import opened Arith

  /** The UTF-8 encoding of one scalar value (section 3 of RFC 3629). */
  function EncodeScalar(c: char): (r: seq<byte>)
    ensures 1 <= |r| <= 4
    ensures (c as int < 0x80) <==> (r == [c as int])
  {
    var n := c as int;
    if n < 0x80 then [n]
    else if n < 0x800 then [0xC0 + n / 0x40, 0x80 + n % 0x40]
    else if n < 0x1_0000 then [0xE0 + n / 0x1000, 0x80 + n / 0x40 % 0x40, 0x80 + n % 0x40]
    else [0xF0 + n / 0x4_0000, 0x80 + n / 0x1000 % 0x40, 0x80 + n / 0x40 % 0x40, 0x80 + n % 0x40]
  }

  function Encode(s: string): seq<byte>
  {
    if s == [] then [] else EncodeScalar(s[0]) + Encode(s[1..])
  }

  predicate IsContinuation(b: byte) {
    0x80 <= b < 0xC0
  }

  /** How many bytes the sequence started by `lead` has; 0 for a byte that
      cannot start a sequence. */
  function SequenceLength(lead: byte): (k: nat)
    ensures k <= 4
  {
    if lead < 0x80 then 1
    else if 0xC2 <= lead < 0xE0 then 2
    else if 0xE0 <= lead < 0xF0 then 3
    else if 0xF0 <= lead < 0xF5 then 4
    else 0
  }

  /** Decodes exactly one well-formed sequence; rejects bad continuation
      bytes, overlong forms, surrogates and values above U+10FFFF. */
  function DecodeScalar(b: seq<byte>): (r: Option<char>)
    requires 1 <= |b| <= 4
  {
    if |b| == 1 then
      if b[0] < 0x80 then Some(b[0] as char) else None
    else if !(forall i | 1 <= i < |b| :: IsContinuation(b[i])) then None
    else if |b| == 2 then
      var n := (b[0] as int - 0xC0) * 0x40 + (b[1] as int - 0x80);
      if 0x80 <= n < 0x800 && 0xC0 <= b[0] then Some(n as char) else None
    else if |b| == 3 then
      var n := (b[0] as int - 0xE0) * 0x1000 + (b[1] as int - 0x80) * 0x40 + (b[2] as int - 0x80);
      if 0x800 <= n < 0x1_0000 && !(0xD800 <= n < 0xE000) && 0xE0 <= b[0] then Some(n as char) else None
    else
      var n := (b[0] as int - 0xF0) * 0x4_0000 + (b[1] as int - 0x80) * 0x1000
               + (b[2] as int - 0x80) * 0x40 + (b[3] as int - 0x80);
      if 0x1_0000 <= n < 0x11_0000 && 0xF0 <= b[0] then Some(n as char) else None
  }

  function Decode(b: seq<byte>): Option<string>
    decreases |b|
  {
    if b == [] then Some("")
    else
      var k := SequenceLength(b[0]);
      if k == 0 || |b| < k then None
      else match DecodeScalar(b[..k])
        case None => None
        case Some(c) =>
          match Decode(b[k..])
          case None => None
          case Some(rest) => Some([c] + rest)
  }

  lemma {:induction false} ScalarRoundTrip(c: char)
    ensures SequenceLength(EncodeScalar(c)[0]) == |EncodeScalar(c)|
    ensures DecodeScalar(EncodeScalar(c)) == Some(c)
  {
    var n := c as int;
    if 0x80 <= n < 0x800 {
      TwoByteRoundTrip(c);
    } else if 0x800 <= n < 0x1_0000 {
      ThreeByteRoundTrip(c);
    } else if 0x1_0000 <= n {
      FourByteRoundTrip(c);
    }
  }

  lemma {:induction false} TwoByteRoundTrip(c: char)
    requires 0x80 <= c as int < 0x800
    ensures SequenceLength(EncodeScalar(c)[0]) == |EncodeScalar(c)| == 2
    ensures DecodeScalar(EncodeScalar(c)) == Some(c)
  {
    DivMod(c as int, 0x40);
  }

  lemma {:induction false} ThreeByteRoundTrip(c: char)
    requires 0x800 <= c as int < 0x1_0000
    ensures SequenceLength(EncodeScalar(c)[0]) == |EncodeScalar(c)| == 3
    ensures DecodeScalar(EncodeScalar(c)) == Some(c)
  {
    var n := c as int;
    DivMod(n, 0x40);
    DivMod(n / 0x40, 0x40);
    SixBitsTwice(n);
  }

  lemma {:induction false} FourByteRoundTrip(c: char)
    requires 0x1_0000 <= c as int
    ensures SequenceLength(EncodeScalar(c)[0]) == |EncodeScalar(c)| == 4
    ensures DecodeScalar(EncodeScalar(c)) == Some(c)
  {
    var n := c as int;
    DivMod(n, 0x40);
    DivMod(n / 0x40, 0x40);
    DivMod(n / 0x1000, 0x40);
    SixBitsTwice(n);
    SixBitsTwice(n / 0x40);
    assert n / 0x4_0000 == n / 0x1000 / 0x40 by {
      var q, r := n / 0x1000 / 0x40, n / 0x1000 % 0x40 * 0x1000 + n % 0x1000;
      DivMod(n, 0x1000);
      DivModUnique(n, 0x4_0000, q, r);
    }
  }

  /** Dropping six bits twice drops twelve. */
  lemma {:induction false} SixBitsTwice(n: nat)
    ensures n / 0x1000 == n / 0x40 / 0x40
  {
    var q, r := n / 0x40 / 0x40, n / 0x40 % 0x40 * 0x40 + n % 0x40;
    DivMod(n, 0x40);
    DivMod(n / 0x40, 0x40);
    DivModUnique(n, 0x1000, q, r);
  }

  lemma {:induction false} TwoByteSound(b0: int, b1: int)
    requires 0xC0 <= b0 && 0x80 <= b1 < 0xC0
    ensures var n := (b0 - 0xC0) * 0x40 + (b1 - 0x80);
            n / 0x40 == b0 - 0xC0 && n % 0x40 == b1 - 0x80
  {
    DivParts(b0 - 0xC0, b1 - 0x80, 0x40);
  }

  lemma {:induction false} ThreeByteSound(b0: int, b1: int, b2: int)
    requires 0xE0 <= b0 && 0x80 <= b1 < 0xC0 && 0x80 <= b2 < 0xC0
    ensures var n := (b0 - 0xE0) * 0x1000 + (b1 - 0x80) * 0x40 + (b2 - 0x80);
            n / 0x1000 == b0 - 0xE0 && n / 0x40 % 0x40 == b1 - 0x80 && n % 0x40 == b2 - 0x80
  {
    var q := (b0 - 0xE0) * 0x40 + (b1 - 0x80);
    DivParts(q, b2 - 0x80, 0x40);
    DivParts(b0 - 0xE0, b1 - 0x80, 0x40);
    DivParts(b0 - 0xE0, (b1 - 0x80) * 0x40 + (b2 - 0x80), 0x1000);
  }

  lemma {:induction false} FourByteSound(b0: int, b1: int, b2: int, b3: int)
    requires 0xF0 <= b0 && 0x80 <= b1 < 0xC0 && 0x80 <= b2 < 0xC0 && 0x80 <= b3 < 0xC0
    ensures var n := (b0 - 0xF0) * 0x4_0000 + (b1 - 0x80) * 0x1000 + (b2 - 0x80) * 0x40 + (b3 - 0x80);
            n / 0x4_0000 == b0 - 0xF0 && n / 0x1000 % 0x40 == b1 - 0x80
            && n / 0x40 % 0x40 == b2 - 0x80 && n % 0x40 == b3 - 0x80
  {
    var q1 := (b0 - 0xF0) * 0x40 + (b1 - 0x80);
    var q2 := q1 * 0x40 + (b2 - 0x80);
    DivParts(q2, b3 - 0x80, 0x40);
    DivParts(q1, b2 - 0x80, 0x40);
    DivParts(b0 - 0xF0, b1 - 0x80, 0x40);
    DivParts(q1, (b2 - 0x80) * 0x40 + (b3 - 0x80), 0x1000);
    DivParts(b0 - 0xF0, (b1 - 0x80) * 0x1000 + (b2 - 0x80) * 0x40 + (b3 - 0x80), 0x4_0000);
  }

  /** A sequence that decodes is the encoding of what it decodes to. */
  lemma {:induction false} DecodeScalarSound(b: seq<byte>)
    requires 1 <= |b| <= 4
    ensures DecodeScalar(b).Some? ==> EncodeScalar(DecodeScalar(b).value) == b
  {
    if DecodeScalar(b).Some? && |b| > 1 {
      assert IsContinuation(b[1]);
      if |b| == 2 {
        TwoByteSound(b[0], b[1]);
      } else if |b| == 3 {
        assert IsContinuation(b[2]);
        ThreeByteSound(b[0], b[1], b[2]);
      } else {
        assert IsContinuation(b[2]) && IsContinuation(b[3]);
        FourByteSound(b[0], b[1], b[2], b[3]);
      }
    }
  }

  /** One step of `Decode` on input that decodes. */
  lemma {:induction false} DecodeStep(b: seq<byte>)
    requires b != [] && Decode(b).Some?
    ensures var k := SequenceLength(b[0]);
            0 < k <= |b| && DecodeScalar(b[..k]).Some? && Decode(b[k..]).Some?
            && Decode(b).value == [DecodeScalar(b[..k]).value] + Decode(b[k..]).value
  {
  }

  /** Decoding undoes encoding, so distinct texts give distinct bytes. */
  lemma {:induction false} RoundTrip(s: string)
    ensures Decode(Encode(s)) == Some(s)
    decreases |s|
  {
    if s != [] {
      var e := EncodeScalar(s[0]);
      var b := Encode(s);
      assert b == e + Encode(s[1..]);
      ScalarRoundTrip(s[0]);
      assert b[0] == e[0];
      assert b[..|e|] == e;
      assert b[|e|..] == Encode(s[1..]);
      RoundTrip(s[1..]);
      assert [s[0]] + s[1..] == s;
    }
  }

  /** The other direction: whatever decodes is the encoding of its result,
      so `Decode` accepts exactly the encodings. */
  lemma {:induction false} DecodeSound(b: seq<byte>)
    ensures Decode(b).Some? ==> Encode(Decode(b).value) == b
    decreases |b|
  {
    if b != [] && Decode(b).Some? {
      DecodeStep(b);
      var k := SequenceLength(b[0]);
      DecodeScalarSound(b[..k]);
      DecodeSound(b[k..]);
      EncodeJoin(b, k, DecodeScalar(b[..k]).value, Decode(b[k..]).value);
    }
  }

  lemma {:induction false} EncodeJoin(b: seq<byte>, k: nat, c: char, rest: string)
    requires k <= |b| && EncodeScalar(c) == b[..k] && Encode(rest) == b[k..]
    ensures Encode([c] + rest) == b
  {
    EncodeCons(c, rest);
    assert b == b[..k] + b[k..];
  }

  lemma {:induction false} EncodeCons(c: char, rest: string)
    ensures Encode([c] + rest) == EncodeScalar(c) + Encode(rest)
  {
    assert ([c] + rest)[0] == c && ([c] + rest)[1..] == rest;
  }

  /** Text made of ASCII characters is its own byte string. */
  lemma {:induction false} AsciiIsIdentity(s: string)
    requires forall i | 0 <= i < |s| :: s[i] as int < 0x80
    ensures |Encode(s)| == |s|
    ensures forall i | 0 <= i < |s| :: Encode(s)[i] == s[i] as int
    decreases |s|
  {
    if s != [] {
      AsciiIsIdentity(s[1..]);
      assert Encode(s) == [s[0] as int] + Encode(s[1..]);
    }
  }

  lemma {:induction false} EncodeAppend(s: string, t: string)
    ensures Encode(s + t) == Encode(s) + Encode(t)
    decreases |s|
  {
    if s == [] {
      assert s + t == t;
    } else {
      assert (s + t)[0] == s[0];
      assert (s + t)[1..] == s[1..] + t;
      EncodeAppend(s[1..], t);
    }
  }
}
