/** The base64 encoding of section 4 of RFC 4648, as PHP's `base64_encode`
    applies it to the `user:password` string of the Basic scheme: the
    64-symbol alphabet of Table 1, 24-bit groups written as four symbols and
    a final partial group padded with `=`. */
module Base64 {
  import opened PhpValues
  import opened Arith

  /** Table 1 of RFC 4648: the symbol for a 6-bit value. */
  function Symbol(x: int): (c: char)
    requires 0 <= x < 64
  {
    if x < 26 then ('A' as int + x) as char
    else if x < 52 then ('a' as int + (x - 26)) as char
    else if x < 62 then ('0' as int + (x - 52)) as char
    else if x == 62 then '+'
    else '/'
  }

  /** The 6-bit value a symbol stands for, if it is one of the 64. */
  function Value(c: char): (r: Option<int>)
    ensures r.Some? ==> 0 <= r.value < 64 && Symbol(r.value) == c
  {
    if 'A' <= c <= 'Z' then Some(c as int - 'A' as int)
    else if 'a' <= c <= 'z' then Some(c as int - 'a' as int + 26)
    else if '0' <= c <= '9' then Some(c as int - '0' as int + 52)
    else if c == '+' then Some(62)
    else if c == '/' then Some(63)
    else None
  }

  lemma {:induction false} ValueOfSymbol(x: int)
    requires 0 <= x < 64
    ensures Value(Symbol(x)) == Some(x)
  {
  }

  const Pad: char := '='

  predicate IsSymbol(c: char) {
    Value(c).Some?
  }

  /** The four symbols for the 24-bit group b0 b1 b2. */
  function EncodeGroup(b0: byte, b1: byte, b2: byte): (r: string)
    ensures |r| == 4 && forall i | 0 <= i < 4 :: IsSymbol(r[i])
  {
    ValueOfSymbol(b0 / 4);
    ValueOfSymbol(b0 % 4 * 16 + b1 / 16);
    ValueOfSymbol(b1 % 16 * 4 + b2 / 64);
    ValueOfSymbol(b2 % 64);
    [Symbol(b0 / 4), Symbol(b0 % 4 * 16 + b1 / 16), Symbol(b1 % 16 * 4 + b2 / 64), Symbol(b2 % 64)]
  }

  /** A final group of one byte: two symbols and two pad characters. */
  function EncodeOne(b0: byte): (r: string)
    ensures |r| == 4 && IsSymbol(r[0]) && IsSymbol(r[1]) && r[2] == Pad && r[3] == Pad
  {
    ValueOfSymbol(b0 / 4);
    ValueOfSymbol(b0 % 4 * 16);
    [Symbol(b0 / 4), Symbol(b0 % 4 * 16), Pad, Pad]
  }

  /** A final group of two bytes: three symbols and one pad character. */
  function EncodeTwo(b0: byte, b1: byte): (r: string)
    ensures |r| == 4 && IsSymbol(r[0]) && IsSymbol(r[1]) && IsSymbol(r[2]) && r[3] == Pad
  {
    ValueOfSymbol(b0 / 4);
    ValueOfSymbol(b0 % 4 * 16 + b1 / 16);
    ValueOfSymbol(b1 % 16 * 4);
    [Symbol(b0 / 4), Symbol(b0 % 4 * 16 + b1 / 16), Symbol(b1 % 16 * 4), Pad]
  }

  function Encode(b: seq<byte>): (r: string)
    ensures |r| == 4 * ((|b| + 2) / 3)
    ensures forall i | 0 <= i < |r| :: IsSymbol(r[i]) || r[i] == Pad
    decreases |b|
  {
    if |b| == 0 then ""
    else if |b| == 1 then EncodeOne(b[0])
    else if |b| == 2 then EncodeTwo(b[0], b[1])
    else
      var g, rest := EncodeGroup(b[0], b[1], b[2]), Encode(b[3..]);
      GroupCount(|b|);
      assert forall i | 4 <= i < |g + rest| :: (g + rest)[i] == rest[i - 4];
      g + rest
  }

  /** A full group of three bytes adds one quantum. */
  lemma {:induction false} GroupCount(n: int)
    requires n >= 3
    ensures (n + 2) / 3 == (n - 1) / 3 + 1
  {
    DivMod(n - 1, 3);
    DivModUnique(n + 2, 3, (n - 1) / 3 + 1, (n - 1) % 3);
  }

  /** Decodes one quantum of four symbols that is followed by more input:
      it may not hold padding. */
  function DecodeGroup(q: string): (r: Option<seq<byte>>)
    requires |q| == 4
  {
    match (Value(q[0]), Value(q[1]), Value(q[2]), Value(q[3]))
    case (Some(v0), Some(v1), Some(v2), Some(v3)) =>
      Some([v0 * 4 + v1 / 16, v1 % 16 * 16 + v2 / 4, v2 % 4 * 64 + v3])
    case _ => None
  }

  /** Decodes the last quantum, where one or two `=` mark a partial group;
      pad bits that are not zero are rejected (section 3.5 of RFC 4648). */
  function DecodeFinal(q: string): (r: Option<seq<byte>>)
    requires |q| == 4
  {
    if q[2] == Pad && q[3] == Pad then
      match (Value(q[0]), Value(q[1]))
      case (Some(v0), Some(v1)) =>
        if v1 % 16 == 0 then Some([v0 * 4 + v1 / 16]) else None
      case _ => None
    else if q[3] == Pad then
      match (Value(q[0]), Value(q[1]), Value(q[2]))
      case (Some(v0), Some(v1), Some(v2)) =>
        if v2 % 4 == 0 then Some([v0 * 4 + v1 / 16, v1 % 16 * 16 + v2 / 4]) else None
      case _ => None
    else DecodeGroup(q)
  }

  function Decode(s: string): Option<seq<byte>>
    decreases |s|
  {
    if |s| == 0 then Some([])
    else if |s| < 4 then None
    else if |s| == 4 then DecodeFinal(s)
    else match (DecodeGroup(s[..4]), Decode(s[4..]))
      case (Some(g), Some(rest)) => Some(g + rest)
      case _ => None
  }

  lemma {:induction false} GroupRoundTrip(b0: byte, b1: byte, b2: byte)
    ensures DecodeGroup(EncodeGroup(b0, b1, b2)) == Some([b0, b1, b2])
  {
    var v0, v1, v2, v3 := b0 / 4, b0 % 4 * 16 + b1 / 16, b1 % 16 * 4 + b2 / 64, b2 % 64;
    ValueOfSymbol(v0);
    ValueOfSymbol(v1);
    ValueOfSymbol(v2);
    ValueOfSymbol(v3);
    DivParts(b0 % 4, b1 / 16, 16);
    DivParts(b1 % 16, b2 / 64, 4);
    assert v0 * 4 + v1 / 16 == b0;
    assert v1 % 16 * 16 + v2 / 4 == b1;
    assert v2 % 4 * 64 + v3 == b2;
  }

  lemma {:induction false} FinalOneRoundTrip(b: seq<byte>)
    requires |b| == 1
    ensures Decode(Encode(b)) == Some(b)
  {
    var b0 := b[0];
    var q := EncodeOne(b0);
    ValueOfSymbol(b0 / 4);
    ValueOfSymbol(b0 % 4 * 16);
    DivParts(b0 % 4, 0, 16);
    assert DecodeFinal(q) == Some([b0]);
    assert [b0] == b;
  }

  lemma {:induction false} FinalTwoRoundTrip(b: seq<byte>)
    requires |b| == 2
    ensures Decode(Encode(b)) == Some(b)
  {
    var b0, b1 := b[0], b[1];
    var q := EncodeTwo(b0, b1);
    var v0, v1, v2 := b0 / 4, b0 % 4 * 16 + b1 / 16, b1 % 16 * 4;
    ValueOfSymbol(v0);
    ValueOfSymbol(v1);
    ValueOfSymbol(v2);
    DivParts(b0 % 4, b1 / 16, 16);
    DivParts(b1 % 16, 0, 4);
    assert v0 * 4 + v1 / 16 == b0;
    assert v1 % 16 * 16 + v2 / 4 == b1;
    assert DecodeFinal(q) == Some([b0, b1]);
    assert [b0, b1] == b;
  }

  /** Decoding undoes encoding: the credentials can be read back from the
      encoded text. */
  lemma {:induction false} RoundTrip(b: seq<byte>)
    ensures Decode(Encode(b)) == Some(b)
    decreases |b|
  {
    if |b| == 1 {
      FinalOneRoundTrip(b);
    } else if |b| == 2 {
      FinalTwoRoundTrip(b);
    } else if |b| >= 3 {
      var g := EncodeGroup(b[0], b[1], b[2]);
      var tail := Encode(b[3..]);
      var s := Encode(b);
      assert s == g + tail;
      GroupRoundTrip(b[0], b[1], b[2]);
      assert b == [b[0], b[1], b[2]] + b[3..];
      if |b| == 3 {
        assert s == g;
        assert g[2] != Pad && g[3] != Pad;
        assert DecodeFinal(g) == DecodeGroup(g);
        assert b == [b[0], b[1], b[2]];
      } else {
        RoundTrip(b[3..]);
        assert s[..4] == g && s[4..] == tail;
      }
    }
  }

  /** Splitting four 6-bit values into three bytes and regrouping the bytes
      into 6-bit values gives the four values back. */
  lemma {:induction false} Regroup(v0: int, v1: int, v2: int, v3: int)
    requires 0 <= v0 < 64 && 0 <= v1 < 64 && 0 <= v2 < 64 && 0 <= v3 < 64
    ensures var b0, b1, b2 := v0 * 4 + v1 / 16, v1 % 16 * 16 + v2 / 4, v2 % 4 * 64 + v3;
            b0 / 4 == v0 && b0 % 4 * 16 + b1 / 16 == v1 && b1 % 16 * 4 + b2 / 64 == v2 && b2 % 64 == v3
  {
    DivParts(v0, v1 / 16, 4);
    DivParts(v1 % 16, v2 / 4, 16);
    DivParts(v2 % 4, v3, 64);
    DivMod(v1, 16);
    DivMod(v2, 4);
  }

  lemma {:induction false} EncodeRegrouped(v0: int, v1: int, v2: int, v3: int)
    requires 0 <= v0 < 64 && 0 <= v1 < 64 && 0 <= v2 < 64 && 0 <= v3 < 64
    ensures EncodeGroup(v0 * 4 + v1 / 16, v1 % 16 * 16 + v2 / 4, v2 % 4 * 64 + v3)
            == [Symbol(v0), Symbol(v1), Symbol(v2), Symbol(v3)]
  {
    Regroup(v0, v1, v2, v3);
  }

  lemma {:induction false} EncodeOneRegrouped(v0: int, v1: int)
    requires 0 <= v0 < 64 && 0 <= v1 < 64 && v1 % 16 == 0
    ensures EncodeOne(v0 * 4 + v1 / 16) == [Symbol(v0), Symbol(v1), Pad, Pad]
  {
    Regroup(v0, v1, 0, 0);
  }

  lemma {:induction false} EncodeTwoRegrouped(v0: int, v1: int, v2: int)
    requires 0 <= v0 < 64 && 0 <= v1 < 64 && 0 <= v2 < 64 && v2 % 4 == 0
    ensures EncodeTwo(v0 * 4 + v1 / 16, v1 % 16 * 16 + v2 / 4) == [Symbol(v0), Symbol(v1), Symbol(v2), Pad]
  {
    Regroup(v0, v1, v2, 0);
  }

  /** Four symbols, as the decoder reads them. */
  lemma {:induction false} SymbolsOf(q: string)
    requires |q| == 4 && Value(q[0]).Some? && Value(q[1]).Some?
    ensures q[2] == Pad && q[3] == Pad ==> q == [Symbol(Value(q[0]).value), Symbol(Value(q[1]).value), Pad, Pad]
    ensures Value(q[2]).Some? && q[3] == Pad ==>
              q == [Symbol(Value(q[0]).value), Symbol(Value(q[1]).value), Symbol(Value(q[2]).value), Pad]
    ensures Value(q[2]).Some? && Value(q[3]).Some? ==>
              q == [Symbol(Value(q[0]).value), Symbol(Value(q[1]).value),
                    Symbol(Value(q[2]).value), Symbol(Value(q[3]).value)]
  {
  }

  /** What `DecodeGroup` computes, in terms of the four symbol values. */
  lemma {:induction false} DecodeGroupValues(q: string)
    requires |q| == 4 && DecodeGroup(q).Some?
    ensures Value(q[0]).Some? && Value(q[1]).Some? && Value(q[2]).Some? && Value(q[3]).Some?
    ensures var v0, v1, v2, v3 := Value(q[0]).value, Value(q[1]).value, Value(q[2]).value, Value(q[3]).value;
            DecodeGroup(q).value == [v0 * 4 + v1 / 16, v1 % 16 * 16 + v2 / 4, v2 % 4 * 64 + v3]
  {
  }

  lemma {:induction false} GroupSound(q: string)
    requires |q| == 4 && DecodeGroup(q).Some?
    ensures |DecodeGroup(q).value| == 3
    ensures var b := DecodeGroup(q).value; EncodeGroup(b[0], b[1], b[2]) == q
  {
    DecodeGroupValues(q);
    var v0, v1, v2, v3 := Value(q[0]).value, Value(q[1]).value, Value(q[2]).value, Value(q[3]).value;
    EncodeRegrouped(v0, v1, v2, v3);
    SymbolsOf(q);
  }

  lemma {:induction false} FinalOneSound(q: string)
    requires |q| == 4 && q[2] == Pad && q[3] == Pad && DecodeFinal(q).Some?
    ensures |DecodeFinal(q).value| == 1 && Encode(DecodeFinal(q).value) == q
  {
    assert Value(q[0]).Some? && Value(q[1]).Some?;
    var v0, v1 := Value(q[0]).value, Value(q[1]).value;
    assert v1 % 16 == 0 && DecodeFinal(q).value == [v0 * 4 + v1 / 16];
    EncodeOneRegrouped(v0, v1);
    SymbolsOf(q);
  }

  lemma {:induction false} FinalTwoSound(q: string)
    requires |q| == 4 && q[2] != Pad && q[3] == Pad && DecodeFinal(q).Some?
    ensures |DecodeFinal(q).value| == 2 && Encode(DecodeFinal(q).value) == q
  {
    assert Value(q[0]).Some? && Value(q[1]).Some? && Value(q[2]).Some?;
    var v0, v1, v2 := Value(q[0]).value, Value(q[1]).value, Value(q[2]).value;
    assert v2 % 4 == 0 && DecodeFinal(q).value == [v0 * 4 + v1 / 16, v1 % 16 * 16 + v2 / 4];
    EncodeTwoRegrouped(v0, v1, v2);
    SymbolsOf(q);
  }

  lemma {:induction false} FinalSound(q: string)
    requires |q| == 4 && DecodeFinal(q).Some?
    ensures 1 <= |DecodeFinal(q).value| <= 3
    ensures Encode(DecodeFinal(q).value) == q
  {
    if q[2] == Pad && q[3] == Pad {
      FinalOneSound(q);
    } else if q[3] == Pad {
      FinalTwoSound(q);
    } else {
      var b := DecodeFinal(q).value;
      assert b == DecodeGroup(q).value;
      GroupSound(q);
      assert Encode(b) == EncodeGroup(b[0], b[1], b[2]) + Encode(b[3..]);
      assert b[3..] == [];
    }
  }

  /** The converse of `RoundTrip`: whatever text decodes is the encoding of
      what it decodes to, so `Encode` is the only text for its bytes. */
  lemma {:induction false} DecodeSound(s: string)
    ensures Decode(s).Some? ==> Encode(Decode(s).value) == s
    ensures Decode(s).Some? && s != [] ==> Decode(s).value != []
    decreases |s|
  {
    if |s| == 4 && Decode(s).Some? {
      FinalSound(s);
    } else if |s| > 4 && Decode(s).Some? {
      var g, rest := DecodeGroup(s[..4]).value, Decode(s[4..]).value;
      GroupSound(s[..4]);
      DecodeSound(s[4..]);
      var b := g + rest;
      assert Decode(s).value == b;
      assert b[..3] == g && b[3..] == rest;
      assert Encode(b) == EncodeGroup(b[0], b[1], b[2]) + Encode(b[3..]);
      assert s == s[..4] + s[4..];
    }
  }

  /** The encoded text never holds a line break, so it cannot end a header
      line early. */
  lemma {:induction false} NoLineBreak(b: seq<byte>)
    ensures forall i | 0 <= i < |Encode(b)| :: Encode(b)[i] != '\n'
  {
    var r := Encode(b);
    forall i | 0 <= i < |r| ensures r[i] != '\n' {
      assert IsSymbol(r[i]) || r[i] == Pad;
    }
  }
}
