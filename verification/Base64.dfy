/**
 * Base64 as the client writes and reads it (alphabet of section 4 of RFC 4648).
 *
 * The encoder's shifts and masks on disjoint bit ranges are written as division
 * and remainder. The decoder keeps one `int` accumulator that is never cleared:
 * on long inputs `val << 6` drops high bits, modelled by WrapInt32.
 */
module Base64 {
  import opened Basics

  /** The alphabet A-Z, a-z, 0-9, +, / by position. */
  function Digit(value: int): char
    requires 0 <= value < 64
  {
    if value < 26 then ('A' as int + value) as char
    else if value < 52 then ('a' as int + value - 26) as char
    else if value < 62 then ('0' as int + value - 52) as char
    else if value == 62 then '+'
    else '/'
  }

  function DecodeChar(ch: char): int
  {
    if 'A' <= ch <= 'Z' then ch as int - 'A' as int
    else if 'a' <= ch <= 'z' then ch as int - 'a' as int + 26
    else if '0' <= ch <= '9' then ch as int - '0' as int + 52
    else if ch == '+' then 62
    else if ch == '/' then 63
    else -1
  }

  predicate IsSpace(ch: char)
  {
    ch as int == 32 || 9 <= ch as int <= 13
  }

  /** White space as the C locale has it: the blank and the five control characters from tab to return. */
  lemma SpaceExactly(ch: char)
    ensures IsSpace(ch) <==> ch in [' ', '\t', '\n', '\U{000B}', '\U{000C}', '\r']
  {
  }

  lemma DigitRoundTrip(value: int)
    requires 0 <= value < 64
    ensures DecodeChar(Digit(value)) == value
    ensures Digit(value) != '=' && !IsSpace(Digit(value))
  {
  }

  /** The digits are A to Z, a to z, 0 to 9, '+' and '/', in this order. */
  lemma DigitAlphabet(value: int)
    requires 0 <= value < 64
    ensures Digit(0) == 'A' && Digit(25) == 'Z' && Digit(26) == 'a' && Digit(51) == 'z'
    ensures Digit(52) == '0' && Digit(61) == '9' && Digit(62) == '+' && Digit(63) == '/'
    ensures value !in {25, 51, 61, 62, 63} ==> Digit(value + 1) as int == Digit(value) as int + 1
  {
  }

  // ---------------------------------------------------------------- encoding

  function BlockOf(a: int, b: int, c: int): int { a * 65536 + b * 256 + c }

  /** The six-bit groups of a block, most significant first. */
  function Sextet(k: nat, a: byte, b: byte, c: byte): (r: int)
    ensures 0 <= r < 64
  {
    var block := BlockOf(a as int, b as int, c as int);
    if k == 0 then block / 262144 % 64
    else if k == 1 then block / 4096 % 64
    else if k == 2 then block / 64 % 64
    else block % 64
  }

  /** Full block of three bytes. */
  function Block(a: byte, b: byte, c: byte): string
  {
    [Digit(Sextet(0, a, b, c)), Digit(Sextet(1, a, b, c)), Digit(Sextet(2, a, b, c)), Digit(Sextet(3, a, b, c))]
  }

  function Tail(rest: Bytes): string
    requires |rest| < 3
  {
    if |rest| == 0 then ""
    else if |rest| == 1 then
      [Digit(Sextet(0, rest[0], 0, 0)), Digit(Sextet(1, rest[0], 0, 0)), '=', '=']
    else
      [Digit(Sextet(0, rest[0], rest[1], 0)), Digit(Sextet(1, rest[0], rest[1], 0)),
       Digit(Sextet(2, rest[0], rest[1], 0)), '=']
  }

  function Encode(bytes: Bytes): string
  {
    if |bytes| < 3 then Tail(bytes)
    else Block(bytes[0], bytes[1], bytes[2]) + Encode(bytes[3..])
  }

  method EncodeBase64(bytes: Bytes) returns (encoded: string)
    ensures encoded == Encode(bytes)
  {
    encoded := "";
    var index := 0;
    while index + 3 <= |bytes|
      invariant 0 <= index <= |bytes|
      invariant encoded + Encode(bytes[index..]) == Encode(bytes)
    {
      ghost var rest := bytes[index..];
      encoded := encoded + Block(bytes[index], bytes[index + 1], bytes[index + 2]);
      index := index + 3;
      assert rest[3..] == bytes[index..];
    }
    encoded := encoded + Tail(bytes[index..]);
  }

  /** The number of padding characters at the end. */
  function Padding(text: string): nat
  {
    if text == "" || text[|text| - 1] != '=' then 0 else Padding(text[..|text| - 1]) + 1
  }

  /** An encoding has four characters for every three bytes begun, padded by as many '=' as bytes are missing. */
  lemma {:induction false} EncodedShape(bytes: Bytes)
    ensures |Encode(bytes)| == (|bytes| + 2) / 3 * 4
    ensures Padding(Encode(bytes)) == (3 - |bytes| % 3) % 3
    decreases |bytes|
  {
    hide Block, Tail, Padding;
    if |bytes| >= 3 {
      EncodedShape(bytes[3..]);
      BlockHasNoPadding(bytes[0], bytes[1], bytes[2]);
      PaddingOfConcat(Block(bytes[0], bytes[1], bytes[2]), Encode(bytes[3..]));
      ThreeMore(|bytes| - 3);
    } else {
      TailPadding(bytes);
    }
  }

  lemma ThreeMore(n: nat)
    ensures (n + 3 + 2) / 3 * 4 == (n + 2) / 3 * 4 + 4 && (3 - (n + 3) % 3) % 3 == (3 - n % 3) % 3
  {
  }

  lemma BlockHasNoPadding(a: byte, b: byte, c: byte)
    ensures |Block(a, b, c)| == 4 && Padding(Block(a, b, c)) == 0
  {
    DigitRoundTrip(Sextet(3, a, b, c));
    hide Sextet, Digit;
  }

  lemma TailPadding(rest: Bytes)
    requires |rest| < 3
    ensures |Tail(rest)| == (|rest| + 2) / 3 * 4 && Padding(Tail(rest)) == (3 - |rest| % 3) % 3
  {
    hide Sextet, Digit;
    if |rest| == 1 {
      DigitRoundTrip(Sextet(1, rest[0], 0, 0));
      PaddedTwice(Digit(Sextet(0, rest[0], 0, 0)), Digit(Sextet(1, rest[0], 0, 0)));
    } else if |rest| == 2 {
      DigitRoundTrip(Sextet(2, rest[0], rest[1], 0));
      PaddedOnce(Digit(Sextet(0, rest[0], rest[1], 0)), Digit(Sextet(1, rest[0], rest[1], 0)),
                 Digit(Sextet(2, rest[0], rest[1], 0)));
    }
  }

  lemma PaddedTwice(c: char, d: char)
    requires d != '='
    ensures Padding([c, d, '=', '=']) == 2
  {
    var two, three := [c, d], [c, d, '='];
    assert three[..2] == two && [c, d, '=', '='][..3] == three;
    assert Padding(two) == 0;
    assert Padding(three) == 1;
  }

  lemma PaddedOnce(c: char, d: char, e: char)
    requires e != '='
    ensures Padding([c, d, e, '=']) == 1
  {
    var text := [c, d, e, '='];
    assert text[..3] == [c, d, e];
  }

  lemma {:induction false} PaddingOfConcat(a: string, b: string)
    requires Padding(a) == 0
    ensures Padding(a + b) == Padding(b)
    decreases |b|
  {
    if b == "" {
      assert a + b == a;
    } else if b[|b| - 1] == '=' {
      assert (a + b)[..|a + b| - 1] == a + b[..|b| - 1];
      PaddingOfConcat(a, b[..|b| - 1]);
    }
  }

  // ---------------------------------------------------------------- decoding

  /** Two's complement reading of the low 32 bits. */
  function WrapInt32(x: int): int
  {
    (x + 2147483648) % 4294967296 - 2147483648
  }

  /** `val >> shift` for the three shifts the decoder uses. */
  function ShiftRight(val: int, shift: int): int
    requires shift == 0 || shift == 2 || shift == 4
  {
    if shift == 0 then val else if shift == 2 then val / 4 else val / 16
  }

  /** Bit counters the decoder can hold between two characters. */
  predicate Phase(valb: int) { valb == -8 || valb == -2 || valb == -4 || valb == -6 }

  function Push(val: int, decoded: int): int { WrapInt32(val * 64) + decoded }

  function NextPhase(valb: int): int { if valb + 6 >= 0 then valb - 2 else valb + 6 }

  function Emitted(val: int, valb: int): Bytes
    requires Phase(valb)
  {
    if valb + 6 >= 0 then [(ShiftRight(val, valb + 6) % 256) as byte] else []
  }

  function Prepend(bytes: Bytes, result: Result<Bytes>): Result<Bytes>
  {
    if result.Ok? then Ok(bytes + result.value) else result
  }

  lemma PrependTwice(a: Bytes, b: Bytes, result: Result<Bytes>)
    ensures Prepend(a, Prepend(b, result)) == Prepend(a + b, result)
    ensures Prepend([], result) == result
  {
    if result.Ok? {
      assert a + (b + result.value) == (a + b) + result.value;
      assert [] + result.value == result.value;
    }
  }

  /** The rest of the decoder's loop from accumulator `val` and counter `valb`. */
  function DecodeFrom(input: string, val: int, valb: int): Result<Bytes>
    requires Phase(valb)
  {
    if input == "" then Ok([])
    else if IsSpace(input[0]) then DecodeFrom(input[1..], val, valb)
    else if input[0] == '=' then Ok([])
    else if DecodeChar(input[0]) < 0 then Err("Invalid base64 input")
    else
      var val' := Push(val, DecodeChar(input[0]));
      Prepend(Emitted(val', valb), DecodeFrom(input[1..], val', NextPhase(valb)))
  }

  function Decode(input: string): Result<Bytes> { DecodeFrom(input, 0, -8) }

  method DecodeBase64(input: string) returns (output: Result<Bytes>)
    ensures output == Decode(input)
  {
    var bytes: Bytes := [];
    var val, valb, i := 0, -8, 0;
    assert input[0..] == input;
    PrependTwice([], [], Decode(input));
    while i < |input|
      invariant 0 <= i <= |input|
      invariant Phase(valb)
      invariant Decode(input) == Prepend(bytes, DecodeFrom(input[i..], val, valb))
    {
      var ch := input[i];
      assert input[i..][1..] == input[i + 1..];
      if IsSpace(ch) {
        i := i + 1;
        continue;
      }
      if ch == '=' {
        break;
      }
      var decoded := DecodeChar(ch);
      if decoded < 0 {
        return Err("Invalid base64 input");
      }
      ghost var before, phase := bytes, valb;
      val := Push(val, decoded);
      valb := valb + 6;
      if valb >= 0 {
        bytes := bytes + [(ShiftRight(val, valb) % 256) as byte];
        valb := valb - 8;
      }
      i := i + 1;
      assert bytes == before + Emitted(val, phase);
      PrependTwice(before, Emitted(val, phase), DecodeFrom(input[i..], val, valb));
    }
    assert bytes + [] == bytes;
    output := Ok(bytes);
  }

  // ---------------------------------------------------------------- round trip

  function Strip(input: string): string
  {
    if input == "" then ""
    else if IsSpace(input[0]) then Strip(input[1..])
    else [input[0]] + Strip(input[1..])
  }

  /** White space is invisible to the decoder, wherever it stands. */
  lemma {:induction false} DecodeIgnoresSpace(input: string, val: int, valb: int)
    requires Phase(valb)
    ensures DecodeFrom(input, val, valb) == DecodeFrom(Strip(input), val, valb)
  {
    if input == "" {
    } else if IsSpace(input[0]) {
      DecodeIgnoresSpace(input[1..], val, valb);
    } else {
      assert Strip(input)[1..] == Strip(input[1..]);
      if input[0] != '=' && DecodeChar(input[0]) >= 0 {
        DecodeIgnoresSpace(input[1..], Push(val, DecodeChar(input[0])), NextPhase(valb));
      }
    }
  }

  /** One more alphabet character, whatever the accumulator holds. */
  lemma DecodeStep(value: int, rest: string, val: int, valb: int)
    requires 0 <= value < 64 && Phase(valb)
    ensures var val' := Push(val, value);
            DecodeFrom([Digit(value)] + rest, val, valb) ==
            Prepend(Emitted(val', valb), DecodeFrom(rest, val', NextPhase(valb)))
  {
    DigitRoundTrip(value);
    assert ([Digit(value)] + rest)[1..] == rest;
  }

  /** Adding multiples of 4096 does not change the low 12 bits. */
  lemma LowBits(x: int, q: int, r: int)
    requires x == 4096 * q + r && 0 <= r < 4096
    ensures x % 4096 == r && x / 4096 == q
  {
  }

  lemma WrapKeepsLowBits(x: int)
    ensures WrapInt32(x) % 4096 == x % 4096
  {
    var q := (x + 2147483648) / 4294967296;
    assert WrapInt32(x) == x - 4294967296 * q;
    var p := x / 4096;
    LowBits(WrapInt32(x), p - 1048576 * q, x - 4096 * p);
  }

  /** What two, three and four pushed digits leave in the low bits, from any accumulator. */
  lemma PushedDigits(val: int, d0: int, d1: int, d2: int, d3: int)
    requires 0 <= d0 < 64 && 0 <= d1 < 64 && 0 <= d2 < 64 && 0 <= d3 < 64
    ensures Push(Push(val, d0), d1) % 4096 == d0 * 64 + d1
    ensures Push(Push(Push(val, d0), d1), d2) % 4096 == d1 * 64 + d2
    ensures Push(Push(Push(Push(val, d0), d1), d2), d3) % 4096 == d2 * 64 + d3
  {
    PushedTwo(val, d0, d1);
    PushedTwo(Push(val, d0), d1, d2);
    PushedTwo(Push(Push(val, d0), d1), d2, d3);
  }

  lemma PushedTwo(val: int, d0: int, d1: int)
    requires 0 <= d0 < 64 && 0 <= d1 < 64
    ensures Push(Push(val, d0), d1) % 4096 == d0 * 64 + d1
  {
    var v := Push(val, d0);
    PushedOne(val, d0);
    var q := v / 64;
    assert v * 64 == 4096 * q + 64 * d0;
    LowBits(v * 64, q, 64 * d0);
    WrapKeepsLowBits(v * 64);
    var w := WrapInt32(v * 64);
    LowBits(w + d1, w / 4096, 64 * d0 + d1);
  }

  lemma PushedOne(val: int, d0: int)
    requires 0 <= d0 < 64
    ensures Push(val, d0) % 64 == d0
  {
    var q := (val * 64 + 2147483648) / 4294967296;
    assert Push(val, d0) == 64 * (val - 67108864 * q) + d0;
  }

  lemma EmittedLowBits(val: int)
    ensures Emitted(val, -2) == [(val % 4096 / 16) as byte]
    ensures Emitted(val, -4) == [(val % 4096 / 4 % 256) as byte]
    ensures Emitted(val, -6) == [(val % 4096 % 256) as byte]
  {
    var q, r := val / 4096, val % 4096;
    assert val == 4096 * q + r;
    LowByte(val / 16, q, r / 16);
    LowByte(val / 4, 4 * q + r / 4 / 256, r / 4 % 256);
    LowByte(val, 16 * q + r / 256, r % 256);
  }

  lemma LowByte(x: int, q: int, r: int)
    requires x == 256 * q + r && 0 <= r < 256
    ensures x % 256 == r
  {
  }

  /**
   * Decoding inverts encoding for every byte sequence, from every accumulator
   * value: the stale and wrapped high bits never reach an output byte.
   */
  lemma {:induction false} DecodeInvertsEncode(bytes: Bytes, val: int)
    ensures DecodeFrom(Encode(bytes), val, -8) == Ok(bytes)
  {
    hide DecodeFrom, Push, Emitted, Digit, Sextet, Tail;
    if |bytes| < 3 {
      DecodeInvertsTail(bytes, val);
    } else {
      var a, b, c := bytes[0], bytes[1], bytes[2];
      var d0, d1, d2, d3 := Sextet(0, a, b, c), Sextet(1, a, b, c), Sextet(2, a, b, c), Sextet(3, a, b, c);
      EmittedBytes(val, a, b, c);
      DecodeInvertsEncode(bytes[3..], Push(Push(Push(Push(val, d0), d1), d2), d3));
      DecodeQuad(val, d0, d1, d2, d3, Encode(bytes[3..]));
      assert bytes == [a] + [b] + [c] + bytes[3..];
    }
  }

  lemma DecodeInvertsTail(bytes: Bytes, val: int)
    requires |bytes| < 3
    ensures DecodeFrom(Tail(bytes), val, -8) == Ok(bytes)
  {
    hide DecodeFrom, Push, Emitted, Digit, Sextet;
    if |bytes| == 0 {
      NothingLeft(val, -8);
    } else if |bytes| == 1 {
      EmittedBytes(val, bytes[0], 0, 0);
      DecodePair(val, Sextet(0, bytes[0], 0, 0), Sextet(1, bytes[0], 0, 0));
      assert Tail(bytes) == [Digit(Sextet(0, bytes[0], 0, 0)), Digit(Sextet(1, bytes[0], 0, 0))] + "==";
      assert bytes == [bytes[0]];
    } else {
      var a, b := bytes[0], bytes[1];
      var d0, d1, d2 := Sextet(0, a, b, 0), Sextet(1, a, b, 0), Sextet(2, a, b, 0);
      EmittedBytes(val, bytes[0], bytes[1], 0);
      DecodeTriple(val, d0, d1, d2);
      assert Tail(bytes) == [Digit(d0), Digit(d1), Digit(d2)] + "=";
      assert bytes == [bytes[0]] + [bytes[1]];
    }
  }

  lemma DecodeQuad(val: int, d0: int, d1: int, d2: int, d3: int, rest: string)
    requires 0 <= d0 < 64 && 0 <= d1 < 64 && 0 <= d2 < 64 && 0 <= d3 < 64
    ensures var v1 := Push(val, d0);
            var v2 := Push(v1, d1);
            var v3 := Push(v2, d2);
            var v4 := Push(v3, d3);
            DecodeFrom([Digit(d0), Digit(d1), Digit(d2), Digit(d3)] + rest, val, -8) ==
            Prepend(Emitted(v2, -2) + Emitted(v3, -4) + Emitted(v4, -6), DecodeFrom(rest, v4, -8))
  {
    hide DecodeFrom, Push, Emitted, Digit;
    var v1 := Push(val, d0);
    var v2 := Push(v1, d1);
    var v3 := Push(v2, d2);
    var s3 := [Digit(d3)] + rest;
    var s2 := [Digit(d2)] + s3;
    var r4 := DecodeFrom(rest, Push(v3, d3), -8);
    DecodeStep(d3, rest, v3, -6);
    DecodeStep(d2, s3, v2, -4);
    DecodeStep(d1, s2, v1, -2);
    DecodeStep(d0, [Digit(d1)] + s2, val, -8);
    FirstDigitEmitsNothing(v1);
    assert [Digit(d0), Digit(d1), Digit(d2), Digit(d3)] + rest == [Digit(d0)] + ([Digit(d1)] + s2);
    var e2, e3, e4 := Emitted(v2, -2), Emitted(v3, -4), Emitted(Push(v3, d3), -6);
    assert DecodeFrom([Digit(d0)] + ([Digit(d1)] + s2), val, -8)
        == Prepend([], Prepend(e2, Prepend(e3, Prepend(e4, r4))));
    PrependTwice(e3, e4, r4);
    PrependTwice(e2, e3 + e4, r4);
    PrependTwice([], [], Prepend(e2 + (e3 + e4), r4));
    assert e2 + (e3 + e4) == e2 + e3 + e4;
  }

  lemma DecodeTriple(val: int, d0: int, d1: int, d2: int)
    requires 0 <= d0 < 64 && 0 <= d1 < 64 && 0 <= d2 < 64
    ensures var v1 := Push(val, d0);
            var v2 := Push(v1, d1);
            DecodeFrom([Digit(d0), Digit(d1), Digit(d2)] + "=", val, -8) ==
            Ok(Emitted(v2, -2) + Emitted(Push(v2, d2), -4))
  {
    hide DecodeFrom, Push, Emitted, Digit;
    var v1 := Push(val, d0);
    var v2 := Push(v1, d1);
    DecodeStep(d2, "=", v2, -4);
    DecodeStep(d1, [Digit(d2)] + "=", v1, -2);
    DecodeStep(d0, [Digit(d1)] + ([Digit(d2)] + "="), val, -8);
    FirstDigitEmitsNothing(v1);
    PaddingEnds("", Push(v2, d2), -6);
    assert "=" + "" == "=";
    assert [] + (Emitted(v2, -2) + (Emitted(Push(v2, d2), -4) + [])) == Emitted(v2, -2) + Emitted(Push(v2, d2), -4);
    assert [Digit(d0), Digit(d1), Digit(d2)] + "=" == [Digit(d0)] + ([Digit(d1)] + ([Digit(d2)] + "="));
  }

  lemma DecodePair(val: int, d0: int, d1: int)
    requires 0 <= d0 < 64 && 0 <= d1 < 64
    ensures DecodeFrom([Digit(d0), Digit(d1)] + "==", val, -8) == Ok(Emitted(Push(Push(val, d0), d1), -2))
  {
    hide DecodeFrom, Push, Emitted, Digit;
    var v1 := Push(val, d0);
    DecodeStep(d1, "==", v1, -2);
    DecodeStep(d0, [Digit(d1)] + "==", val, -8);
    FirstDigitEmitsNothing(v1);
    PaddingEnds("=", Push(v1, d1), -4);
    assert "=" + "=" == "==";
    assert [] + (Emitted(Push(v1, d1), -2) + []) == Emitted(Push(v1, d1), -2);
    assert [Digit(d0), Digit(d1)] + "==" == [Digit(d0)] + ([Digit(d1)] + "==");
  }

  lemma NothingLeft(val: int, valb: int)
    requires Phase(valb)
    ensures DecodeFrom("", val, valb) == Ok([])
  {
  }

  lemma PaddingEnds(rest: string, val: int, valb: int)
    requires Phase(valb)
    ensures DecodeFrom("=" + rest, val, valb) == Ok([])
  {
  }

  lemma FirstDigitEmitsNothing(val: int)
    ensures Emitted(val, -8) == []
  {
  }

  /** The bytes a block's digits emit are the block's bytes, whatever preceded them. */
  lemma EmittedBytes(val: int, a: byte, b: byte, c: byte)
    ensures var v2 := Push(Push(val, Sextet(0, a, b, c)), Sextet(1, a, b, c));
            var v3 := Push(v2, Sextet(2, a, b, c));
            && Emitted(v2, -2) == [a]
            && Emitted(v3, -4) == [b]
            && Emitted(Push(v3, Sextet(3, a, b, c)), -6) == [c]
  {
    hide Push, Emitted, Sextet;
    var d0, d1, d2, d3 := Sextet(0, a, b, c), Sextet(1, a, b, c), Sextet(2, a, b, c), Sextet(3, a, b, c);
    var v2 := Push(Push(val, d0), d1);
    PushedDigits(val, d0, d1, d2, d3);
    EmittedLowBits(v2);
    EmittedLowBits(Push(v2, d2));
    EmittedLowBits(Push(Push(v2, d2), d3));
    BlockBytes(a, b, c);
  }

  /** The digits of a block give its three bytes back. */
  lemma BlockBytes(a: byte, b: byte, c: byte)
    ensures var d0, d1, d2, d3 := Sextet(0, a, b, c), Sextet(1, a, b, c), Sextet(2, a, b, c), Sextet(3, a, b, c);
            && (d0 * 64 + d1) / 16 == a as int
            && (d1 * 64 + d2) / 4 % 256 == b as int
            && (d2 * 64 + d3) % 256 == c as int
  {
    hide Sextet;
    BlockDigits(a, b, c);
    var d0, d1, d2, d3 := Sextet(0, a, b, c), Sextet(1, a, b, c), Sextet(2, a, b, c), Sextet(3, a, b, c);
    var x, y, z := a as int, b as int, c as int;
    assert d0 * 64 + d1 == 16 * x + y / 16;
    assert d1 * 64 + d2 == 4 * (x % 4 * 256 + y) + z / 64;
    LowByte(x % 4 * 256 + y, x % 4, y);
    LowByte(d2 * 64 + d3, y % 16, z);
  }

  lemma BlockDigits(a: byte, b: byte, c: byte)
    ensures Sextet(0, a, b, c) == a as int / 4
    ensures Sextet(1, a, b, c) == a as int % 4 * 16 + b as int / 16
    ensures Sextet(2, a, b, c) == b as int % 16 * 4 + c as int / 64
    ensures Sextet(3, a, b, c) == c as int % 64
  {
    var x, y, z := a as int, b as int, c as int;
    var block := BlockOf(x, y, z);
    assert block / 262144 == x / 4;
    assert block / 4096 == x * 16 + y / 16;
    assert block / 64 == x * 1024 + y * 4 + z / 64;
    LowSix(x * 16 + y / 16, x / 4, x % 4 * 16 + y / 16);
    LowSix(x * 1024 + y * 4 + z / 64, x * 16 + y / 16, y % 16 * 4 + z / 64);
    LowSix(block, x * 1024 + y * 4 + z / 64, z % 64);
  }

  lemma LowSix(x: int, q: int, r: int)
    requires x == 64 * q + r && 0 <= r < 64
    ensures x % 64 == r
  {
  }

  lemma {:induction false} EncodeHasNoSpace(bytes: Bytes)
    ensures Strip(Encode(bytes)) == Encode(bytes)
  {
    NoSpaceStrip(Encode(bytes));
    EncodeChars(bytes);
  }

  lemma {:induction false} EncodeChars(bytes: Bytes)
    ensures forall i | 0 <= i < |Encode(bytes)| :: !IsSpace(Encode(bytes)[i])
  {
    forall v | 0 <= v < 64 ensures !IsSpace(Digit(v)) { DigitRoundTrip(v); }
    if |bytes| >= 3 {
      EncodeChars(bytes[3..]);
    }
  }

  lemma {:induction false} NoSpaceStrip(input: string)
    ensures (forall i | 0 <= i < |input| :: !IsSpace(input[i])) ==> Strip(input) == input
  {
    if input != "" {
      NoSpaceStrip(input[1..]);
      if forall i | 0 <= i < |input| :: !IsSpace(input[i]) {
        assert forall i | 0 <= i < |input[1..]| :: !IsSpace(input[1..][i]);
      }
    }
  }

  /** Decoding any text that is an encoding with white space inserted returns the encoded bytes. */
  lemma RoundTrip(bytes: Bytes, text: string)
    requires Strip(text) == Encode(bytes)
    ensures Decode(text) == Ok(bytes)
  {
    DecodeIgnoresSpace(text, 0, -8);
    DecodeInvertsEncode(bytes, 0);
  }

  /** The stored form itself decodes back; hence different bytes have different encodings. */
  lemma RoundTripPlain(bytes: Bytes)
    ensures Decode(Encode(bytes)) == Ok(bytes)
  {
    EncodeHasNoSpace(bytes);
    RoundTrip(bytes, Encode(bytes));
  }

  /** Position of the first padding character, or the length. */
  function Stop(input: string): (n: nat)
    ensures n <= |input|
  {
    if input == "" || input[0] == '=' then 0 else 1 + Stop(input[1..])
  }

  /** The decoder refuses exactly the texts with a foreign character before the first '='. */
  lemma {:induction false} RefusesExactly(input: string, val: int, valb: int)
    requires Phase(valb)
    ensures DecodeFrom(input, val, valb).Err? <==>
            exists i | 0 <= i < Stop(input) :: !IsSpace(input[i]) && DecodeChar(input[i]) < 0
  {
    if input == "" || input[0] == '=' {
    } else {
      var tail := input[1..];
      assert forall i | 0 <= i < Stop(tail) :: tail[i] == input[i + 1];
      assert forall i | 1 <= i < Stop(input) :: input[i] == tail[i - 1];
      if IsSpace(input[0]) {
        RefusesExactly(tail, val, valb);
      } else if DecodeChar(input[0]) >= 0 {
        RefusesExactly(tail, Push(val, DecodeChar(input[0])), NextPhase(valb));
      }
    }
  }
}
