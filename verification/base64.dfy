/** The standard Base64 alphabet with `=` padding, as produced by Node's
    `Buffer.toString('base64')`, together with a decoder that inverts it. */
module Base64 {
  import opened Wrappers

  type byte = x: int | 0 <= x < 256

  /** A six-bit value: one letter of Base64 text. */
  type sextet = x: int | 0 <= x < 64

  /** The alphabet `A-Z a-z 0-9 + /`. */
  function Digit(x: sextet): (c: char)
    ensures c != '='
  {
    if x < 26 then ('A' as int + x) as char
    else if x < 52 then ('a' as int + x - 26) as char
    else if x < 62 then ('0' as int + x - 52) as char
    else if x == 62 then '+'
    else '/'
  }

  /** The position of `c` in the alphabet, if it is one of its letters. */
  function DigitValue(c: char): (r: Option<sextet>)
    ensures r.Some? ==> Digit(r.value) == c
  {
    if 'A' <= c <= 'Z' then Some(c as int - 'A' as int)
    else if 'a' <= c <= 'z' then Some(c as int - 'a' as int + 26)
    else if '0' <= c <= '9' then Some(c as int - '0' as int + 52)
    else if c == '+' then Some(62)
    else if c == '/' then Some(63)
    else None
  }

  /** Reading an alphabet letter back gives the value it was written for. */
  lemma DigitRoundTrip(x: sextet)
    ensures DigitValue(Digit(x)) == Some(x)
  {
  }

  /** The four letters of three bytes `b0 b1 b2`: each carries six of their 24 bits. */
  function Split0(b0: byte): sextet { b0 / 4 }
  function Split1(b0: byte, b1: byte): sextet { (b0 % 4) * 16 + b1 / 16 }
  function Split2(b1: byte, b2: byte): sextet { (b1 % 16) * 4 + b2 / 64 }
  function Split3(b2: byte): sextet { b2 % 64 }

  /** The three bytes of four letters `d0 d1 d2 d3`. */
  function Join0(d0: sextet, d1: sextet): byte { d0 * 4 + d1 / 16 }
  function Join1(d1: sextet, d2: sextet): byte { (d1 % 16) * 16 + d2 / 4 }
  function Join2(d2: sextet, d3: sextet): byte { (d2 % 4) * 64 + d3 }

  /** Base64 text of `bytes`, padded with `=` to a multiple of four letters. */
  function Encode(bytes: seq<byte>): string
    decreases |bytes|
  {
    if |bytes| == 0 then ""
    else if |bytes| == 1 then [Digit(Split0(bytes[0])), Digit(Split1(bytes[0], 0)), '=', '=']
    else if |bytes| == 2 then
      [Digit(Split0(bytes[0])), Digit(Split1(bytes[0], bytes[1])), Digit(Split2(bytes[1], 0)), '=']
    else
      [Digit(Split0(bytes[0])), Digit(Split1(bytes[0], bytes[1])),
       Digit(Split2(bytes[1], bytes[2])), Digit(Split3(bytes[2]))] + Encode(bytes[3..])
  }

  /** Every three bytes, and a final one or two, become four letters. */
  lemma {:induction false} EncodeLength(bytes: seq<byte>)
    ensures |Encode(bytes)| == (|bytes| + 2) / 3 * 4
    decreases |bytes|
  {
    if |bytes| >= 3 {
      var n := |bytes[3..]|;
      assert |Encode(bytes)| == |Encode(bytes[3..])| + 4 by {
        EncodeUnfold(bytes);
      }
      EncodeLength(bytes[3..]);
      LengthStep(n);
    } else if |bytes| > 0 {
      assert |Encode(bytes)| == 4;
    }
  }

  /** Three more bytes add one more block of four letters. */
  lemma LengthStep(n: nat)
    ensures (n + 3 + 2) / 3 * 4 == (n + 2) / 3 * 4 + 4
  {
  }

  /** Decodes Base64 text; `None` when the text is not well formed. */
  function Decode(s: string): (r: Option<seq<byte>>)
    decreases |s|
  {
    if |s| == 0 then Some([])
    else if |s| < 4 then None
    else
      var d0, d1, d2, d3 := DigitValue(s[0]), DigitValue(s[1]), DigitValue(s[2]), DigitValue(s[3]);
      if d0.None? || d1.None? then None
      else if |s| == 4 && s[2] == '=' && s[3] == '=' then
        Some([Join0(d0.value, d1.value)])
      else if d2.None? then None
      else if |s| == 4 && s[3] == '=' then
        Some([Join0(d0.value, d1.value), Join1(d1.value, d2.value)])
      else if d3.None? then None
      else
        match Decode(s[4..])
        case None => None
        case Some(rest) =>
          Some([Join0(d0.value, d1.value), Join1(d1.value, d2.value), Join2(d2.value, d3.value)] + rest)
  }

  /** Splitting three bytes into four letters and joining them again is lossless. */
  lemma BlockRoundTrip(b0: byte, b1: byte, b2: byte)
    ensures [Join0(Split0(b0), Split1(b0, b1)), Join1(Split1(b0, b1), Split2(b1, b2)), Join2(Split2(b1, b2), Split3(b2))]
         == [b0, b1, b2]
  {
    FirstByteBack(b0, b1);
    SecondByteBack(b0, b1, b2);
    ThirdByteBack(b1, b2);
  }

  lemma FirstByteBack(b0: byte, b1: byte)
    ensures Join0(Split0(b0), Split1(b0, b1)) == b0
  {
    assert Split1(b0, b1) / 16 == b0 % 4 by {
      Parts16(b0 % 4, b1 / 16);
    }
  }

  lemma SecondByteBack(b0: byte, b1: byte, b2: byte)
    ensures Join1(Split1(b0, b1), Split2(b1, b2)) == b1
  {
    assert Split1(b0, b1) % 16 == b1 / 16 by {
      Parts16(b0 % 4, b1 / 16);
    }
    assert Split2(b1, b2) / 4 == b1 % 16 by {
      Parts4(b1 % 16, b2 / 64);
    }
  }

  lemma ThirdByteBack(b1: byte, b2: byte)
    ensures Join2(Split2(b1, b2), Split3(b2)) == b2
  {
    assert Split2(b1, b2) % 4 == b2 / 64 by {
      Parts4(b1 % 16, b2 / 64);
    }
  }

  /** `hi` and `lo` are recovered from `hi * 4 + lo` when `lo < 4`. */
  lemma Parts4(hi: nat, lo: nat)
    requires lo < 4
    ensures (hi * 4 + lo) / 4 == hi && (hi * 4 + lo) % 4 == lo
  {
  }

  /** `hi` and `lo` are recovered from `hi * 16 + lo` when `lo < 16`. */
  lemma Parts16(hi: nat, lo: nat)
    requires lo < 16
    ensures (hi * 16 + lo) / 16 == hi && (hi * 16 + lo) % 16 == lo
  {
  }

  /** Decoding a block of four letters followed by well-formed text. */
  lemma DecodeFullBlock(d0: sextet, d1: sextet, d2: sextet, d3: sextet, rest: string, tail: seq<byte>)
    requires Decode(rest) == Some(tail)
    ensures Decode([Digit(d0), Digit(d1), Digit(d2), Digit(d3)] + rest)
            == Some([Join0(d0, d1), Join1(d1, d2), Join2(d2, d3)] + tail)
  {
    var s := [Digit(d0), Digit(d1), Digit(d2), Digit(d3)] + rest;
    assert s[0] == Digit(d0) && s[1] == Digit(d1) && s[2] == Digit(d2) && s[3] == Digit(d3);
    assert s[4..] == rest;
    DigitRoundTrip(d0);
    DigitRoundTrip(d1);
    DigitRoundTrip(d2);
    DigitRoundTrip(d3);
  }

  /** Decoding the padded encoding of a single trailing byte. */
  lemma DecodeOneByte(b0: byte)
    ensures Decode(Encode([b0])) == Some([b0])
  {
    var s := Encode([b0]);
    assert s == [Digit(Split0(b0)), Digit(Split1(b0, 0)), '=', '='];
    DecodeShortBlock(Split0(b0), Split1(b0, 0));
    BlockRoundTrip(b0, 0, 0);
  }

  /** Decoding two letters padded with `==`. */
  lemma DecodeShortBlock(d0: sextet, d1: sextet)
    ensures Decode([Digit(d0), Digit(d1), '=', '=']) == Some([Join0(d0, d1)])
  {
    DigitRoundTrip(d0);
    DigitRoundTrip(d1);
  }

  /** Decoding the padded encoding of two trailing bytes. */
  lemma DecodeTwoBytes(b0: byte, b1: byte)
    ensures Decode(Encode([b0, b1])) == Some([b0, b1])
  {
    var s := Encode([b0, b1]);
    assert s == [Digit(Split0(b0)), Digit(Split1(b0, b1)), Digit(Split2(b1, 0)), '='];
    BlockRoundTrip(b0, b1, 0);
    DigitRoundTrip(Split0(b0));
    DigitRoundTrip(Split1(b0, b1));
    DigitRoundTrip(Split2(b1, 0));
    assert Digit(Split2(b1, 0)) != '=';
  }

  /** Decoding what was encoded gives the original bytes back. */
  lemma {:induction false} DecodeEncode(bytes: seq<byte>)
    ensures Decode(Encode(bytes)) == Some(bytes)
    decreases |bytes|
  {
    if |bytes| == 0 {
    } else if |bytes| == 1 {
      assert bytes == [bytes[0]];
      DecodeOneByte(bytes[0]);
    } else if |bytes| == 2 {
      assert bytes == [bytes[0], bytes[1]];
      DecodeTwoBytes(bytes[0], bytes[1]);
    } else {
      DecodeEncode(bytes[3..]);
      DecodeEncodeBlock(bytes);
    }
  }

  /** A full leading block is encoded on its own, in front of the rest. */
  lemma EncodeUnfold(bytes: seq<byte>)
    requires |bytes| >= 3
    ensures Encode(bytes) == [Digit(Split0(bytes[0])), Digit(Split1(bytes[0], bytes[1])),
                              Digit(Split2(bytes[1], bytes[2])), Digit(Split3(bytes[2]))] + Encode(bytes[3..])
  {
  }

  /** One induction step: a full leading block decodes to its three bytes. */
  lemma DecodeEncodeBlock(bytes: seq<byte>)
    requires |bytes| >= 3 && Decode(Encode(bytes[3..])) == Some(bytes[3..])
    ensures Decode(Encode(bytes)) == Some(bytes)
  {
    var b0, b1, b2 := bytes[0], bytes[1], bytes[2];
    var d0, d1, d2, d3 := Split0(b0), Split1(b0, b1), Split2(b1, b2), Split3(b2);
    var letters, rest := [Digit(d0), Digit(d1), Digit(d2), Digit(d3)], Encode(bytes[3..]);
    var block := [Join0(d0, d1), Join1(d1, d2), Join2(d2, d3)];
    assert Encode(bytes) == letters + rest by {
      EncodeUnfold(bytes);
    }
    assert Decode(letters + rest) == Some(block + bytes[3..]) by {
      DecodeFullBlock(d0, d1, d2, d3, rest, bytes[3..]);
    }
    assert block + bytes[3..] == bytes by {
      BlockRoundTrip(b0, b1, b2);
      assert bytes == [b0, b1, b2] + bytes[3..];
    }
  }
}
