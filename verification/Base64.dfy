/** Base64 as RFC 4648, section 4, defines it. */
module Base64 {
  import opened ByteStrings
  import opened Wrappers

  type sextet = d: int | 0 <= d < 64

  const PAD: byte := 61

  /** A-Z, a-z, 0-9, + and / */
  function Letter(d: sextet): byte {
    if d < 26 then 65 + d
    else if d < 52 then 71 + d
    else if d < 62 then d - 4
    else if d == 62 then 43
    else 47
  }

  function Digit(b: byte): Option<sextet> {
    if 65 <= b <= 90 then Some(b - 65)
    else if 97 <= b <= 122 then Some(b - 71)
    else if 48 <= b <= 57 then Some(b + 4)
    else if b == 43 then Some(62)
    else if b == 47 then Some(63)
    else None
  }

  function First(a: byte): sextet { a / 4 }
  function Second(a: byte, b: byte): sextet { a % 4 * 16 + b / 16 }
  function Third(b: byte, c: byte): sextet { b % 16 * 4 + c / 64 }
  function Fourth(c: byte): sextet { c % 64 }

  function Encode(bs: Bytes): Bytes {
    if bs == [] then []
    else if |bs| == 1 then [Letter(First(bs[0])), Letter(Second(bs[0], 0)), PAD, PAD]
    else if |bs| == 2 then [Letter(First(bs[0])), Letter(Second(bs[0], bs[1])), Letter(Third(bs[1], 0)), PAD]
    else
      [Letter(First(bs[0])), Letter(Second(bs[0], bs[1])), Letter(Third(bs[1], bs[2])), Letter(Fourth(bs[2]))]
      + Encode(bs[3..])
  }

  function Digits(q: Bytes): Option<seq<sextet>> {
    if q == [] then Some([])
    else
      match (Digit(q[0]), Digits(q[1..]))
      case (Some(d), Some(ds)) => Some([d] + ds)
      case _ => None
  }

  /** The bytes two, three or four sextets stand for; unused bits must be zero. */
  function Join(ds: seq<sextet>): Option<Bytes> {
    if |ds| == 2 && ds[1] % 16 == 0 then Some([Byte0(ds[0], ds[1])])
    else if |ds| == 3 && ds[2] % 4 == 0 then Some([Byte0(ds[0], ds[1]), Byte1(ds[1], ds[2])])
    else if |ds| == 4 then Some([Byte0(ds[0], ds[1]), Byte1(ds[1], ds[2]), Byte2(ds[2], ds[3])])
    else None
  }

  function Byte0(d: sextet, e: sextet): byte { d * 4 + e / 16 }
  function Byte1(d: sextet, e: sextet): byte { d % 16 * 16 + e / 4 }
  function Byte2(d: sextet, e: sextet): byte { d % 4 * 64 + e }

  function DecodeQuantum(q: Bytes): Option<Bytes> {
    match Digits(q)
    case None => None
    case Some(ds) => Join(ds)
  }

  function Decode(text: Bytes): Option<Bytes> {
    if text == [] then Some([])
    else if |text| < 4 then None
    else if |text| == 4 && text[2] == text[3] == PAD then DecodeQuantum(text[..2])
    else if |text| == 4 && text[3] == PAD then DecodeQuantum(text[..3])
    else
      match (DecodeQuantum(text[..4]), Decode(text[4..]))
      case (Some(bs), Some(rest)) => Some(bs + rest)
      case _ => None
  }

  lemma {:induction false} DigitLetter(d: sextet)
    ensures Digit(Letter(d)) == Some(d) && Letter(d) != PAD && Letter(d) != 0
  {
  }

  lemma {:induction false} DigitsLetters(ds: seq<sextet>, q: Bytes)
    requires |q| == |ds| && forall i :: 0 <= i < |ds| ==> q[i] == Letter(ds[i])
    ensures Digits(q) == Some(ds)
  {
    if ds != [] {
      DigitLetter(ds[0]);
      DigitsLetters(ds[1..], q[1..]);
      assert ds == [ds[0]] + ds[1..];
    }
  }

  lemma {:induction false} JoinSplit(a: byte, b: byte, c: byte)
    ensures Byte0(First(a), Second(a, b)) == a
    ensures Byte1(Second(a, b), Third(b, c)) == b
    ensures Byte2(Third(b, c), Fourth(c)) == c
    ensures Second(a, 0) % 16 == 0 && Third(b, 0) % 4 == 0
  {
  }

  lemma {:induction false} QuantumOfTwo(d: sextet, e: sextet)
    requires e % 16 == 0
    ensures DecodeQuantum([Letter(d), Letter(e)]) == Some([Byte0(d, e)])
  {
    DigitsLetters([d, e], [Letter(d), Letter(e)]);
  }

  lemma {:induction false} OneByte(a: byte)
    ensures DecodeQuantum([Letter(First(a)), Letter(Second(a, 0))]) == Some([a])
  {
    JoinSplit(a, 0, 0);
    QuantumOfTwo(First(a), Second(a, 0));
  }

  lemma {:induction false} TwoBytes(a: byte, b: byte)
    ensures DecodeQuantum([Letter(First(a)), Letter(Second(a, b)), Letter(Third(b, 0))]) == Some([a, b])
  {
    JoinSplit(a, b, 0);
    DigitsLetters([First(a), Second(a, b), Third(b, 0)], [Letter(First(a)), Letter(Second(a, b)), Letter(Third(b, 0))]);
  }

  lemma {:induction false} ThreeBytes(a: byte, b: byte, c: byte)
    ensures DecodeQuantum([Letter(First(a)), Letter(Second(a, b)), Letter(Third(b, c)), Letter(Fourth(c))]) == Some([a, b, c])
  {
    JoinSplit(a, b, c);
    DigitsLetters([First(a), Second(a, b), Third(b, c), Fourth(c)],
                  [Letter(First(a)), Letter(Second(a, b)), Letter(Third(b, c)), Letter(Fourth(c))]);
  }

  /** Decoding undoes encoding, for every length. */
  lemma {:induction false} DecodeEncode(bs: Bytes)
    ensures Decode(Encode(bs)) == Some(bs)
  {
    if bs == [] {
    } else if |bs| == 1 {
      OneByte(bs[0]);
      assert Encode(bs)[..2] == [Letter(First(bs[0])), Letter(Second(bs[0], 0))];
      assert bs == [bs[0]];
    } else if |bs| == 2 {
      TwoBytes(bs[0], bs[1]);
      DigitLetter(Third(bs[1], 0));
      assert Encode(bs)[..3] == [Letter(First(bs[0])), Letter(Second(bs[0], bs[1])), Letter(Third(bs[1], 0))];
      assert bs == [bs[0], bs[1]];
    } else {
      ThreeBytes(bs[0], bs[1], bs[2]);
      DigitLetter(Fourth(bs[2]));
      DecodeEncode(bs[3..]);
      var text := Encode(bs);
      assert text[..4]
          == [Letter(First(bs[0])), Letter(Second(bs[0], bs[1])), Letter(Third(bs[1], bs[2])), Letter(Fourth(bs[2]))];
      assert text[4..] == Encode(bs[3..]);
      assert bs == [bs[0], bs[1], bs[2]] + bs[3..];
    }
  }

  lemma {:induction false} LetterDigit(b: byte)
    requires Digit(b).Some?
    ensures Letter(Digit(b).value) == b
  {
  }

  lemma {:induction false} LettersOfDigits(q: Bytes)
    requires Digits(q).Some?
    ensures |Digits(q).value| == |q| && forall i :: 0 <= i < |q| ==> Letter(Digits(q).value[i]) == q[i]
  {
    if q != [] {
      LetterDigit(q[0]);
      LettersOfDigits(q[1..]);
    }
  }

  lemma {:induction false} SplitJoin(d: sextet, e: sextet, f: sextet, g: sextet)
    ensures First(Byte0(d, e)) == d && Second(Byte0(d, e), Byte1(e, f)) == e
    ensures Third(Byte1(e, f), Byte2(f, g)) == f && Fourth(Byte2(f, g)) == g
    ensures e % 16 == 0 ==> Second(Byte0(d, e), 0) == e
    ensures f % 4 == 0 ==> Third(Byte1(e, f), 0) == f
  {
  }

  lemma {:induction false} TwoLetters(d: sextet, e: sextet)
    requires e % 16 == 0
    ensures Encode([Byte0(d, e)]) == [Letter(d), Letter(e), PAD, PAD]
  {
    SplitJoin(d, e, 0, 0);
  }

  lemma {:induction false} ThreeLetters(d: sextet, e: sextet, f: sextet)
    requires f % 4 == 0
    ensures Encode([Byte0(d, e), Byte1(e, f)]) == [Letter(d), Letter(e), Letter(f), PAD]
  {
    SplitJoin(d, e, f, 0);
  }

  lemma {:induction false} FourLetters(d: sextet, e: sextet, f: sextet, g: sextet)
    ensures Encode([Byte0(d, e), Byte1(e, f), Byte2(f, g)]) == [Letter(d), Letter(e), Letter(f), Letter(g)]
  {
    SplitJoin(d, e, f, g);
    assert [Byte0(d, e), Byte1(e, f), Byte2(f, g)][3..] == [];
  }

  /** A quantum that decodes is what its bytes encode to, but for the padding. */
  lemma {:induction false} QuantumCanonical(q: Bytes)
    requires DecodeQuantum(q).Some?
    ensures 2 <= |q| <= 4 && |DecodeQuantum(q).value| == |q| - 1
    ensures Encode(DecodeQuantum(q).value) == q + (if |q| == 2 then [PAD, PAD] else if |q| == 3 then [PAD] else [])
  {
    LettersOfDigits(q);
    var ds := Digits(q).value;
    if |ds| == 2 {
      assert q == [Letter(ds[0]), Letter(ds[1])];
      TwoLetters(ds[0], ds[1]);
    } else if |ds| == 3 {
      assert q == [Letter(ds[0]), Letter(ds[1]), Letter(ds[2])];
      ThreeLetters(ds[0], ds[1], ds[2]);
    } else {
      assert q == [Letter(ds[0]), Letter(ds[1]), Letter(ds[2]), Letter(ds[3])];
      FourLetters(ds[0], ds[1], ds[2], ds[3]);
    }
  }

  lemma {:induction false} EncodeThree(bs: Bytes, rest: Bytes)
    requires |bs| == 3
    ensures Encode(bs + rest) == Encode(bs) + Encode(rest)
  {
    assert bs[3..] == [] && (bs + rest)[3..] == rest;
  }

  lemma {:induction false} EncodeDecode(text: Bytes)
    requires Decode(text).Some?
    ensures Encode(Decode(text).value) == text
  {
    if text == [] {
    } else if |text| == 4 && text[2] == text[3] == PAD {
      QuantumCanonical(text[..2]);
      assert text == text[..2] + [PAD, PAD];
    } else if |text| == 4 && text[3] == PAD {
      QuantumCanonical(text[..3]);
      assert text == text[..3] + [PAD];
    } else {
      QuantumCanonical(text[..4]);
      EncodeDecode(text[4..]);
      EncodeThree(DecodeQuantum(text[..4]).value, Decode(text[4..]).value);
      assert text == text[..4] + text[4..];
    }
  }

  /** A text decodes to a byte string exactly if it is its encoding; every other text is malformed. */
  lemma {:induction false} DecodeIff(text: Bytes, bs: Bytes)
    ensures Decode(text) == Some(bs) <==> text == Encode(bs)
  {
    DecodeEncode(bs);
    if Decode(text) == Some(bs) {
      EncodeDecode(text);
    }
  }

  /** Encoded text never contains a NUL, and has four letters per three bytes. */
  lemma {:induction false} EncodedText(bs: Bytes)
    ensures 0 !in Encode(bs)
    ensures |Encode(bs)| == (|bs| + 2) / 3 * 4
  {
    if |bs| >= 3 {
      EncodedText(bs[3..]);
    }
  }
}
