/** Recursive Length Prefix encoding (Appendix B of the Ethereum Yellow Paper) of byte strings
    and of flat lists of byte strings. The encoder is the one the enclave computes; the decoder
    is the specification: it accepts canonical encodings only. */
module Rlp {
  import opened ByteStrings
  import opened Wrappers

  function Encode(s: Bytes): Bytes {
    if |s| == 1 && s[0] < 0x80 then s
    else LengthPrefix(0x80, |s|) + s
  }

  lemma {:induction false} EncodeLong(s: Bytes)
    requires !(|s| == 1 && s[0] < 0x80)
    ensures Encode(s) == LengthPrefix(0x80, |s|) + s
  {
  }

  /** The prefix for a payload of `len` bytes: 0x80 is the base for strings, 0xc0 for lists. */
  function LengthPrefix(base: byte, len: nat): Bytes
    requires base == 0x80 || base == 0xc0
  {
    if len < 56 then [base + len]
    else if ByteLength(len) <= 8 then [base + 55 + ByteLength(len)] + Minimal(len)
    else []  // no 64-bit length gets here
  }

  /** Reads a canonical length prefix: the length and what follows the prefix. */
  function ReadPrefix(base: byte, bs: Bytes): Option<(nat, Bytes)>
    requires base == 0x80 || base == 0xc0
  {
    if bs == [] || !(base <= bs[0] < base + 64) then None
    else if bs[0] <= base + 55 then Some((bs[0] - base, bs[1..]))
    else
      var w := bs[0] - base - 55;
      if |bs| < 1 + w || bs[1] == 0 then None
      else
        var len := Value(bs[1..1 + w]);
        if len < 56 then None else Some((len, bs[1 + w..]))
  }

  function Split(len: nat, bs: Bytes): Option<(Bytes, Bytes)> {
    if |bs| < len then None else Some((bs[..len], bs[len..]))
  }

  /** Reads one string off the front of `bs`; None unless it starts with a canonical encoding. */
  function Decode(bs: Bytes): Option<(Bytes, Bytes)> {
    if bs != [] && bs[0] < 0x80 then Some((bs[..1], bs[1..]))
    else
      match ReadPrefix(0x80, bs)
      case None => None
      case Some((len, tail)) =>
        match Split(len, tail)
        case None => None
        case Some((s, rest)) => if |s| == 1 && s[0] < 0x80 then None else Some((s, rest))
  }

  lemma {:induction false} PrefixRoundTrip(base: byte, len: nat, rest: Bytes)
    requires base == 0x80 || base == 0xc0
    requires len < TWO_64
    ensures ReadPrefix(base, LengthPrefix(base, len) + rest) == Some((len, rest))
  {
    if len < 56 {
      assert ([base + len] + rest)[1..] == rest;
    } else {
      ByteLengthOfUint64(len);
      MinimalNoLeadingZero(len);
      MinimalValue(len);
      LongPrefixRoundTrip(base, Minimal(len), rest);
    }
  }

  lemma {:induction false} LongPrefixRoundTrip(base: byte, m: Bytes, rest: Bytes)
    requires base == 0x80 || base == 0xc0
    requires 1 <= |m| <= 8 && m[0] != 0 && Value(m) >= 56
    ensures ReadPrefix(base, [base + 55 + |m|] + m + rest) == Some((Value(m), rest))
  {
    var bs := [base + 55 + |m|] + m + rest;
    assert bs[1] == m[0];
    assert bs[1..1 + |m|] == m;
    assert bs[1 + |m|..] == rest;
  }

  lemma {:induction false} PrefixCanonical(base: byte, bs: Bytes)
    requires base == 0x80 || base == 0xc0
    requires ReadPrefix(base, bs).Some?
    ensures var (len, rest) := ReadPrefix(base, bs).value;
      len < TWO_64 && bs == LengthPrefix(base, len) + rest
  {
    if bs[0] <= base + 55 {
      assert bs == [bs[0]] + bs[1..];
    } else {
      var w := bs[0] - base - 55;
      assert bs[1..1 + w][0] == bs[1];
      MinimalPrefix(base, bs[1..1 + w]);
      assert bs == [bs[0]] + bs[1..1 + w] + bs[1 + w..];
    }
  }

  lemma {:induction false} MinimalPrefix(base: byte, m: Bytes)
    requires base == 0x80 || base == 0xc0
    requires 1 <= |m| <= 8 && m[0] != 0 && Value(m) >= 56
    ensures Value(m) < TWO_64 && LengthPrefix(base, Value(m)) == [base + 55 + |m|] + m
  {
    var n := Value(m);
    NoLeadingZeroIsMinimal(m);
    assert ByteLength(n) == |m|;
    ByteLengthLeast(n, 8);
    Pow256Eight();
  }

  /** Decoding undoes encoding, whatever follows. */
  lemma {:induction false} DecodeEncode(s: Bytes, rest: Bytes)
    requires |s| < TWO_64
    ensures Decode(Encode(s) + rest) == Some((s, rest))
  {
    if |s| == 1 && s[0] < 0x80 {
      assert (s + rest)[..1] == s;
      assert (s + rest)[1..] == rest;
    } else {
      var p := LengthPrefix(0x80, |s|);
      PrefixRoundTrip(0x80, |s|, s + rest);
      assert Encode(s) + rest == p + (s + rest);
      assert (p + (s + rest))[0] >= 0x80;
      assert (s + rest)[..|s|] == s;
      assert (s + rest)[|s|..] == rest;
    }
  }

  /** Encoding undoes decoding: the decoder accepts nothing but encodings. */
  lemma {:induction false} EncodeDecode(bs: Bytes)
    requires Decode(bs).Some?
    ensures var (s, rest) := Decode(bs).value;
      |s| < TWO_64 && bs == Encode(s) + rest
  {
    if bs[0] < 0x80 {
      assert bs == bs[..1] + bs[1..];
    } else {
      PrefixCanonical(0x80, bs);
      var (len, tail) := ReadPrefix(0x80, bs).value;
      assert tail == tail[..len] + tail[len..];
    }
  }

  /** No encoding is a proper prefix of another. */
  lemma {:induction false} PrefixFree(s: Bytes, t: Bytes)
    requires |s| < TWO_64 && |t| < TWO_64
    requires Encode(s) <= Encode(t)
    ensures s == t
  {
    var more := Encode(t)[|Encode(s)|..];
    assert Encode(t) == Encode(s) + more;
    DecodeEncode(s, more);
    DecodeEncode(t, []);
    assert Encode(t) + [] == Encode(t);
  }

  /** The three forms the format allows for a string, canonical or not. */
  ghost predicate LegalForm(form: Bytes, s: Bytes) {
    || (|s| == 1 && s[0] < 0x80 && form == s)
    || (|s| <= 55 && form == [0x80 + |s|] + s)
    || (exists lenBytes: Bytes :: 1 <= |lenBytes| <= 8 && Value(lenBytes) == |s|
         && form == [0xb7 + |lenBytes|] + lenBytes + s)
  }

  /** The encoder picks a legal form, and no legal form is shorter. */
  lemma {:induction false} ShortestForm(s: Bytes, form: Bytes)
    requires |s| < TWO_64
    ensures LegalForm(Encode(s), s)
    ensures LegalForm(form, s) ==> |Encode(s)| <= |form|
  {
    if |s| >= 56 {
      ByteLengthOfUint64(|s|);
      MinimalValue(|s|);
      assert Encode(s) == [0xb7 + |Minimal(|s|)|] + Minimal(|s|) + s;
      MinimalNoLeadingZero(|s|);
      if LegalForm(form, s) {
        var lenBytes: Bytes :| 1 <= |lenBytes| <= 8 && Value(lenBytes) == |s|
          && form == [0xb7 + |lenBytes|] + lenBytes + s;
        ValueBound(lenBytes);
        ByteLengthLeast(|s|, |lenBytes|);
      }
    }
  }

  // ---- sequences of strings ----

  /** Every item is short enough for the format. */
  ghost predicate Encodable(items: seq<Bytes>) { forall i :: 0 <= i < |items| ==> |items[i]| < TWO_64 }

  function EncodeAll(items: seq<Bytes>): Bytes {
    if items == [] then [] else Encode(items[0]) + EncodeAll(items[1..])
  }

  function DecodeAll(bs: Bytes): Option<seq<Bytes>>
    decreases |bs|
  {
    if bs == [] then Some([])
    else
      match Decode(bs)
      case None => None
      case Some((s, rest)) =>
        DecodeShortens(bs);
        match DecodeAll(rest)
        case None => None
        case Some(items) => Some([s] + items)
  }

  lemma {:induction false} DecodeShortens(bs: Bytes)
    requires Decode(bs).Some?
    ensures |Decode(bs).value.1| < |bs|
  {
  }

  lemma {:induction false} DecodeAllEncodeAll(items: seq<Bytes>)
    requires Encodable(items)
    ensures DecodeAll(EncodeAll(items)) == Some(items)
  {
    if items != [] {
      DecodeEncode(items[0], EncodeAll(items[1..]));
      DecodeAllEncodeAll(items[1..]);
      assert items == [items[0]] + items[1..];
    }
  }

  lemma {:induction false} EncodeAllDecodeAll(bs: Bytes)
    requires DecodeAll(bs).Some?
    ensures Encodable(DecodeAll(bs).value)
    ensures EncodeAll(DecodeAll(bs).value) == bs
    decreases |bs|
  {
    if bs != [] {
      var (s, rest) := Decode(bs).value;
      EncodeDecode(bs);
      DecodeShortens(bs);
      EncodeAllDecodeAll(rest);
      var items := DecodeAll(rest).value;
      assert ([s] + items)[1..] == items;
    }
  }

  lemma {:induction false} EncodeAllAppend(items: seq<Bytes>, s: Bytes)
    ensures EncodeAll(items + [s]) == EncodeAll(items) + Encode(s)
  {
    var more := items + [s];
    if items == [] {
      assert more[1..] == [];
    } else {
      EncodeAllAppend(items[1..], s);
      assert more[1..] == items[1..] + [s];
      assert more[0] == items[0];
    }
  }

  // ---- lists ----

  function EncodeList(items: seq<Bytes>): Bytes {
    LengthPrefix(0xc0, |EncodeAll(items)|) + EncodeAll(items)
  }

  /** The items of a list that takes up the whole of `bs`. */
  function DecodeList(bs: Bytes): Option<seq<Bytes>> {
    match ReadPrefix(0xc0, bs)
    case None => None
    case Some((len, payload)) => if |payload| != len then None else DecodeAll(payload)
  }

  lemma {:induction false} DecodeListEncodeList(items: seq<Bytes>)
    requires Encodable(items) && |EncodeAll(items)| < TWO_64
    ensures DecodeList(EncodeList(items)) == Some(items)
  {
    PrefixRoundTrip(0xc0, |EncodeAll(items)|, EncodeAll(items));
    DecodeAllEncodeAll(items);
  }

  /** Both directions: a byte string decodes to a list exactly when it is that list's encoding. */
  lemma {:induction false} DecodeListIff(bs: Bytes, items: seq<Bytes>)
    ensures DecodeList(bs) == Some(items)
      <==> Encodable(items) && |EncodeAll(items)| < TWO_64 && bs == EncodeList(items)
  {
    if DecodeList(bs) == Some(items) {
      PrefixCanonical(0xc0, bs);
      EncodeAllDecodeAll(ReadPrefix(0xc0, bs).value.1);
    }
    if Encodable(items) && |EncodeAll(items)| < TWO_64 && bs == EncodeList(items) {
      DecodeListEncodeList(items);
    }
  }
}
