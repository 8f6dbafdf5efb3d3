/** The enclave's byte-level encoders: loops that push bytes into a growing buffer. */
module Encoding {
  import opened ByteStrings
  import opened Wrappers
  import Rlp

  /** A `std::vector<uint8_t>` that encoders write into through a reference. */
  class Buffer {
    var elems: Bytes

    constructor ()
      ensures elems == []
    {
      elems := [];
    }

    method PushBack(b: byte)
      modifies this
      ensures elems == old(elems) + [b]
    {
      elems := elems + [b];
    }

    method Append(s: Bytes)
      modifies this
      ensures elems == old(elems) + s
    {
      elems := elems + s;
    }

    method InsertFront(s: Bytes)
      modifies this
      ensures elems == s + old(elems)
    {
      elems := s + elems;
    }
  }

  function Max(a: int, b: int): int { if a < b then b else a }

  /** Counts the bytes of a number by shifting it out. */
  method CountBytes(num: uint64) returns (n: nat)
    ensures n == ByteLength(num) && n <= 8
  {
    var rest := num;
    n := 0;
    while rest != 0
      invariant n + ByteLength(rest) == ByteLength(num)
    {
      n := n + 1;
      rest := rest / 256;
    }
    ByteLengthOfUint64(num);
  }

  /** Splits a number into big-endian bytes, with zeros in front up to `width`. */
  method Itob(num: uint64, width: nat) returns (out: Bytes)
    ensures out == BigEndian(num, Max(width, ByteLength(num)))
  {
    out := [];
    if num == 0 && width == 0 {
      return;
    }
    var lenLen := CountBytes(num);
    var i: int := lenLen - 1;
    while i >= 0
      invariant -1 <= i < lenLen
      invariant out == BigEndian(Shr(num, i + 1), lenLen - 1 - i)
    {
      out := out + [Shr(num, i) % 256];
      i := i - 1;
    }
    if width > |out| {
      ByteLengthBound(num);
      BigEndianPadded(num, lenLen, width - lenLen);
      out := Zeros(width - |out|) + out;
    }
  }

  /** What Itob returns denotes the number; asked for no width, it has no leading zero. */
  lemma {:induction false} ItobMeaning(num: uint64, width: nat)
    ensures Value(BigEndian(num, Max(width, ByteLength(num)))) == num
    ensures width == 0 && num > 0 ==> BigEndian(num, Max(width, ByteLength(num)))[0] != 0
  {
    ByteLengthLeast(num, Max(width, ByteLength(num)));
    ValueOfBigEndianExact(num, Max(width, ByteLength(num)));
    MinimalNoLeadingZero(num);
  }

  /** Shifting a 64-bit number by 64 is undefined: `undef` is whatever comes of it. */
  function GetNthByte(num: uint64, n: nat, undef: byte): byte {
    if n > 8 then 0xFF else if n == 8 then undef else Shr(num, n) % 256
  }

  /** The bytes written for a number at a width: right up to 8 bytes, nonsense in front beyond that. */
  function WordBytes(num: uint64, len: nat, undef: byte): (bs: Bytes)
    ensures |bs| == len
  {
    if len <= 8 then BigEndian(num, len) else seq(len - 9, _ => 0xFF) + [undef] + BigEndian(num, 8)
  }

  /** Appends a number as a 256-bit word, its low `len` bytes after zeros. */
  method AppendAsUint256(out: Buffer, num: uint64, len: int, undef: byte) returns (ret: int)
    modifies out
    ensures len > 32 ==> ret == -1 && out.elems == old(out.elems)
    ensures len < 0 ==> ret == 0 && out.elems == old(out.elems) + Zeros(32 - len)
    ensures 0 <= len <= 32 ==> ret == 0 && out.elems == old(out.elems) + (Zeros(32 - len) + WordBytes(num, len, undef))
  {
    if len > 32 {
      return -1;
    }
    ghost var before := out.elems;
    for i := 0 to 32 - len
      invariant out.elems == before + Zeros(i)
    {
      out.PushBack(0);
      assert Zeros(i) + [0] == Zeros(i + 1);
    }
    PushWordBytes(out, num, len, undef);
    return 0;
  }

  /** The second loop: pushes the bytes of the number from the highest down. */
  method PushWordBytes(out: Buffer, num: uint64, len: int, undef: byte)
    modifies out
    ensures out.elems == old(out.elems) + if len < 0 then [] else WordBytes(num, len, undef)
  {
    ghost var padded := out.elems;
    var i := len - 1;
    while i >= 0
      invariant len < 0 ==> i < 0 && out.elems == padded
      invariant len >= 0 ==> -1 <= i < len
      invariant 0 <= len <= 8 ==> out.elems == padded + BigEndian(Shr(num, i + 1), len - 1 - i)
      invariant len > 8 && i >= 8 ==> out.elems == padded + seq(len - 1 - i, _ => 0xFF)
      invariant len > 8 && i < 8 ==>
        out.elems == padded + seq(len - 9, _ => 0xFF) + [undef] + BigEndian(Shr(num, i + 1), 7 - i)
    {
      if i == 8 {
        assert Shr(num, 8) == 0 ==> BigEndian(Shr(num, 8), 0) == [];
      }
      out.PushBack(GetNthByte(num, i, undef));
      i := i - 1;
    }
  }

  /** At more than 8 bytes the word denotes the number in one case only: at 9 bytes, if the undefined
      shift happens to give zero. */
  lemma {:induction false} WideWord(num: uint64, len: nat, undef: byte)
    requires 9 <= len <= 32
    ensures Value(Zeros(32 - len) + WordBytes(num, len, undef)) == num <==> len == 9 && undef == 0
  {
    var front := seq(len - 9, _ => 0xFF) + [undef];
    LeadingZeros(32 - len, WordBytes(num, len, undef));
    ValueConcat(front, BigEndian(num, 8));
    assert Value(BigEndian(num, 8)) == num by {
      Pow256Eight();
      ValueOfBigEndianExact(num, 8);
    }
    FrontValue(front, len - 9, undef);
    ScaledZero(Value(front), Pow256(8));
  }

  lemma {:induction false} ScaledZero(x: nat, p: nat)
    requires p > 0
    ensures x * p == 0 <==> x == 0
  {
  }

  lemma {:induction false} FrontValue(front: Bytes, n: nat, undef: byte)
    requires |front| == n + 1 && front[n] == undef && forall i :: 0 <= i < n ==> front[i] == 0xFF
    ensures Value(front) == 0 <==> n == 0 && undef == 0
  {
    assert Value(front) == 256 * Value(front[..n]) + undef;
    if n > 0 {
      assert Value(front[..n]) == 256 * Value(front[..n][..n - 1]) + front[..n][n - 1];
    }
  }

  /** The word AppendAsUint256 writes has the value of the number modulo 256^len. */
  lemma {:induction false} UintWordValue(num: uint64, len: nat)
    requires len <= 8
    ensures Value(Zeros(32 - len) + BigEndian(num, len)) == num % Pow256(len)
  {
    LeadingZeros(32 - len, BigEndian(num, len));
    ValueOfBigEndian(num, len);
  }

  /** RLP-encodes a byte string given by a pair of iterators. */
  method RlpString(input: Bytes, out: Buffer)
    requires |input| < TWO_64
    modifies out
    ensures out.elems == old(out.elems) + Rlp.Encode(input)
  {
    var len := |input|;
    if len == 1 && input[0] < 0x80 {
      out.PushBack(input[0]);
      return;
    }
    ghost var before := out.elems;
    if len < 56 {
      out.PushBack(0x80 + len);
    } else {
      var lenLen := CountBytes(len);
      out.PushBack(0xb7 + lenLen);
      var lenBytes := Itob(len, 0);
      out.Append(lenBytes);
    }
    assert out.elems == before + Rlp.LengthPrefix(0x80, len);
    out.Append(input);
  }

  /** The older encoder over a pointer and an `int` length; a null pointer is rejected. */
  method RlpItem(input: Option<Bytes>, len: int, out: Buffer) returns (threw: bool)
    requires -0x8000_0000 <= len < 0x8000_0000
    requires input.Some? ==> len <= |input.value|
    modifies out
    ensures threw == input.None?
    ensures threw ==> out.elems == old(out.elems)
    ensures !threw && len >= 0 ==> out.elems == old(out.elems) + Rlp.Encode(input.value[..len])
    ensures !threw && len < 0 ==> out.elems == old(out.elems) + [ToByte(0x80 + len)]
  {
    if input.None? {
      return true;
    }
    var s := input.value;
    if len == 1 && s[0] < 0x80 {
      out.PushBack(s[0]);
      assert s[..1] == [s[0]];
      return false;
    }
    RlpItemHeader(len, out);
    PushFirst(s, len, out);
    if len >= 0 {
      Rlp.EncodeLong(s[..len]);
    }
    return false;
  }

  /** Pushes the first `len` bytes; none if `len` is negative. */
  method PushFirst(s: Bytes, len: int, out: Buffer)
    requires len <= |s|
    modifies out
    ensures out.elems == old(out.elems) + s[..Max(0, len)]
  {
    var i := 0;
    while i < len
      invariant 0 <= i <= Max(0, len)
      invariant out.elems == old(out.elems) + s[..i]
    {
      out.PushBack(s[i]);
      i := i + 1;
    }
  }

  /** The length bytes, pushed one shift at a time. */
  method RlpItemHeader(len: int, out: Buffer)
    requires -0x8000_0000 <= len < 0x8000_0000
    modifies out
    ensures len >= 0 ==> out.elems == old(out.elems) + Rlp.LengthPrefix(0x80, len)
    ensures len < 0 ==> out.elems == old(out.elems) + [ToByte(0x80 + len)]
  {
    if len < 56 {
      out.PushBack(ToByte(0x80 + len));
    } else {
      var lenLen := CountBytes(len);
      out.PushBack(0xb7 + lenLen);
      PushShifted(len, lenLen, out);
      assert Rlp.LengthPrefix(0x80, len) == [0xb7 + lenLen] + Minimal(len);
    }
  }

  /** One shift for each byte of the number, the highest first. */
  method PushShifted(num: uint64, lenLen: nat, out: Buffer)
    requires lenLen == ByteLength(num)
    modifies out
    ensures out.elems == old(out.elems) + Minimal(num)
  {
    var i: int := lenLen - 1;
    while i >= 0
      invariant -1 <= i < lenLen
      invariant out.elems == old(out.elems) + BigEndian(Shr(num, i + 1), lenLen - 1 - i)
    {
      out.PushBack(Shr(num, i) % 256);
      i := i - 1;
    }
  }

  // ---- reading fixed-width integers back ----

  function Reverse(s: Bytes): (r: Bytes)
    ensures |r| == |s|
    ensures forall i :: 0 <= i < |s| ==> r[i] == s[|s| - 1 - i]
  {
    seq(|s|, i requires 0 <= i < |s| => s[|s| - 1 - i])
  }

  /** The number a little-endian machine loads from these bytes. */
  function Load(bs: Bytes): nat { Value(Reverse(bs)) }

  /** The bytes a little-endian machine stores for a number of `size` bytes. */
  function Store(n: nat, size: nat): (bs: Bytes)
    ensures |bs| == size
  {
    Reverse(BigEndian(n, size))
  }

  /** Reverses the byte order of a `size`-byte number through a pair of byte unions. */
  method SwapEndian(u: nat, size: nat) returns (r: nat)
    requires u < Pow256(size)
    ensures r == Load(BigEndian(u, size)) && r < Pow256(size)
  {
    var source := Store(u, size);
    var dest := new byte[size];
    for k := 0 to size
      invariant forall j :: 0 <= j < k ==> dest[j] == source[size - 1 - j]
    {
      dest[k] := source[size - k - 1];
    }
    assert dest[..] == BigEndian(u, size);
    r := Load(dest[..]);
    ValueBound(Reverse(dest[..]));
  }

  /** Swapping twice gives the number back. */
  lemma {:induction false} SwapInvolution(u: nat, size: nat)
    requires u < Pow256(size)
    ensures Load(BigEndian(Load(BigEndian(u, size)), size)) == u
  {
    var bs := BigEndian(u, size);
    BigEndianOfValue(Reverse(bs));
    assert Reverse(Reverse(bs)) == bs;
    ValueOfBigEndianExact(u, size);
  }

  /** Reads the `size`-byte number that ends at `n`. */
  method UintBytes(buf: Bytes, n: nat, size: nat, bigEndian: bool) returns (r: nat)
    requires size <= n <= |buf|
    ensures r == if bigEndian then Value(buf[n - size..n]) else Load(buf[n - size..n])
  {
    var raw := buf[n - size..n];
    r := Load(raw);
    ValueBound(Reverse(raw));
    if bigEndian {
      BigEndianOfValue(Reverse(raw));
      assert Reverse(Reverse(raw)) == raw;
      r := SwapEndian(r, size);
    }
  }

  /** UintBytes at the width AppendAsUint256 was given reads the number modulo 256^len back. */
  lemma {:induction false} UintWordTail(num: uint64, len: nat)
    requires len <= 8
    ensures Value((Zeros(32 - len) + BigEndian(num, len))[32 - len..32]) == num % Pow256(len)
  {
    assert (Zeros(32 - len) + BigEndian(num, len))[32 - len..32] == BigEndian(num, len);
    ValueOfBigEndian(num, len);
  }
}
