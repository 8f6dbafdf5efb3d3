/** How the older scanner reads a RequestInfo log: fixed offsets, little-endian loads and byte swaps. */
module LogDecoding {
  import opened ByteStrings
  import opened Encoding
  import opened Wrappers

  // ---- byte swaps ----
  // An unsigned integer is its bytes, least significant first, as it lies in memory. Every mask and
  // shift of the swaps moves whole bytes.

  function Mask(x: Bytes, keep: seq<bool>): (r: Bytes)
    requires |x| == |keep|
    ensures |r| == |x|
  {
    seq(|x|, i requires 0 <= i < |x| => if keep[i] then x[i] else 0)
  }

  function ShiftUp(x: Bytes, k: nat): (r: Bytes)
    requires k <= |x|
    ensures |r| == |x|
  {
    Zeros(k) + x[..|x| - k]
  }

  function ShiftDown(x: Bytes, k: nat): (r: Bytes)
    requires k <= |x|
    ensures |r| == |x|
  {
    x[k..] + Zeros(k)
  }

  /** `|` of operands that share no byte */
  function Or(x: Bytes, y: Bytes): (r: Bytes)
    requires |x| == |y| && forall i :: 0 <= i < |x| ==> x[i] == 0 || y[i] == 0
    ensures |r| == |x|
  {
    seq(|x|, i requires 0 <= i < |x| => if x[i] == 0 then y[i] else x[i])
  }

  const LOW_4: seq<bool> := [true, true, true, true, false, false, false, false]   // 0x00000000FFFFFFFF
  const HIGH_4: seq<bool> := [false, false, false, false, true, true, true, true]  // 0xFFFFFFFF00000000
  const LOW_2: seq<bool> := [true, true, false, false, true, true, false, false]   // 0x0000FFFF0000FFFF
  const HIGH_2: seq<bool> := [false, false, true, true, false, false, true, true]  // 0xFFFF0000FFFF0000
  const LOW_1: seq<bool> := [true, false, true, false, true, false, true, false]   // 0x00FF00FF00FF00FF
  const HIGH_1: seq<bool> := [false, true, false, true, false, true, false, true]  // 0xFF00FF00FF00FF00

  /** Byte `i` and its partner `k` bytes away are kept by different masks. */
  predicate Partners(low: seq<bool>, high: seq<bool>, k: nat, i: nat)
    requires |low| == |high| == 8 && i < 8
  {
    && high[i] == !low[i]
    && (low[i] ==> i + k < 8 && !low[i + k])
    && (high[i] ==> k <= i && low[i - k])
  }

  predicate Alternate(low: seq<bool>, high: seq<bool>, k: nat) {
    |low| == |high| == 8 && 1 <= k <= 4 && forall i :: 0 <= i < 8 ==> Partners(low, high, k, i)
  }

  lemma {:induction false} GroupByte(x: Bytes, low: seq<bool>, high: seq<bool>, k: nat, i: nat)
    requires |x| == 8 && i < 8 && Alternate(low, high, k)
    ensures Partners(low, high, k, i)
    ensures low[i] ==> ShiftUp(Mask(x, low), k)[i] == 0 && ShiftDown(Mask(x, high), k)[i] == x[i + k]
    ensures high[i] ==> ShiftUp(Mask(x, low), k)[i] == x[i - k] && ShiftDown(Mask(x, high), k)[i] == 0
  {
    assert Partners(low, high, k, i);
    if i + k < 8 {
      assert Partners(low, high, k, i + k);
      assert ShiftDown(Mask(x, high), k)[i] == Mask(x, high)[i + k];
    }
    if k <= i {
      assert Partners(low, high, k, i - k);
      assert ShiftUp(Mask(x, low), k)[i] == Mask(x, low)[i - k];
    }
  }

  /** `(x & low) << 8k | (x & high) >> 8k` */
  function SwapGroups(x: Bytes, low: seq<bool>, high: seq<bool>, k: nat): (r: Bytes)
    requires |x| == 8 && Alternate(low, high, k)
    ensures |r| == 8
    ensures forall i :: 0 <= i < 8 ==> Partners(low, high, k, i) && r[i] == if low[i] then x[i + k] else x[i - k]
  {
    assert forall i :: 0 <= i < 8 ==>
        && Partners(low, high, k, i)
        && (low[i] ==> ShiftUp(Mask(x, low), k)[i] == 0 && ShiftDown(Mask(x, high), k)[i] == x[i + k])
        && (high[i] ==> ShiftUp(Mask(x, low), k)[i] == x[i - k] && ShiftDown(Mask(x, high), k)[i] == 0)
    by {
      forall i | 0 <= i < 8
        ensures
          && Partners(low, high, k, i)
          && (low[i] ==> ShiftUp(Mask(x, low), k)[i] == 0 && ShiftDown(Mask(x, high), k)[i] == x[i + k])
          && (high[i] ==> ShiftUp(Mask(x, low), k)[i] == x[i - k] && ShiftDown(Mask(x, high), k)[i] == 0)
      {
        GroupByte(x, low, high, k, i);
      }
    }
    Or(ShiftUp(Mask(x, low), k), ShiftDown(Mask(x, high), k))
  }

  function SwapUint64(x0: Bytes): (r: Bytes)
    requires |x0| == 8
    ensures r == Reverse(x0)
  {
    var x1 := SwapGroups(x0, LOW_4, HIGH_4, 4);
    var x2 := SwapGroups(x1, LOW_2, HIGH_2, 2);
    SwapGroups(x2, LOW_1, HIGH_1, 1)
  }

  function SwapUint32(num: Bytes): (r: Bytes)
    requires |num| == 4
    ensures r == Reverse(num)
  {
    var b0 := Mask(ShiftDown(num, 3), [true, false, false, false]);
    var b2 := Mask(ShiftUp(num, 1), [false, false, true, false]);
    var b1 := Mask(ShiftDown(num, 1), [false, true, false, false]);
    var b3 := Mask(ShiftUp(num, 3), [false, false, false, true]);
    Or(Or(Or(b0, b2), b1), b3)
  }

  /** Both swaps are their own inverses. */
  lemma {:induction false} SwapTwice(x: Bytes)
    ensures |x| == 8 ==> SwapUint64(SwapUint64(x)) == x
    ensures |x| == 4 ==> SwapUint32(SwapUint32(x)) == x
  {
    assert Reverse(Reverse(x)) == x;
  }

  // ---- the log ----

  datatype RequestLog = RequestLog(
    id: uint64, requestType: byte, requester: Word, fee: Word, callback: Word, paramsHash: Word, data: seq<Word>)

  /** The event's data: six static words, the offset of the array, its length and its words. */
  function EncodeLog(r: RequestLog): Bytes {
    Head(r) + BigEndian(0xe0, 32) + BigEndian(|r.data|, 32) + Flatten(r.data)
  }

  function Head(r: RequestLog): (h: Bytes)
    ensures |h| == 192
  {
    BigEndian(r.id, 32) + BigEndian(r.requestType, 32) + r.requester + r.fee + r.callback + r.paramsHash
  }

  /** The length in bytes, kept in 32 bits. */
  function DataLength(start: Bytes): nat
    requires |start| >= 256
  {
    Value(start[252..256]) * 32 % TWO_32
  }

  /** Reads id, type and request data at fixed offsets. None if the log is shorter than its fields or
      than the data it announces: the source does not look, and has no defined result then. */
  method DecodeLog(start: Bytes) returns (result: Option<(nat, byte, Bytes)>)
    ensures result.None? <==> |start| < 256 || |start| < 256 + DataLength(start)
    ensures result.Some? ==>
      result.value == (Value(start[24..32]), start[63], start[256..256 + DataLength(start)])
  {
    if |start| < 256 {
      return None;
    }
    var id := Load(SwapUint64(start[32 - 8..32]));
    assert Reverse(Reverse(start[24..32])) == start[24..32];
    var requestType := start[64 - 1];
    var reqLen := Load(SwapUint32(start[0xe0 + 32 - 4..0xe0 + 32]));
    assert Reverse(Reverse(start[252..256])) == start[252..256];
    if |start| < 0x100 + reqLen * 32 % TWO_32 {
      return None;
    }
    return Some((id, requestType, start[0x100..0x100 + reqLen * 32 % TWO_32]));
  }

  lemma {:induction false} FlattenLength(words: seq<Word>)
    ensures |Flatten(words)| == 32 * |words|
  {
    if words != [] {
      FlattenLength(words[1..]);
    }
  }

  /** Where the fields lie in an encoded log. */
  lemma {:induction false} Layout(r: RequestLog)
    ensures var log := EncodeLog(r);
      && |log| == 256 + 32 * |r.data|
      && log[24..32] == BigEndian(r.id, 32)[24..] && log[63] == BigEndian(r.requestType, 32)[31]
      && log[252..256] == BigEndian(|r.data|, 32)[28..] && log[256..] == Flatten(r.data)
  {
    FlattenLength(r.data);
    HeadLayout(r);
    var tail := BigEndian(0xe0, 32) + BigEndian(|r.data|, 32) + Flatten(r.data);
    assert EncodeLog(r) == Head(r) + tail;
    Pieces(Head(r), tail);
    assert tail[60..64] == BigEndian(|r.data|, 32)[28..];
    assert tail[64..] == Flatten(r.data);
  }

  lemma {:induction false} Pieces(head: Bytes, tail: Bytes)
    requires |head| == 192 && |tail| >= 64
    ensures (head + tail)[24..32] == head[24..32] && (head + tail)[63] == head[63]
    ensures (head + tail)[252..256] == tail[60..64] && (head + tail)[256..] == tail[64..]
  {
  }

  lemma {:induction false} HeadLayout(r: RequestLog)
    ensures Head(r)[24..32] == BigEndian(r.id, 32)[24..] && Head(r)[63] == BigEndian(r.requestType, 32)[31]
  {
    var a, b := BigEndian(r.id, 32), BigEndian(r.requestType, 32);
    var rest := r.requester + r.fee + r.callback + r.paramsHash;
    assert Head(r) == a + b + rest;
    assert (a + b + rest)[24..32] == a[24..];
  }

  lemma {:induction false} LowBytes(n: nat, w: nat, z: nat)
    requires n < Pow256(w)
    ensures BigEndian(n, z + w)[z..] == BigEndian(n, w) && Value(BigEndian(n, w)) == n
  {
    BigEndianPadded(n, w, z);
    ValueOfBigEndianExact(n, w);
  }

  /** Decoding gives the id and the type back, and the data exactly when it has fewer than 2^27 words. */
  lemma {:induction false} LogRoundTrip(r: RequestLog)
    requires |r.data| < TWO_32
    ensures var log := EncodeLog(r);
      && |log| >= 256 + DataLength(log)
      && Value(log[24..32]) == r.id && log[63] == r.requestType
      && (log[256..256 + DataLength(log)] == Flatten(r.data) <==> |r.data| < 0x800_0000)
  {
    Layout(r);
    var log := EncodeLog(r);
    Pow256Eight();
    LowBytes(r.id, 8, 24);
    LowBytes(r.requestType, 1, 31);
    LowBytes(|r.data|, 4, 28);
    assert BigEndian(r.requestType, 1) == [r.requestType];
    LengthWraps(log, |r.data|);
    if |r.data| < 0x800_0000 {
      assert log[256..256 + DataLength(log)] == log[256..];
    }
  }

  lemma {:induction false} LengthWraps(log: Bytes, n: nat)
    requires |log| >= 256 && Value(log[252..256]) == n
    ensures DataLength(log) <= n * 32
    ensures DataLength(log) == n * 32 <==> n < 0x800_0000
  {
  }
}
