/** Argument encoding for contract calls ("Formal Specification of the Encoding" in the Solidity
    Contract ABI Specification), as the enclave does it: flat lists, byte strings padded on the
    left, and an offset accumulator that is never reset between dynamic items. */
module Abi {
  import opened ByteStrings
  import opened Wrappers
  import opened Encoding

  datatype Arg =
    | UInt64(u64: uint64)
    | UInt8(u8: byte)
    | UInt32(u32: uint32)
    | Address(addr: Bytes)  // the first 20 bytes of a bytes32 buffer
    | Bytes32(word: Word)
    | ByteString(data: Bytes)
  {
    predicate Valid() {
      (Address? ==> |addr| == 20) && (ByteString? ==> |data| < TWO_64)
    }

    /** The length of the encoding fits the C int it is computed in. */
    predicate Fits() { ByteString? ==> |data| < 0x7fff_ffc0 }

    predicate Dynamic() { ByteString? }

    function EncodeLen(): nat {
      if ByteString? then 32 + RoundTo32(|data|) else 32
    }

    function HeadLen(): nat { if Dynamic() then 32 else EncodeLen() }

    function TailLen(): nat { if Dynamic() then EncodeLen() else 0 }

    /** The bytes of the item itself: its head if it is static, its tail if it is dynamic. */
    function Body(): (bs: Bytes)
      requires Valid()
      ensures |bs| == EncodeLen()
    {
      match this
      case UInt64(n) => BigEndian(n, 32)
      case UInt8(n) => BigEndian(n, 32)
      case UInt32(n) => BigEndian(n, 32)
      case Address(a) => Zeros(12) + a
      case Bytes32(w) => w
      case ByteString(d) => LengthWord(|d|) + Zeros(RoundTo32(|d|) - |d|) + d
    }

    /** Appends the item: a virtual call in the source, one override per type. */
    method Encode(out: Buffer) returns (ret: int)
      requires Valid()
      modifies out
      ensures ret == 0 && out.elems == old(out.elems) + Body()
    {
      Pow256Eight();
      match this
      case UInt64(n) =>
        BigEndianPadded(n, 8, 24);
        ret := AppendAsUint256(out, n, 8, 0);
      case UInt8(n) =>
        BigEndianPadded(n, 1, 31);
        ret := AppendAsUint256(out, n, 1, 0);
      case UInt32(n) =>
        BigEndianPadded(n, 4, 28);
        ret := AppendAsUint256(out, n, 4, 0);
      case Address(a) => ret := EncodeAddress(out, a);
      case Bytes32(w) => ret := EncodeWord(out, w);
      case ByteString(d) => ret := EncodeByteString(out, d);
    }
  }

  /** A length is written in four bytes. */
  function LengthWord(n: nat): (w: Word) { Zeros(28) + BigEndian(n, 4) }

  /** It is the length exactly below 2^32. */
  lemma {:induction false} LengthWordIff(n: nat)
    ensures Value(LengthWord(n)) == n <==> n < TWO_32
  {
    LeadingZeros(28, BigEndian(n, 4));
    ValueBound(BigEndian(n, 4));
    Pow256Eight();
    if n < TWO_32 {
      ValueOfBigEndianExact(n, 4);
    }
  }

  method PushEach(out: Buffer, s: Bytes)
    modifies out
    ensures out.elems == old(out.elems) + s
  {
    for i := 0 to |s|
      invariant out.elems == old(out.elems) + s[..i]
    {
      out.PushBack(s[i]);
    }
  }

  method EncodeAddress(out: Buffer, addr: Bytes) returns (ret: int)
    requires |addr| == 20
    modifies out
    ensures ret == 0 && out.elems == old(out.elems) + (Zeros(12) + addr)
  {
    out.Append(Zeros(12));
    PushEach(out, addr);
    return 0;
  }

  method EncodeWord(out: Buffer, w: Word) returns (ret: int)
    modifies out
    ensures ret == 0 && out.elems == old(out.elems) + w
  {
    PushEach(out, w);
    return 0;
  }

  method EncodeByteString(out: Buffer, d: Bytes) returns (ret: int)
    requires |d| < TWO_64
    modifies out
    ensures ret == 0
    ensures out.elems == old(out.elems) + (LengthWord(|d|) + Zeros(RoundTo32(|d|) - |d|) + d)
  {
    ret := AppendAsUint256(out, |d|, 4, 0);
    if ret != 0 {
      return -1;
    }
    ghost var before := out.elems;
    for i := 0 to RoundTo32(|d|) - |d|
      invariant out.elems == before + Zeros(i)
    {
      out.PushBack(0);
      assert Zeros(i) + [0] == Zeros(i + 1);
    }
    out.Append(d);
    return 0;
  }

  function RoundTo32(n: nat): (r: nat)
    ensures n <= r < n + 32 && r % 32 == 0
  {
    (n + 31) / 32 * 32
  }

  // ---- what the head and tail loops compute ----

  predicate AllValid(items: seq<Arg>) { forall i :: 0 <= i < |items| ==> items[i].Valid() && items[i].Fits() }

  function HeadSum(items: seq<Arg>, i: nat): nat
    requires i <= |items|
  {
    if i == 0 then 0 else HeadSum(items, i - 1) + items[i - 1].HeadLen()
  }

  /** Where the tail of item `i` starts within the tail section. */
  function TailSum(items: seq<Arg>, i: nat): nat
    requires i <= |items|
  {
    if i == 0 then 0 else TailSum(items, i - 1) + items[i - 1].TailLen()
  }

  function NumDynamic(items: seq<Arg>, lo: nat, hi: nat): nat
    requires lo <= hi <= |items|
    decreases hi
  {
    if lo == hi then 0
    else NumDynamic(items, lo, hi - 1) + if items[hi - 1].Dynamic() then 1 else 0
  }

  /** The accumulator after the first `i` heads: each dynamic item adds all tail lengths before it,
      on top of what earlier dynamic items already added. */
  function Drift(items: seq<Arg>, i: nat): nat
    requires i <= |items|
  {
    if i == 0 then 0
    else Drift(items, i - 1) + if items[i - 1].Dynamic() then TailSum(items, i - 1) else 0
  }

  /** The offset the encoder writes for dynamic item `i`. */
  function WrittenOffset(items: seq<Arg>, i: nat): nat
    requires i < |items|
  {
    HeadSum(items, |items|) + Drift(items, i + 1)
  }

  /** The offset at which the tail of item `i` really starts. */
  function TrueOffset(items: seq<Arg>, i: nat): nat
    requires i < |items|
  {
    HeadSum(items, |items|) + TailSum(items, i)
  }

  function Heads(items: seq<Arg>, i: nat): Bytes
    requires i <= |items| && AllValid(items)
  {
    if i == 0 then [] else Heads(items, i - 1) + Head(items, i - 1)
  }

  function Head(items: seq<Arg>, i: nat): (bs: Bytes)
    requires i < |items| && items[i].Valid()
    ensures |bs| == 32
  {
    if items[i].Dynamic() then BigEndian(WrapUint64(WrittenOffset(items, i)), 32) else items[i].Body()
  }

  function Tails(items: seq<Arg>, i: nat): Bytes
    requires i <= |items| && AllValid(items)
  {
    if i == 0 then [] else Tails(items, i - 1) + Tail(items[i - 1])
  }

  function Tail(a: Arg): Bytes
    requires a.Valid()
  {
    if a.Dynamic() then a.Body() else []
  }

  function Encoded(items: seq<Arg>): Bytes
    requires AllValid(items)
  {
    Heads(items, |items|) + Tails(items, |items|)
  }

  /** ABI_Generic_Array::encode */
  method EncodeArray(items: seq<Arg>, out: Buffer) returns (ret: int)
    requires AllValid(items)
    modifies out
    ensures ret == 0 && out.elems == old(out.elems) + Encoded(items)
  {
    var headLenSum, tailLenSum := 0, 0;
    for i := 0 to |items|
      invariant headLenSum == HeadSum(items, i)
    {
      headLenSum := headLenSum + items[i].HeadLen();
    }
    ret := EncodeHeads(items, headLenSum, out);
    if ret != 0 {
      return -1;
    }
    ret := EncodeTails(items, out);
    if ret != 0 {
      return -1;
    }
    return 0;
  }

  method EncodeHeads(items: seq<Arg>, headLenSum: nat, out: Buffer) returns (ret: int)
    requires AllValid(items) && headLenSum == HeadSum(items, |items|)
    modifies out
    ensures ret == 0 && out.elems == old(out.elems) + Heads(items, |items|)
  {
    var tailLenSum := 0;
    for i := 0 to |items|
      invariant tailLenSum == Drift(items, i)
      invariant out.elems == old(out.elems) + Heads(items, i)
    {
      ret, tailLenSum := EncodeHead(items, i, headLenSum, tailLenSum, out);
      if ret != 0 {
        return -1;
      }
    }
    return 0;
  }

  /** One round of the head loop. */
  method EncodeHead(items: seq<Arg>, i: nat, headLenSum: nat, tailLenSum: nat, out: Buffer)
    returns (ret: int, sum: nat)
    requires i < |items| && items[i].Valid()
    requires headLenSum == HeadSum(items, |items|) && tailLenSum == Drift(items, i)
    modifies out
    ensures ret == 0 && sum == Drift(items, i + 1) && out.elems == old(out.elems) + Head(items, i)
  {
    if items[i].Dynamic() {
      sum := AddTailLens(items, i, tailLenSum);
      ret := EncodeOffset(out, headLenSum + sum);
    } else {
      sum := tailLenSum;
      ret := items[i].Encode(out);
    }
  }

  /** The inner loop: adds the tail lengths of the items before `i` to the accumulator. */
  method AddTailLens(items: seq<Arg>, i: nat, tailLenSum: nat) returns (sum: nat)
    requires i <= |items|
    ensures sum == tailLenSum + TailSum(items, i)
  {
    sum := tailLenSum;
    for j := 0 to i
      invariant sum == tailLenSum + TailSum(items, j)
    {
      sum := sum + items[j].TailLen();
    }
  }

  /** A `size_t` sum, written as a word. */
  method EncodeOffset(out: Buffer, offset: nat) returns (ret: int)
    modifies out
    ensures ret == 0 && out.elems == old(out.elems) + BigEndian(WrapUint64(offset), 32)
  {
    var wrapped := WrapUint64(offset);
    Pow256Eight();
    BigEndianPadded(wrapped, 8, 24);
    ret := AppendAsUint256(out, wrapped, 8, 0);
  }

  method EncodeTails(items: seq<Arg>, out: Buffer) returns (ret: int)
    requires AllValid(items)
    modifies out
    ensures ret == 0 && out.elems == old(out.elems) + Tails(items, |items|)
  {
    for i := 0 to |items|
      invariant out.elems == old(out.elems) + Tails(items, i)
    {
      ret := EncodeTail(items[i], out);
      if ret != 0 {
        return -1;
      }
    }
    return 0;
  }

  /** One round of the tail loop. */
  method EncodeTail(a: Arg, out: Buffer) returns (ret: int)
    requires a.Valid()
    modifies out
    ensures ret == 0 && out.elems == old(out.elems) + Tail(a)
  {
    ret := 0;
    if a.Dynamic() {
      ret := a.Encode(out);
    }
  }

  // ---- offsets ----

  lemma {:induction false} HeadSumIs32(items: seq<Arg>, i: nat)
    requires i <= |items|
    ensures HeadSum(items, i) == 32 * i
  {
    if i > 0 {
      HeadSumIs32(items, i - 1);
    }
  }

  /** Sum over the first `upto` items of tail length times the number of dynamic items between
      that item (exclusive) and `i` (exclusive). */
  function WeightedTails(items: seq<Arg>, upto: nat, i: nat): nat
    requires upto <= i <= |items|
    decreases upto
  {
    if upto == 0 then 0
    else WeightedTails(items, upto - 1, i) + items[upto - 1].TailLen() * NumDynamic(items, upto, i)
  }

  lemma {:induction false} MulNext(x: int, n: int)
    ensures x * (n + 1) == x * n + x
  {
  }

  /** One more item on the right adds, if it is dynamic, every tail length once more. */
  lemma {:induction false} WeightedTailsStep(items: seq<Arg>, upto: nat, i: nat)
    requires upto <= i < |items|
    ensures WeightedTails(items, upto, i + 1)
      == WeightedTails(items, upto, i) + if items[i].Dynamic() then TailSum(items, upto) else 0
  {
    if upto > 0 {
      WeightedTailsStep(items, upto - 1, i);
      var n, len := NumDynamic(items, upto, i), items[upto - 1].TailLen();
      assert NumDynamic(items, upto, i + 1) == n + if items[i].Dynamic() then 1 else 0;
      MulNext(len, n);
      assert WeightedTails(items, upto, i) == WeightedTails(items, upto - 1, i) + len * n;
    }
  }

  /** The never-reset accumulator in closed form. */
  lemma {:induction false} DriftClosedForm(items: seq<Arg>, i: nat)
    requires i <= |items|
    ensures Drift(items, i) == WeightedTails(items, i, i)
  {
    if i > 0 {
      DriftClosedForm(items, i - 1);
      WeightedTailsStep(items, i - 1, i - 1);
      assert NumDynamic(items, i, i) == 0;
      assert WeightedTails(items, i, i)
          == WeightedTails(items, i - 1, i) + items[i - 1].TailLen() * NumDynamic(items, i, i);
      assert items[i - 1].TailLen() * 0 == 0;
    }
  }

  lemma {:induction false} NoDynamicNoTail(items: seq<Arg>, i: nat)
    requires i <= |items|
    ensures NumDynamic(items, 0, i) == 0 ==> TailSum(items, i) == 0 && Drift(items, i) == 0
    ensures NumDynamic(items, 0, i) > 0 ==> TailSum(items, i) >= 32
    ensures NumDynamic(items, 0, i) <= 1 ==> Drift(items, i) == 0
    ensures NumDynamic(items, 0, i) >= 2 ==> Drift(items, i) >= 32
  {
    if i > 0 {
      NoDynamicNoTail(items, i - 1);
    }
  }

  /** The accumulator before item `i` is zero exactly while at most one dynamic item came before. */
  lemma {:induction false} OffsetRightAt(items: seq<Arg>, i: nat)
    requires i < |items| && items[i].Dynamic()
    ensures WrittenOffset(items, i) == TrueOffset(items, i) <==> NumDynamic(items, 0, i) <= 1
  {
    NoDynamicNoTail(items, i);
  }

  lemma {:induction false} NumDynamicMonotone(items: seq<Arg>, i: nat, j: nat)
    requires i <= j <= |items|
    ensures NumDynamic(items, 0, i) <= NumDynamic(items, 0, j)
    decreases j
  {
    if i < j {
      NumDynamicMonotone(items, i, j - 1);
    }
  }

  /** Finds the last dynamic item. */
  lemma {:induction false} LastDynamic(items: seq<Arg>, hi: nat) returns (i: nat)
    requires hi <= |items| && NumDynamic(items, 0, hi) > 0
    ensures i < hi && items[i].Dynamic() && NumDynamic(items, 0, i) == NumDynamic(items, 0, hi) - 1
  {
    if items[hi - 1].Dynamic() {
      i := hi - 1;
    } else {
      i := LastDynamic(items, hi - 1);
    }
  }

  /** Every offset points at its item's tail if and only if the list has at most two dynamic items. */
  lemma {:induction false} OffsetsRightIff(items: seq<Arg>)
    ensures (forall i :: 0 <= i < |items| && items[i].Dynamic() ==> WrittenOffset(items, i) == TrueOffset(items, i))
      <==> NumDynamic(items, 0, |items|) <= 2
  {
    if NumDynamic(items, 0, |items|) <= 2 {
      forall i | 0 <= i < |items| && items[i].Dynamic()
        ensures WrittenOffset(items, i) == TrueOffset(items, i)
      {
        NumDynamicMonotone(items, i + 1, |items|);
        OffsetRightAt(items, i);
      }
    } else {
      var i := LastDynamic(items, |items|);
      OffsetRightAt(items, i);
    }
  }

  /** Three empty byte strings: the third offset is 192, its tail is at 160. */
  lemma {:induction false} ThreeDynamicCounterexample()
    ensures var items := [ByteString([]), ByteString([]), ByteString([])];
      WrittenOffset(items, 2) == 192 && TrueOffset(items, 2) == 160
  {
    var items := [ByteString([]), ByteString([]), ByteString([])];
    HeadSumIs32(items, 3);
    assert TailSum(items, 0) == 0;
    assert TailSum(items, 1) == 32;
    assert TailSum(items, 2) == 64;
    assert Drift(items, 0) == 0;
    assert Drift(items, 1) == 0;
    assert Drift(items, 2) == 32;
    assert Drift(items, 3) == 96;
  }

  // ---- decoding ----

  datatype Type = TUInt64 | TUInt8 | TUInt32 | TAddress | TBytes32 | TByteString

  function TypeOf(a: Arg): Type {
    match a
    case UInt64(_) => TUInt64
    case UInt8(_) => TUInt8
    case UInt32(_) => TUInt32
    case Address(_) => TAddress
    case Bytes32(_) => TBytes32
    case ByteString(_) => TByteString
  }

  function WordAt(bs: Bytes, pos: nat): Option<Word> {
    if pos + 32 <= |bs| then Some(bs[pos..pos + 32]) else None
  }

  function DecodeStatic(t: Type, w: Word): Option<Arg>
    requires t != TByteString
  {
    match t
    case TUInt64 => if Value(w) < TWO_64 then Some(UInt64(Value(w))) else None
    case TUInt8 => if Value(w) < 256 then Some(UInt8(Value(w))) else None
    case TUInt32 => if Value(w) < TWO_32 then Some(UInt32(Value(w))) else None
    case TAddress => if Value(w[..12]) == 0 then Some(Address(w[12..])) else None
    case TBytes32 => Some(Bytes32(w))
  }

  /** Where the padding of a byte string is: this encoder puts it in front, the specification behind. */
  datatype Padding = InFront | Behind

  /** Reads a length word and that many bytes of the padded block after it. */
  function DecodeByteString(p: Padding, bs: Bytes, pos: nat): Option<Arg> {
    match WordAt(bs, pos)
    case None => None
    case Some(w) =>
      var len := Value(w);
      var end := pos + 32 + RoundTo32(len);
      if end > |bs| then None
      else Some(ByteString(if p == InFront then bs[end - len..end] else bs[pos + 32..pos + 32 + len]))
  }

  /** The argument of type `t` whose head is the word at `32 * i`. */
  function DecodeArg(p: Padding, t: Type, bs: Bytes, i: nat): Option<Arg> {
    match WordAt(bs, 32 * i)
    case None => None
    case Some(w) => if t == TByteString then DecodeByteString(p, bs, Value(w)) else DecodeStatic(t, w)
  }

  function Decode(p: Padding, ts: seq<Type>, bs: Bytes, i: nat): Option<seq<Arg>>
    requires i <= |ts|
    decreases |ts| - i
  {
    if i == |ts| then Some([])
    else
      match (DecodeArg(p, ts[i], bs, i), Decode(p, ts, bs, i + 1))
      case (Some(a), Some(rest)) => Some([a] + rest)
      case _ => None
  }

  lemma {:induction false} SliceLeft(a: Bytes, b: Bytes, lo: nat, hi: nat)
    requires lo <= hi <= |a|
    ensures (a + b)[lo..hi] == a[lo..hi]
  {
  }

  lemma {:induction false} SliceRight(a: Bytes, b: Bytes, lo: nat, hi: nat)
    requires lo <= hi <= |b|
    ensures (a + b)[|a| + lo..|a| + hi] == b[lo..hi]
  {
  }

  lemma {:induction false} HeadsLength(items: seq<Arg>, i: nat)
    requires i <= |items| && AllValid(items)
    ensures |Heads(items, i)| == 32 * i
  {
    if i > 0 {
      HeadsLength(items, i - 1);
    }
  }

  lemma {:induction false} TailsLength(items: seq<Arg>, i: nat)
    requires i <= |items| && AllValid(items)
    ensures |Tails(items, i)| == TailSum(items, i)
  {
    if i > 0 {
      TailsLength(items, i - 1);
    }
  }

  lemma {:induction false} HeadAt(items: seq<Arg>, i: nat, n: nat)
    requires i < n <= |items| && AllValid(items)
    ensures |Heads(items, n)| == 32 * n
    ensures Heads(items, n)[32 * i..32 * i + 32] == Head(items, i)
    decreases n
  {
    HeadsLength(items, n - 1);
    if i < n - 1 {
      HeadAt(items, i, n - 1);
      SliceLeft(Heads(items, n - 1), Head(items, n - 1), 32 * i, 32 * i + 32);
    } else {
      SliceRight(Heads(items, i), Head(items, i), 0, 32);
    }
  }

  lemma {:induction false} TailSplit(items: seq<Arg>, i: nat, n: nat) returns (rest: Bytes)
    requires i < n <= |items| && AllValid(items)
    ensures Tails(items, n) == Tails(items, i) + Tail(items[i]) + rest
    decreases n
  {
    var a, b, c := Tails(items, i), Tail(items[i]), Tail(items[n - 1]);
    assert Tails(items, n) == Tails(items, n - 1) + c;
    if i < n - 1 {
      var before := TailSplit(items, i, n - 1);
      rest := before + c;
      Regroup(a + b, before, c);
    } else {
      rest := [];
      assert a + b + rest == a + b;
    }
  }

  lemma {:induction false} Regroup(a: Bytes, b: Bytes, c: Bytes)
    ensures a + b + c == a + (b + c)
  {
  }

  lemma {:induction false} Middle(a: Bytes, b: Bytes, c: Bytes)
    ensures |a + b + c| == |a| + |b| + |c| && (a + b + c)[|a|..|a| + |b|] == b
  {
  }

  /** The tail of item `i` sits at TailSum(i) in the tail section. */
  lemma {:induction false} TailAt(items: seq<Arg>, i: nat)
    requires i < |items| && AllValid(items) && items[i].Dynamic()
    ensures var tails, lo := Tails(items, |items|), TailSum(items, i);
      lo + items[i].TailLen() <= |tails| && tails[lo..lo + items[i].TailLen()] == items[i].Body()
  {
    var rest := TailSplit(items, i, |items|);
    TailsLength(items, i);
    Middle(Tails(items, i), Tail(items[i]), rest);
  }

  lemma {:induction false} WordValue(n: nat)
    requires n < TWO_64
    ensures Value(BigEndian(n, 32)) == n
  {
    Pow256Eight();
    BigEndianPadded(n, 8, 24);
    LeadingZeros(24, BigEndian(n, 8));
    ValueOfBigEndianExact(n, 8);
  }

  lemma {:induction false} StaticRoundTrip(a: Arg)
    requires a.Valid() && !a.Dynamic()
    ensures DecodeStatic(TypeOf(a), a.Body()) == Some(a)
  {
    match a
    case UInt64(n) => WordValue(n);
    case UInt8(n) => WordValue(n);
    case UInt32(n) => WordValue(n);
    case Address(addr) =>
      assert a.Body()[..12] == Zeros(12);
      ValueOfZeros(12);
      assert a.Body()[12..] == addr;
    case Bytes32(_) =>
  }

  /** The two readings agree on the item: it fills its words, or is all zeros. */
  predicate Agrees(a: Arg) { a.ByteString? ==> |a.data| % 32 == 0 || a.data == Zeros(|a.data|) }

  lemma {:induction false} ByteStringRoundTrip(p: Padding, a: Arg, bs: Bytes, pos: nat)
    requires a.Valid() && a.Fits() && a.Dynamic()
    requires pos + a.TailLen() <= |bs| && bs[pos..pos + a.TailLen()] == a.Body()
    ensures DecodeByteString(p, bs, pos).Some? && (DecodeByteString(p, bs, pos) == Some(a) <==> p == InFront || Agrees(a))
  {
    var behind := (Zeros(RoundTo32(|a.data|) - |a.data|) + a.data)[..|a.data|];
    BlockParts(a, bs, pos, a.Body());
    BlockRead(p, bs, pos, |a.data|, a.data, behind);
    AgreesIff(a);
  }

  lemma {:induction false} BlockParts(a: Arg, bs: Bytes, pos: nat, body: Bytes)
    requires a.Valid() && a.Dynamic() && body == a.Body()
    requires pos + |body| <= |bs| && bs[pos..pos + |body|] == body
    ensures var len := |a.data|;
      && bs[pos + 0..pos + 32] == LengthWord(len)
      && bs[pos + (32 + RoundTo32(len) - len)..pos + (32 + RoundTo32(len))] == a.data
      && bs[pos + 32..pos + (32 + len)] == (Zeros(RoundTo32(len) - len) + a.data)[..len]
  {
    BodyParts(a);
    SliceOfSlice(bs, pos, body, 0, 32);
    SliceOfSlice(bs, pos, body, 32, 32 + |a.data|);
    SliceOfSlice(bs, pos, body, |body| - |a.data|, |body|);
  }

  lemma {:induction false} BlockRead(p: Padding, bs: Bytes, pos: nat, len: nat, front: Bytes, behind: Bytes)
    requires len < TWO_32 && pos + 32 + RoundTo32(len) <= |bs| && bs[pos + 0..pos + 32] == LengthWord(len)
    requires front == bs[pos + (32 + RoundTo32(len) - len)..pos + (32 + RoundTo32(len))]
    requires behind == bs[pos + 32..pos + (32 + len)]
    ensures DecodeByteString(p, bs, pos) == Some(ByteString(if p == InFront then front else behind))
  {
    LengthWordIff(len);
    assert WordAt(bs, pos) == Some(LengthWord(len));
  }

  lemma {:induction false} AgreesIff(a: Arg)
    requires a.Dynamic()
    ensures Agrees(a) <==> (Zeros(RoundTo32(|a.data|) - |a.data|) + a.data)[..|a.data|] == a.data
  {
    ShiftedByZeros(RoundTo32(|a.data|) - |a.data|, a.data);
    RoundTo32Exact(|a.data|);
  }

  lemma {:induction false} RoundTo32Exact(n: nat)
    ensures RoundTo32(n) == n <==> n % 32 == 0
  {
  }

  lemma {:induction false} BodyParts(a: Arg)
    requires a.Valid() && a.Dynamic()
    ensures var body, len := a.Body(), |a.data|;
      && body[0..32] == LengthWord(len) && body[a.TailLen() - len..a.TailLen()] == a.data
      && body[32..32 + len] == (Zeros(RoundTo32(len) - len) + a.data)[..len]
  {
    var block := Zeros(RoundTo32(|a.data|) - |a.data|) + a.data;
    assert a.Body() == LengthWord(|a.data|) + block;
    SliceRight(LengthWord(|a.data|), block, 0, |a.data|);
  }

  lemma {:induction false} SliceOfSlice(bs: Bytes, pos: nat, part: Bytes, lo: nat, hi: nat)
    requires pos + |part| <= |bs| && bs[pos..pos + |part|] == part && lo <= hi <= |part|
    ensures bs[pos + lo..pos + hi] == part[lo..hi]
  {
    forall i | lo <= i < hi
      ensures bs[pos + i] == part[i]
    {
      assert bs[pos..pos + |part|][i] == part[i];
    }
  }

  /** Reading zeros and a string from the start gives the string if there are none or it is zeros. */
  lemma {:induction false} ShiftedByZeros(n: nat, d: Bytes)
    ensures (Zeros(n) + d)[..|d|] == d <==> n == 0 || d == Zeros(|d|)
  {
    if n == 0 {
      assert Zeros(0) + d == d;
    } else if (Zeros(n) + d)[..|d|] == d {
      forall i | 0 <= i < |d|
        ensures d[i] == 0
      {
        ZeroAt(n, d, i);
      }
    }
  }

  lemma {:induction false} ZeroAt(n: nat, d: Bytes, i: nat)
    requires n > 0 && (Zeros(n) + d)[..|d|] == d && i < |d|
    ensures d[i] == 0
  {
    assert d[i] == (Zeros(n) + d)[i];
    if i >= n {
      ZeroAt(n, d, i - n);
    }
  }

  lemma {:induction false} HeadIn(items: seq<Arg>, i: nat)
    requires i < |items| && AllValid(items)
    ensures WordAt(Encoded(items), 32 * i) == Some(Head(items, i))
  {
    var n := |items|;
    HeadAt(items, i, n);
    SliceLeft(Heads(items, n), Tails(items, n), 32 * i, 32 * i + 32);
  }

  lemma {:induction false} TailIn(items: seq<Arg>, i: nat)
    requires i < |items| && AllValid(items) && items[i].Dynamic()
    ensures var lo := TrueOffset(items, i);
      lo + items[i].TailLen() <= |Encoded(items)| && Encoded(items)[lo..lo + items[i].TailLen()] == items[i].Body()
  {
    HeadsLength(items, |items|);
    HeadSumIs32(items, |items|);
    TailAt(items, i);
    Shifted(Heads(items, |items|), Tails(items, |items|), TailSum(items, i), items[i].Body());
  }

  lemma {:induction false} Shifted(a: Bytes, b: Bytes, lo: nat, part: Bytes)
    requires lo + |part| <= |b| && b[lo..lo + |part|] == part
    ensures |a| + lo + |part| <= |a + b| && (a + b)[|a| + lo..|a| + lo + |part|] == part
  {
    SliceRight(a, b, lo, lo + |part|);
  }

  lemma {:induction false} StaticArgRoundTrip(p: Padding, items: seq<Arg>, i: nat)
    requires i < |items| && AllValid(items) && !items[i].Dynamic()
    ensures DecodeArg(p, TypeOf(items[i]), Encoded(items), i) == Some(items[i])
  {
    HeadIn(items, i);
    StaticRoundTrip(items[i]);
  }

  /** A dynamic item whose offset is right and fits a size_t is read back where it was written, and as
      the specification reads it exactly if the two readings agree on it. */
  lemma {:induction false} DynamicArgRoundTrip(p: Padding, items: seq<Arg>, i: nat)
    requires i < |items| && AllValid(items) && items[i].Dynamic()
    requires WrittenOffset(items, i) == TrueOffset(items, i) < TWO_64
    ensures DecodeArg(p, TByteString, Encoded(items), i).Some?
    ensures DecodeArg(p, TByteString, Encoded(items), i) == Some(items[i]) <==> p == InFront || Agrees(items[i])
  {
    HeadIn(items, i);
    TailIn(items, i);
    var lo := TrueOffset(items, i);
    WordValue(lo);
    ByteStringRoundTrip(p, items[i], Encoded(items), lo);
  }

  function Types(items: seq<Arg>): (ts: seq<Type>)
    ensures |ts| == |items|
  {
    seq(|items|, i requires 0 <= i < |items| => TypeOf(items[i]))
  }

  predicate AllAgree(items: seq<Arg>, i: nat) { forall j :: i <= j < |items| ==> Agrees(items[j]) }

  lemma {:induction false} DecodeFrom(p: Padding, items: seq<Arg>, i: nat)
    requires i <= |items| && AllValid(items) && NumDynamic(items, 0, |items|) <= 2
    requires HeadSum(items, |items|) + TailSum(items, |items|) < TWO_64
    ensures Decode(p, Types(items), Encoded(items), i).Some?
    ensures Decode(p, Types(items), Encoded(items), i) == Some(items[i..]) <==> p == InFront || AllAgree(items, i)
    decreases |items| - i
  {
    if i < |items| {
      DecodeFrom(p, items, i + 1);
      DecodeAt(p, items, i);
      DecodeStep(p, items, i);
      AllAgreeStep(items, i);
    } else {
      assert items[i..] == [];
    }
  }

  lemma {:induction false} AllAgreeStep(items: seq<Arg>, i: nat)
    requires i < |items|
    ensures AllAgree(items, i) <==> Agrees(items[i]) && AllAgree(items, i + 1)
  {
  }

  lemma {:induction false} DecodeStep(p: Padding, items: seq<Arg>, i: nat)
    requires i < |items| && AllValid(items)
    requires DecodeArg(p, TypeOf(items[i]), Encoded(items), i).Some?
    requires Decode(p, Types(items), Encoded(items), i + 1).Some?
    ensures Decode(p, Types(items), Encoded(items), i).Some?
    ensures Decode(p, Types(items), Encoded(items), i) == Some(items[i..]) <==>
      && DecodeArg(p, TypeOf(items[i]), Encoded(items), i) == Some(items[i])
      && Decode(p, Types(items), Encoded(items), i + 1) == Some(items[i + 1..])
  {
    ConsEqual(DecodeArg(p, TypeOf(items[i]), Encoded(items), i).value,
              Decode(p, Types(items), Encoded(items), i + 1).value, items, i);
  }

  lemma {:induction false} OffsetFits(items: seq<Arg>, i: nat)
    requires i < |items| && items[i].Dynamic() && NumDynamic(items, 0, |items|) <= 2
    requires HeadSum(items, |items|) + TailSum(items, |items|) < TWO_64
    ensures WrittenOffset(items, i) == TrueOffset(items, i) < TWO_64
  {
    OffsetsRightIff(items);
    TailSumMonotone(items, i, |items|);
  }

  lemma {:induction false} DecodeAt(p: Padding, items: seq<Arg>, i: nat)
    requires i < |items| && AllValid(items) && NumDynamic(items, 0, |items|) <= 2
    requires HeadSum(items, |items|) + TailSum(items, |items|) < TWO_64
    ensures var a := DecodeArg(p, TypeOf(items[i]), Encoded(items), i);
      a.Some? && (a == Some(items[i]) <==> p == InFront || Agrees(items[i]))
  {
    if items[i].Dynamic() {
      OffsetFits(items, i);
      DynamicArgRoundTrip(p, items, i);
    } else {
      StaticArgRoundTrip(p, items, i);
    }
  }

  lemma {:induction false} ConsEqual(a: Arg, rest: seq<Arg>, items: seq<Arg>, i: nat)
    requires i < |items|
    ensures [a] + rest == items[i..] <==> a == items[i] && rest == items[i + 1..]
  {
    assert items[i..] == [items[i]] + items[i + 1..];
    assert ([a] + rest)[1..] == rest && items[i..][1..] == items[i + 1..];
  }

  lemma {:induction false} TailSumMonotone(items: seq<Arg>, i: nat, j: nat)
    requires i <= j <= |items|
    ensures TailSum(items, i) <= TailSum(items, j)
    decreases j
  {
    if i < j {
      TailSumMonotone(items, i, j - 1);
    }
  }

  /** With at most two dynamic items, decoding returns every item where this encoder puts them, and as
      the specification has it exactly if every byte string fills its words or is all zeros. */
  lemma {:induction false} DecodeEncoded(p: Padding, items: seq<Arg>)
    requires AllValid(items) && NumDynamic(items, 0, |items|) <= 2
    requires |Encoded(items)| < TWO_64
    ensures Decode(p, Types(items), Encoded(items), 0) == Some(items) <==> p == InFront || AllAgree(items, 0)
  {
    HeadsLength(items, |items|);
    TailsLength(items, |items|);
    HeadSumIs32(items, |items|);
    DecodeFrom(p, items, 0);
    assert items[0..] == items;
  }
}
