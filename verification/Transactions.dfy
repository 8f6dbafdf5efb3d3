/** Legacy Ethereum transactions (section 4.2 of the Ethereum Yellow Paper) and the enclave's
    answer to a request: a signed transaction that calls `deliver` on the contract. */
module Transactions {
  import opened ByteStrings
  import opened Wrappers
  import opened Encoding
  import Rlp
  import Abi

  datatype TxType = NullTransaction | ContractCreation | MessageCall

  const GASPRICE: uint64 := 0x0BA43B7400
  const GASLIMIT: uint64 := 0x2DC6C0
  const TX_BUF_SIZE := 2048

  /** The values a transaction's fields hold; numbers are kept as big-endian byte strings. */
  datatype Fields = Fields(
    kind: TxType, nonce: Bytes, gasPrice: Bytes, gas: Bytes, to: Bytes, value: Bytes, data: Bytes,
    v: byte, r: Bytes, s: Bytes)
  {
    ghost predicate Valid() {
      && |nonce| <= 32 && |gasPrice| <= 32 && |gas| <= 32 && |value| <= 32
      && |to| == 20 && |r| == 32 && |s| == 32 && |data| < TWO_64
    }

    /** Every number is written without leading zeros. */
    predicate Canonical() {
      && Scalar(nonce) && Scalar(gasPrice) && Scalar(gas) && Scalar(value) && Scalar([v]) && Scalar(r) && Scalar(s)
    }

    function Unsigned(): seq<Bytes> {
      var head := [nonce, gasPrice, gas];
      (if kind == MessageCall then head + [to] else head) + [value] + [data]
    }

    /** The strings the transaction is a list of, in order. */
    function Items(withSig: bool): seq<Bytes> {
      if withSig then Unsigned() + [[v]] + [r] + [s] else Unsigned()
    }
  }

  /** A number as Appendix B of the Yellow Paper writes it; any other form is to be dismissed. */
  predicate Scalar(bs: Bytes) { |bs| <= 32 && (bs == [] || bs[0] != 0) }

  function Payload(f: Fields, withSig: bool): Bytes { Rlp.EncodeAll(f.Items(withSig)) }

  /** The list header goes in front; a payload of 2^32 bytes or more is left without one. */
  function Encoded(f: Fields, withSig: bool): Bytes { WithHeader(Payload(f, withSig)) }

  function WithHeader(payload: Bytes): Bytes {
    if |payload| < TWO_32 then Rlp.LengthPrefix(0xc0, |payload|) + payload else payload
  }

  class Transaction {
    var kind: TxType
    var nonce: Bytes
    var gasPrice: Bytes
    var gas: Bytes
    var to: Bytes
    var value: Bytes
    var data: Bytes
    var r: Bytes
    var s: Bytes
    var v: byte

    function State(): Fields
      reads this
    {
      Fields(kind, nonce, gasPrice, gas, to, value, data, v, r, s)
    }

    constructor (kind: TxType, nonce: uint64, gasPrice: uint64, gas: uint64, to: Bytes, value: uint64, data: Bytes)
      requires |to| == 20
      ensures State() == Fields(kind, Minimal(nonce), Minimal(gasPrice), Minimal(gas), to, Minimal(value), data,
                                State().v, Zeros(32), Zeros(32))
    {
      this.kind := kind;
      this.to := to;
      this.v := *;
      this.r, this.s := Zeros(32), Zeros(32);
      new;
      this.nonce := Itob(nonce, 0);
      this.gasPrice := Itob(gasPrice, 0);
      this.gas := Itob(gas, 0);
      this.value := Itob(value, 0);
      this.data := data;
    }

    method RlpEncode(out: Buffer, withSig: bool)
      requires State().Valid()
      requires |out.elems| + |Payload(State(), withSig)| < TWO_64  // the buffer fits in memory
      modifies out
      ensures out.elems == WithHeader(old(out.elems) + Payload(State(), withSig))
    {
      ghost var before := out.elems;
      ghost var items := EncodeUnsigned(out);
      if withSig {
        var threw := RlpItem(Some([v]), 1, out);
        Rlp.EncodeAllAppend(items, [v]);
        items := items + [[v]];
        items := ToRlp(r, out, before, items);
        items := ToRlp(s, out, before, items);
      }
      AddListHeader(out);
    }

    /** The fields that are signed. */
    method EncodeUnsigned(out: Buffer) returns (ghost items: seq<Bytes>)
      requires State().Valid()
      modifies out
      ensures items == State().Unsigned() && out.elems == old(out.elems) + Rlp.EncodeAll(items)
    {
      ghost var before := out.elems;
      items := [];
      items := ToRlp(nonce, out, before, items);
      items := ToRlp(gasPrice, out, before, items);
      items := ToRlp(gas, out, before, items);
      assert items == [nonce, gasPrice, gas];
      if kind == MessageCall {
        items := ToRlp(to, out, before, items);
      }
      items := ToRlp(value, out, before, items);
      items := ToRlp(data, out, before, items);
    }
  }

  /** Appends one field; `items` are the fields written after `before` so far. */
  method ToRlp(field: Bytes, out: Buffer, ghost before: Bytes, ghost items: seq<Bytes>) returns (ghost more: seq<Bytes>)
    requires |field| < TWO_64 && out.elems == before + Rlp.EncodeAll(items)
    modifies out
    ensures more == items + [field] && out.elems == before + Rlp.EncodeAll(more)
  {
    RlpString(field, out);
    Rlp.EncodeAllAppend(items, field);
    more := items + [field];
  }

  /** Puts the list header in front of what has been written, in place. */
  method AddListHeader(out: Buffer)
    requires |out.elems| < TWO_64
    modifies out
    ensures out.elems == WithHeader(old(out.elems))
  {
    var len := |out.elems|;
    if len < 56 {
      out.InsertFront([0xc0 + len]);
    } else {
      var lenLen := CountBytes(len);
      Pow256Eight();
      ByteLengthLeast(len, 4);
      if lenLen > 4 {
        return;
      }
      var buff := [0xf7 + lenLen];
      var i: int := lenLen - 1;
      while i >= 0
        invariant -1 <= i < lenLen
        invariant buff == [0xf7 + lenLen] + BigEndian(Shr(len, i + 1), lenLen - 1 - i)
      {
        buff := buff + [Shr(len, i) % 256];
        i := i - 1;
      }
      out.InsertFront(buff);
    }
  }

  /** The encoding in a buffer of its own. */
  method EncodeTransaction(tx: Transaction, withSig: bool) returns (raw: Bytes)
    requires tx.State().Valid() && |Payload(tx.State(), withSig)| < TWO_64
    ensures raw == Encoded(tx.State(), withSig)
  {
    var out := new Buffer();
    tx.RlpEncode(out, withSig);
    assert [] + Payload(tx.State(), withSig) == Payload(tx.State(), withSig);
    return out.elems;
  }

  // ---- decoding a transaction ----

  lemma {:induction false} EncodeFirstByte(s: Bytes)
    requires |s| < TWO_64
    ensures |Rlp.Encode(s)| > 0 && Rlp.Encode(s)[0] < 0xc0
  {
    ByteLengthOfUint64(|s|);
  }

  /** The nine fields of a signed message call, in order; a creation has no receiver. */
  lemma {:induction false} FieldOrder(f: Fields)
    ensures f.kind == MessageCall ==> f.Items(false) == [f.nonce, f.gasPrice, f.gas, f.to, f.value, f.data]
    ensures f.kind != MessageCall ==> f.Items(false) == [f.nonce, f.gasPrice, f.gas, f.value, f.data]
    ensures f.Items(true) == f.Items(false) + [[f.v], f.r, f.s]
  {
  }

  /** Decoding returns the fields, in order and with nothing left over, exactly when the payload
      is short enough to get a list header. */
  lemma {:induction false} TransactionRoundTrip(f: Fields, withSig: bool)
    requires f.Valid() && |Payload(f, withSig)| < TWO_64
    ensures Rlp.DecodeList(Encoded(f, withSig)) == Some(f.Items(withSig)) <==> |Payload(f, withSig)| < TWO_32
  {
    if |Payload(f, withSig)| < TWO_32 {
      Rlp.DecodeListEncodeList(f.Items(withSig));
    } else {
      EncodeFirstByte(f.nonce);
      assert Payload(f, withSig)[0] == Rlp.Encode(f.nonce)[0];
    }
  }

  /** Reads a signed message call as section 4.2 of the Yellow Paper has it: seven numbers, an
      address and the data. */
  function DecodeTransaction(raw: Bytes): Option<Fields> {
    match Rlp.DecodeList(raw)
    case None => None
    case Some(items) =>
      if |items| != 9 || |items[3]| != 20 || |items[6]| != 1 then None
      else
        var f := Fields(MessageCall, items[0], items[1], items[2], items[3], items[4], items[5], items[6][0],
            items[7], items[8]);
        if f.Canonical() then Some(f) else None
  }

  /** A node reads a signed message call back exactly if it has a list header and none of its numbers
      has a leading zero; the signature's two words are written with theirs. */
  lemma {:induction false} AcceptedIff(f: Fields)
    requires f.Valid() && f.kind == MessageCall && |Payload(f, true)| < TWO_64
    ensures DecodeTransaction(Encoded(f, true)) == Some(f) <==> |Payload(f, true)| < TWO_32 && f.Canonical()
    ensures |Payload(f, true)| < TWO_32 && !f.Canonical() ==> DecodeTransaction(Encoded(f, true)) == None
  {
    TransactionRoundTrip(f, true);
    var items := f.Items(true);
    assert |items| == 9 && items[3] == f.to && items[6] == [f.v];
    assert Fields(MessageCall, items[0], items[1], items[2], items[3], items[4], items[5], items[6][0], items[7], items[8]) == f;
    if DecodeTransaction(Encoded(f, true)) == Some(f) {
      DecodedItems(Encoded(f, true));
    }
  }

  /** What is read back was the whole list. */
  lemma {:induction false} DecodedItems(raw: Bytes)
    requires DecodeTransaction(raw).Some?
    ensures Rlp.DecodeList(raw) == Some(DecodeTransaction(raw).value.Items(true))
  {
    var items := Rlp.DecodeList(raw).value;
    assert items[6] == [items[6][0]];
    assert items == DecodeTransaction(raw).value.Items(true);
  }

  /** Two signed message calls with the same encoding are the same transaction. */
  lemma {:induction false} TransactionInjective(f: Fields, g: Fields)
    requires f.Valid() && g.Valid() && f.kind == g.kind == MessageCall
    requires |Payload(f, true)| < TWO_32 && |Payload(g, true)| < TWO_32
    requires Encoded(f, true) == Encoded(g, true)
    ensures f == g
  {
    TransactionRoundTrip(f, true);
    TransactionRoundTrip(g, true);
    SameItems(f, g, true);
  }

  lemma {:induction false} SameItems(f: Fields, g: Fields, withSig: bool)
    requires f.kind == g.kind == MessageCall && f.Items(withSig) == g.Items(withSig)
    ensures f.nonce == g.nonce && f.gasPrice == g.gasPrice && f.gas == g.gas && f.to == g.to
    ensures f.value == g.value && f.data == g.data
    ensures withSig ==> f == g
  {
    var a, b := f.Items(withSig), g.Items(withSig);
    assert a[0] == b[0] && a[1] == b[1] && a[2] == b[2] && a[3] == b[3] && a[4] == b[4] && a[5] == b[5];
    if withSig {
      assert a[6] == b[6] && a[7] == b[7] && a[8] == b[8];
      assert [f.v][0] == [g.v][0];
    }
  }

  /** Without their headers, the signed bytes extend the bytes that were hashed for signing. */
  lemma {:induction false} SignedExtendsUnsigned(f: Fields)
    ensures Payload(f, false) <= Payload(f, true)
    ensures Payload(f, true) == Payload(f, false) + Rlp.Encode([f.v]) + Rlp.Encode(f.r) + Rlp.Encode(f.s)
  {
    var items := f.Unsigned();
    Rlp.EncodeAllAppend(items, [f.v]);
    Rlp.EncodeAllAppend(items + [[f.v]], f.r);
    Rlp.EncodeAllAppend(items + [[f.v]] + [f.r], f.s);
  }
}
