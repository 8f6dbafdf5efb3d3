/** The enclave's answer to a request: a signed transaction that calls the contract's `deliver`. */
module Answers {
  import opened ByteStrings
  import opened Wrappers
  import opened Encoding
  import opened Transactions
  import Rlp
  import Abi
  import Escrow

  /** The arguments of a call to the contract's `deliver`. */
  datatype DeliverArgs = DeliverArgs(id: uint64, paramsHash: Word, error: uint64, respData: Word)

  datatype Signature = Signature(v: byte, r: Word, s: Word) {
    /** None of the three numbers has a leading zero byte. */
    predicate Canonical() { v != 0 && r[0] != 0 && s[0] != 0 }
  }

  function Ascii(s: string): (bs: Bytes)
    ensures |bs| == |s| && forall i :: 0 <= i < |s| && s[i] < 256 as char ==> bs[i] as int == s[i] as int
  {
    seq(|s|, i requires 0 <= i < |s| => ToByte(s[i] as int))
  }

  function Selector(keccak: Keccak): Bytes {
    keccak(Ascii("deliver(uint64,bytes32,uint64,bytes32)"))[..4]
  }

  function ArgList(d: DeliverArgs): seq<Abi.Arg> {
    [Abi.UInt64(d.id), Abi.Bytes32(d.paramsHash), Abi.UInt64(d.error), Abi.Bytes32(d.respData)]
  }

  function CallData(keccak: Keccak, d: DeliverArgs): Bytes
  {
    Selector(keccak) + Abi.Encoded(ArgList(d))
  }

  type int32 = n: int | -0x8000_0000 <= n < 0x8000_0000

  /** An `int` passed where a `uint64_t` is expected. */
  function SignExtend(n: int32): uint64 { if n < 0 then n + TWO_64 else n }

  function AnswerFields(keccak: Keccak, to: Bytes, nonce: int32, d: DeliverArgs, sig: Signature): Fields {
    Fields(MessageCall, Minimal(SignExtend(nonce)), Minimal(GASPRICE), Minimal(GASLIMIT), to, [],
           CallData(keccak, d), sig.v, sig.r, sig.s)
  }

  // ---- reading an answer ----

  /** The call a node makes when this transaction is sent to the contract at `to`. */
  function DecodeAnswer(keccak: Keccak, to: Bytes, raw: Bytes): Option<DeliverArgs> {
    match DecodeTransaction(raw)
    case None => None
    case Some(f) =>
      if f.to != to || |f.data| < 4 || f.data[..4] != Selector(keccak) then None
      else DecodeArgs(f.data[4..])
  }

  function DecodeArgs(bs: Bytes): Option<DeliverArgs> {
    match Abi.Decode(Abi.Behind, [Abi.TUInt64, Abi.TBytes32, Abi.TUInt64, Abi.TBytes32], bs, 0)
    case None => None
    case Some(args) =>
      if |args| == 4 && args[0].UInt64? && args[1].Bytes32? && args[2].UInt64? && args[3].Bytes32?
      then Some(DeliverArgs(args[0].u64, args[1].word, args[2].u64, args[3].word))
      else None
  }

  /** Four static arguments take four words and have no tails. */
  lemma {:induction false} ArgListLength(d: DeliverArgs)
    ensures Abi.AllValid(ArgList(d)) && Abi.NumDynamic(ArgList(d), 0, 4) == 0
    ensures |Abi.Encoded(ArgList(d))| == 128
  {
    var args := ArgList(d);
    assert Abi.NumDynamic(args, 0, 0) == 0;
    assert Abi.NumDynamic(args, 0, 1) == 0;
    assert Abi.NumDynamic(args, 0, 2) == 0;
    assert Abi.NumDynamic(args, 0, 3) == 0;
    Abi.HeadsLength(args, 4);
    Abi.TailsLength(args, 4);
    Abi.NoDynamicNoTail(args, 4);
  }

  lemma {:induction false} ArgsRoundTrip(d: DeliverArgs)
    ensures DecodeArgs(Abi.Encoded(ArgList(d))) == Some(d)
  {
    var args := ArgList(d);
    ArgListLength(d);
    Abi.DecodeEncoded(Abi.Behind, args);
    assert Abi.Types(args) == [Abi.TUInt64, Abi.TBytes32, Abi.TUInt64, Abi.TBytes32];
  }

  lemma {:induction false} CallDataRoundTrip(keccak: Keccak, d: DeliverArgs)
    ensures |CallData(keccak, d)| == 132
    ensures CallData(keccak, d)[..4] == Selector(keccak) && DecodeArgs(CallData(keccak, d)[4..]) == Some(d)
  {
    ArgListLength(d);
    ArgsRoundTrip(d);
    assert CallData(keccak, d)[4..] == Abi.Encoded(ArgList(d));
  }

  // ---- how long an answer is ----

  lemma {:induction false} EncodedLength(s: Bytes)
    requires |s| < 256
    ensures |Rlp.Encode(s)| == if |s| == 1 && s[0] < 0x80 then 1 else if |s| < 56 then 1 + |s| else 2 + |s|
  {
    if |s| >= 56 {
      assert ByteLength(|s|) == 1 + ByteLength(|s| / 256);
      assert ByteLength(0) == 0;
    }
  }

  lemma {:induction false} ConstantLengths()
    ensures ByteLength(GASPRICE) == 5 && ByteLength(GASLIMIT) == 3
  {
    assert Pow256(2) == 0x1_0000;
    assert Pow256(3) == 0x100_0000;
    assert Pow256(4) == 0x1_0000_0000;
    assert Pow256(5) == 0x100_0000_0000;
    ByteLengthLeast(GASPRICE, 5);
    ByteLengthLeast(GASPRICE, 4);
    ByteLengthLeast(GASLIMIT, 3);
    ByteLengthLeast(GASLIMIT, 2);
  }

  /** The unsigned fields take 166 bytes besides the nonce. */
  lemma {:induction false} UnsignedLength(keccak: Keccak, to: Bytes, nonce: int32, d: DeliverArgs, sig: Signature)
    requires |to| == 20
    ensures var f := AnswerFields(keccak, to, nonce, d, sig);
      |Payload(f, false)| == 166 + |Rlp.Encode(f.nonce)| && 1 <= |Rlp.Encode(f.nonce)| <= 9
  {
    var f := AnswerFields(keccak, to, nonce, d, sig);
    ByteLengthOfUint64(SignExtend(nonce));
    EncodedLength(f.nonce);
    ConstantFieldLengths(keccak, to, nonce, d, sig);
    assert f.Items(false) == [f.nonce, f.gasPrice, f.gas, f.to, f.value, f.data];
    Unroll6(f.Items(false));
  }

  lemma {:induction false} ConstantFieldLengths(keccak: Keccak, to: Bytes, nonce: int32, d: DeliverArgs, sig: Signature)
    requires |to| == 20
    ensures var f := AnswerFields(keccak, to, nonce, d, sig);
      && |Rlp.Encode(f.gasPrice)| == 6 && |Rlp.Encode(f.gas)| == 4 && |Rlp.Encode(f.to)| == 21
      && |Rlp.Encode(f.value)| == 1 && |Rlp.Encode(f.data)| == 134
  {
    var f := AnswerFields(keccak, to, nonce, d, sig);
    ConstantLengths();
    CallDataRoundTrip(keccak, d);
    EncodedLength(f.gasPrice);
    EncodedLength(f.gas);
    EncodedLength(f.to);
    EncodedLength(f.value);
    EncodedLength(f.data);
  }

  lemma {:induction false} Unroll6(items: seq<Bytes>)
    requires |items| == 6
    ensures |Rlp.EncodeAll(items)| == |Rlp.Encode(items[0])| + |Rlp.Encode(items[1])| + |Rlp.Encode(items[2])|
                                      + |Rlp.Encode(items[3])| + |Rlp.Encode(items[4])| + |Rlp.Encode(items[5])|
  {
    UnrollOne(items, 0);
    UnrollOne(items, 1);
    UnrollOne(items, 2);
    UnrollOne(items, 3);
    UnrollOne(items, 4);
    UnrollOne(items, 5);
    assert items[0..] == items && items[6..] == [];
  }

  lemma {:induction false} UnrollOne(items: seq<Bytes>, i: nat)
    requires i < |items|
    ensures |Rlp.EncodeAll(items[i..])| == |Rlp.Encode(items[i])| + |Rlp.EncodeAll(items[i + 1..])|
  {
    assert items[i..][1..] == items[i + 1..];
  }

  /** Every answer is at most 245 bytes, behind a list header with one length byte. */
  lemma {:induction false} AnswerLength(keccak: Keccak, to: Bytes, nonce: int32, d: DeliverArgs, sig: Signature)
    requires |to| == 20
    ensures var f := AnswerFields(keccak, to, nonce, d, sig);
      && 234 <= |Payload(f, true)| <= 243
      && Encoded(f, true) == [0xf8, |Payload(f, true)|] + Payload(f, true)
  {
    var f := AnswerFields(keccak, to, nonce, d, sig);
    UnsignedLength(keccak, to, nonce, d, sig);
    SignedExtendsUnsigned(f);
    EncodedLength([f.v]);
    EncodedLength(f.r);
    EncodedLength(f.s);
    OneLengthByte(|Payload(f, true)|);
  }

  lemma {:induction false} OneLengthByte(len: nat)
    requires 56 <= len < 256
    ensures Rlp.LengthPrefix(0xc0, len) == [0xf8, len]
  {
    assert len / 256 == 0;
    assert ByteLength(len) == 1 + ByteLength(0);
    assert Minimal(len) == BigEndian(0, 0) + [len];
  }

  /** Sending the answer to the contract makes the call it was made from if its signature has no
      leading zero byte; otherwise a node dismisses it. */
  lemma {:induction false} AnswerRoundTrip(keccak: Keccak, to: Bytes, nonce: int32, d: DeliverArgs, sig: Signature)
    requires |to| == 20
    ensures DecodeAnswer(keccak, to, SignedBytes(keccak, to, nonce, d, sig)) == if sig.Canonical() then Some(d) else None
  {
    var f := AnswerFields(keccak, to, nonce, d, sig);
    AnswerLength(keccak, to, nonce, d, sig);
    AnswerValid(keccak, to, nonce, d, sig);
    AnswerCanonical(keccak, to, nonce, d, sig);
    AcceptedIff(f);
    CallDataRoundTrip(keccak, d);
  }

  /** The enclave's own numbers never have a leading zero. */
  lemma {:induction false} AnswerCanonical(keccak: Keccak, to: Bytes, nonce: int32, d: DeliverArgs, sig: Signature)
    ensures AnswerFields(keccak, to, nonce, d, sig).Canonical() <==> sig.Canonical()
  {
    ByteLengthOfUint64(SignExtend(nonce));
    ByteLengthOfUint64(GASPRICE);
    ByteLengthOfUint64(GASLIMIT);
    MinimalNoLeadingZero(SignExtend(nonce));
    MinimalNoLeadingZero(GASPRICE);
    MinimalNoLeadingZero(GASLIMIT);
  }

  /** A signature no node takes: the first of its two numbers is below 2^248. */
  lemma {:induction false} LeadingZeroDismissed(keccak: Keccak, to: Bytes, nonce: int32, d: DeliverArgs)
    requires |to| == 20
    ensures DecodeAnswer(keccak, to, SignedBytes(keccak, to, nonce, d, Signature(27, [0] + seq(31, _ => 1), seq(32, _ => 1)))) == None
  {
    AnswerRoundTrip(keccak, to, nonce, d, Signature(27, [0] + seq(31, _ => 1), seq(32, _ => 1)));
  }

  /** The bytes that are hashed for signing determine the nonce and every argument of the call. */
  lemma {:induction false} SignedBytesDetermineCall(keccak: Keccak, to: Bytes, nonce: int32, d: DeliverArgs,
      nonce': int32, d': DeliverArgs,
                                 sig: Signature, sig': Signature)
    requires |to| == 20
    requires Encoded(AnswerFields(keccak, to, nonce, d, sig), false)
          == Encoded(AnswerFields(keccak, to, nonce', d', sig'), false)
    ensures nonce == nonce' && d == d'
  {
    var f, g := AnswerFields(keccak, to, nonce, d, sig), AnswerFields(keccak, to, nonce', d', sig');
    UnsignedLength(keccak, to, nonce, d, sig);
    UnsignedLength(keccak, to, nonce', d', sig');
    AnswerValid(keccak, to, nonce, d, sig);
    AnswerValid(keccak, to, nonce', d', sig');
    TransactionRoundTrip(f, false);
    TransactionRoundTrip(g, false);
    SameItems(f, g, false);
    MinimalInjective(SignExtend(nonce), SignExtend(nonce'));
    CallDataRoundTrip(keccak, d);
    CallDataRoundTrip(keccak, d');
  }

  lemma {:induction false} AnswerValid(keccak: Keccak, to: Bytes, nonce: int32, d: DeliverArgs, sig: Signature)
    requires |to| == 20
    ensures AnswerFields(keccak, to, nonce, d, sig).Valid()
  {
    ConstantLengths();
    CallDataRoundTrip(keccak, d);
    ByteLengthOfUint64(SignExtend(nonce));
  }

  /** The bytes that are hashed and signed; the signature fields do not enter. */
  function UnsignedBytes(keccak: Keccak, to: Bytes, nonce: int32, d: DeliverArgs): Bytes {
    Encoded(AnswerFields(keccak, to, nonce, d, Signature(0, Zeros(32), Zeros(32))), false)
  }

  /** The bytes that are sent. */
  function SignedBytes(keccak: Keccak, to: Bytes, nonce: int32, d: DeliverArgs, sig: Signature): Bytes {
    Encoded(AnswerFields(keccak, to, nonce, d, sig), true)
  }

  // ---- what anyone who reads an answer finds ----

  /** A message call whose fields are the strings the bytes are a list of, canonical or not. */
  ghost predicate ReadsAs(raw: Bytes, f: Fields) {
    f.Valid() && f.kind == MessageCall && Rlp.DecodeList(raw) == Some(f.Items(true))
  }

  /** An answer is the list of exactly one transaction's fields. */
  lemma {:induction false} ReadOnce(keccak: Keccak, to: Bytes, nonce: int32, d: DeliverArgs, sig: Signature, f: Fields)
    requires |to| == 20
    ensures ReadsAs(SignedBytes(keccak, to, nonce, d, sig), f) <==> f == AnswerFields(keccak, to, nonce, d, sig)
  {
    var g := AnswerFields(keccak, to, nonce, d, sig);
    AnswerValid(keccak, to, nonce, d, sig);
    AnswerLength(keccak, to, nonce, d, sig);
    TransactionRoundTrip(g, true);
    if ReadsAs(SignedBytes(keccak, to, nonce, d, sig), f) {
      SameItems(f, g, true);
    }
  }

  /** The transaction around the call: its nonce, the price the contract reckons its fees with, the
      gas limit, the contract as receiver, no ether, and the function's selector. */
  ghost predicate Envelope(keccak: Keccak, to: Bytes, nonce: int32, f: Fields) {
    && Value(f.nonce) == (if nonce < 0 then nonce + TWO_64 else nonce)
    && Value(f.gasPrice) == Escrow.GAS_PRICE && Value(f.gas) == 3_000_000
    && f.to == to && Value(f.value) == 0
    && |f.data| >= 4 && f.data[..4] == keccak(Ascii("deliver(uint64,bytes32,uint64,bytes32)"))[..4]
  }

  /** What is signed is the hash of the transaction that is sent, without its signature. */
  ghost predicate SignedBy(keccak: Keccak, ecdsa: Word -> Option<Signature>, f: Fields)
    requires f.Valid()
  {
    ecdsa(keccak(Encoded(f, false))) == Some(Signature(f.v, f.r, f.s))
  }

  lemma {:induction false} AnswerEnvelope(keccak: Keccak, to: Bytes, nonce: int32, d: DeliverArgs, sig: Signature)
    requires |to| == 20
    ensures Envelope(keccak, to, nonce, AnswerFields(keccak, to, nonce, d, sig))
  {
    MinimalValue(SignExtend(nonce));
    MinimalValue(GASPRICE);
    MinimalValue(GASLIMIT);
    CallDataRoundTrip(keccak, d);
  }

  /** If every signature recovers to SGX's account, so does that of every answer that was asked to be
      signed, from the bytes that are sent alone. */
  lemma {:induction false} SenderIsSgx(keccak: Keccak, ecdsa: Word -> Option<Signature>,
                                       recover: (Word, Signature) -> Escrow.Address, raw: Bytes, f: Fields)
    requires forall h: Word :: ecdsa(h).Some? ==> recover(h, ecdsa(h).value) == Escrow.SGX_ADDRESS
    requires ReadsAs(raw, f) && SignedBy(keccak, ecdsa, f)
    ensures recover(keccak(Encoded(f, false)), Signature(f.v, f.r, f.s)) == Escrow.SGX_ADDRESS
  {
    var h: Word := keccak(Encoded(f, false));
    assert ecdsa(h).Some?;
  }

  // ---- forming it ----

  datatype FormError = BadAddress | SigningFailed | TooLong

  /** Forms the transaction that delivers a response. The contract address comes from
      configuration; `ecdsa` stands for this call's signing of a 32-byte hash. */
  method FormTransaction(keccak: Keccak, ecdsa: Word -> Option<Signature>, contractAddr: Bytes, nonce: int32,
                         id: uint64, requestType: byte, requestData: Bytes, error: uint64, respData: Bytes,
                         withSig: bool)
    returns (result: Result<Bytes, FormError>)
    requires error == 0 ==> |respData| >= 32
    ensures result == Failure(BadAddress) <==> |contractAddr| != 20
    ensures result.Failure? ==> result.error == BadAddress || result.error == SigningFailed
    ensures result == Failure(SigningFailed) ==> withSig
    ensures result.Success? ==> |result.value| <= 245 && exists f :: ReadsAs(result.value, f)
    ensures result.Success? ==> forall f :: ReadsAs(result.value, f) ==>
      && Envelope(keccak, contractAddr, nonce, f)
      && (if withSig then SignedBy(keccak, ecdsa, f) else f.v == 27 && f.r == f.s == Zeros(32))
    ensures result.Success? ==>
      var respWord := if error == 0 then respData[..32] else Zeros(32);
      forall f :: ReadsAs(result.value, f) ==>
        DecodeAnswer(keccak, contractAddr, result.value)
        == if Signature(f.v, f.r, f.s).Canonical()
           then Some(DeliverArgs(id, keccak([requestType] + requestData), error, respWord)) else None
    ensures |contractAddr| == 20 ==>
      var d := DeliverArgs(id, keccak([requestType] + requestData), error, if error == 0 then respData[..32] else Zeros(32));
      var sig := if withSig then ecdsa(keccak(UnsignedBytes(keccak, contractAddr, nonce, d)))
                 else Some(Signature(27, Zeros(32), Zeros(32)));
      result == if sig.None? then Failure(SigningFailed)
                else Success(SignedBytes(keccak, contractAddr, nonce, d, sig.value))
  {
    var paramHash := keccak([requestType] + requestData);
    var respWord: Word := Zeros(32);
    if error == 0 {
      respWord := respData[..32];
    }
    var d := DeliverArgs(id, paramHash, error, respWord);
    var callData := EncodeCall(keccak, d);
    if |contractAddr| != 20 {
      return Failure(BadAddress);
    }
    var tx := new Transaction(MessageCall, SignExtend(nonce), GASPRICE, GASLIMIT, contractAddr, 0, callData);
    EmptyNumeral();
    var signature := SignTransaction(keccak, ecdsa, tx, withSig, contractAddr, nonce, d);
    if signature.None? {
      return Failure(SigningFailed);
    }
    var raw := EncodeSigned(keccak, tx, contractAddr, nonce, d, signature.value);
    ReadBack(keccak, ecdsa, contractAddr, nonce, d, signature.value, withSig);
    if |raw| > TX_BUF_SIZE {
      return Failure(TooLong);
    }
    return Success(raw);
  }

  /** What can be read off the bytes of a formed transaction. */
  lemma {:induction false} ReadBack(keccak: Keccak, ecdsa: Word -> Option<Signature>, to: Bytes, nonce: int32,
                                    d: DeliverArgs, sig: Signature, withSig: bool)
    requires |to| == 20
    requires if withSig then ecdsa(keccak(UnsignedBytes(keccak, to, nonce, d))) == Some(sig)
             else sig == Signature(27, Zeros(32), Zeros(32))
    ensures ReadsAs(SignedBytes(keccak, to, nonce, d, sig), AnswerFields(keccak, to, nonce, d, sig))
    ensures forall f :: ReadsAs(SignedBytes(keccak, to, nonce, d, sig), f) ==>
      && Signature(f.v, f.r, f.s) == sig && Envelope(keccak, to, nonce, f)
      && (if withSig then SignedBy(keccak, ecdsa, f) else f.v == 27 && f.r == f.s == Zeros(32))
  {
    ReadOnce(keccak, to, nonce, d, sig, AnswerFields(keccak, to, nonce, d, sig));
    AnswerEnvelope(keccak, to, nonce, d, sig);
    SignatureIrrelevant(keccak, to, nonce, d, sig);
    forall f | ReadsAs(SignedBytes(keccak, to, nonce, d, sig), f)
      ensures f == AnswerFields(keccak, to, nonce, d, sig)
    {
      ReadOnce(keccak, to, nonce, d, sig, f);
    }
  }

  lemma {:induction false} EmptyNumeral()
    ensures Minimal(0) == []
  {
  }

  method EncodeCall(keccak: Keccak, d: DeliverArgs) returns (callData: Bytes)
    ensures callData == CallData(keccak, d)
  {
    var args := [Abi.UInt64(d.id), Abi.Bytes32(d.paramsHash), Abi.UInt64(d.error), Abi.Bytes32(d.respData)];
    ArgListLength(d);
    var encoded := new Buffer();
    var ret := Abi.EncodeArray(args, encoded);
    encoded.InsertFront(Selector(keccak));
    return encoded.elems;
  }

  /** Signs the hash of the unsigned encoding and stores the signature in the transaction. */
  method SignTransaction(keccak: Keccak, ecdsa: Word -> Option<Signature>, tx: Transaction, withSig: bool,
                         ghost to: Bytes, ghost nonce: int32, ghost d: DeliverArgs)
    returns (signature: Option<Signature>)
    requires |to| == 20
    requires tx.State() == AnswerFields(keccak, to, nonce, d, Signature(tx.v, Zeros(32), Zeros(32)))
    modifies tx`v, tx`r, tx`s
    ensures signature == if withSig then ecdsa(keccak(Encoded(old(tx.State()), false)))
                         else Some(Signature(27, Zeros(32), Zeros(32)))
    ensures Encoded(old(tx.State()), false) == UnsignedBytes(keccak, to, nonce, d)
    ensures signature.Some? ==> tx.State() == AnswerFields(keccak, to, nonce, d, signature.value)
  {
    var unsigned := EncodeUnsigned(keccak, tx, to, nonce, d);
    signature := if withSig then ecdsa(keccak(unsigned)) else Some(Signature(27, Zeros(32), Zeros(32)));
    if signature.Some? {
      tx.v, tx.r, tx.s := signature.value.v, signature.value.r, signature.value.s;
    }
  }

  method EncodeUnsigned(ghost keccak: Keccak, tx: Transaction, ghost to: Bytes, ghost nonce: int32, ghost d: DeliverArgs)
    returns (unsigned: Bytes)
    requires |to| == 20
    requires tx.State() == AnswerFields(keccak, to, nonce, d, Signature(tx.v, Zeros(32), Zeros(32)))
    ensures unsigned == Encoded(tx.State(), false) == UnsignedBytes(keccak, to, nonce, d)
  {
    ghost var sig := Signature(tx.v, Zeros(32), Zeros(32));
    AnswerValid(keccak, to, nonce, d, sig);
    UnsignedLength(keccak, to, nonce, d, sig);
    SignatureIrrelevant(keccak, to, nonce, d, sig);
    unsigned := EncodeTransaction(tx, false);
  }

  lemma {:induction false} SignatureIrrelevant(keccak: Keccak, to: Bytes, nonce: int32, d: DeliverArgs, sig: Signature)
    ensures Encoded(AnswerFields(keccak, to, nonce, d, sig), false) == UnsignedBytes(keccak, to, nonce, d)
  {
    assert AnswerFields(keccak, to, nonce, d, sig).Items(false)
        == AnswerFields(keccak, to, nonce, d, Signature(0, Zeros(32), Zeros(32))).Items(false);
  }

  method EncodeSigned(ghost keccak: Keccak, tx: Transaction, ghost to: Bytes, ghost nonce: int32, ghost d: DeliverArgs,
                      ghost sig: Signature)
    returns (raw: Bytes)
    requires |to| == 20 && tx.State() == AnswerFields(keccak, to, nonce, d, sig)
    ensures raw == SignedBytes(keccak, to, nonce, d, sig)
    ensures DecodeAnswer(keccak, to, raw) == (if sig.Canonical() then Some(d) else None) && |raw| <= 245
  {
    AnswerValid(keccak, to, nonce, d, sig);
    AnswerLength(keccak, to, nonce, d, sig);
    AnswerRoundTrip(keccak, to, nonce, d, sig);
    raw := EncodeTransaction(tx, true);
  }
}
