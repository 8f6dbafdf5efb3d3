/** What one call to the TownCrier contract does to the chain's state: a per-request escrow whose
    `deliver` calls back into application code, which may call the contract again. */
module Escrow {
  import opened ByteStrings
  import opened Wrappers

  type Address = a: int | 0 <= a < 0x1_0000_0000_0000_0000_0000_0000_0000_0000_0000_0000

  /** Nobody sends from the zero address. */
  type Caller = a: Address | a != 0 witness 1

  type positive = n: int | n > 0 witness 1

  const SGX_ADDRESS: Caller := 0x89B44e4d3c81EDE05D0f5de8d1a68F754D73d997

  const GAS_PRICE := 50_000_000_000
  const MAX_FEE := 3_100_000 * GAS_PRICE
  const MIN_FEE := 30_000 * GAS_PRICE
  const CANCELLATION_FEE := 25_000 * GAS_PRICE

  const TC_CANCELLED_FLAG := 2
  const CANCELLED_FEE_FLAG := 1
  const DELIVERED_FEE_FLAG := 0

  datatype Request = Request(
    requester: Address, fee: nat, callbackAddr: Address, callbackFID: Bytes, paramsHash: Word)

  const EMPTY := Request(0, 0, 0, Zeros(4), Zeros(32))

  datatype Event =
    | RequestInfo(id: nat, requestType: byte, requester: Address, fee: nat, callbackAddr: Address,
                  hash: Word, timestamp: nat, requestData: seq<Word>)
    | DeliverInfo(id: nat, fee: nat, gasPrice: nat, callbackGas: nat, hash: Word, error: uint64, respData: Word)
    | Cancel(id: nat, canceller: Address, requester: Address, flag: int)

  /** Ether that came in or went out, and callbacks, each on account of one request. Refused
      requests are on account of id 0. */
  datatype Effect =
    | PaidIn(id: nat, from: Address, amount: nat)
    | PaidOut(id: nat, to: Address, amount: nat)
    | CalledBack(id: nat, addr: Address, fid: Bytes, error: uint64, respData: Word)

  datatype State = State(
    balance: nat, requestCnt: nat, requests: map<nat, Request>, log: seq<Event>, effects: seq<Effect>)
  {
    /** Storage that was never written reads as zeros. */
    function At(id: nat): Request { if id in requests then requests[id] else EMPTY }

    function Log(e: Event): State { this.(log := log + [e]) }

    function SetFee(id: nat, fee: nat): State { this.(requests := requests[id := At(id).(fee := fee)]) }

    /** `to.send(amount)`: fails if the receiver refuses or the contract has too little. */
    function Send(id: nat, to: Address, amount: nat, accepts: bool): Option<State> {
      if accepts && amount <= balance
      then Some(this.(balance := balance - amount, effects := effects + [PaidOut(id, to, amount)]))
      else None
    }

    function Receive(id: nat, from: Address, amount: nat): State {
      this.(balance := balance + amount, effects := effects + [PaidIn(id, from, amount)])
    }
  }

  function Init(creator: Caller): State {
    State(0, 1, map[0 := EMPTY.(requester := creator)], [], [])
  }

  // ---- calls ----

  /** A call and everything about it that the contract does not control: whether the receiver of
      a payment accepts it, and what the callback does. */
  datatype Call =
    | DoRequest(sender: Caller, value: nat, requestType: byte, callbackAddr: Address, callbackFID: Bytes,
                timestamp: nat, requestData: seq<Word>, accepts: bool)
    | DoDeliver(sender: Caller, id: uint64, paramsHash: Word, error: uint64, respData: Word,
                gasPrice: positive, accepts: bool, callback: Callback)
    | DoCancel(sender: Caller, id: uint64, accepts: bool)

  /** Application code that runs inside `deliver`: calls back into the contract, one after the
      other, and then success or failure; failure undoes all of them. */
  datatype Callback = Callback(calls: Calls, succeeds: bool)

  datatype Calls = Done | Then(call: Call, rest: Calls)

  /** A call that threw has left no trace. */
  datatype Outcome = Returned(value: int) | Threw

  function ParamsHash(k: Keccak, requestType: byte, requestData: seq<Word>): Word {
    k([requestType] + Flatten(requestData))
  }

  /** uint256 subtraction */
  function Sub256(a: nat, b: nat): nat
    requires b < 0x1_0000000000000000_0000000000000000_0000000000000000_0000000000000000
  {
    if b <= a then a - b else a - b + 0x1_0000000000000000_0000000000000000_0000000000000000_0000000000000000
  }

  function CallbackGas(fee: nat, gasPrice: positive): nat { Sub256(fee, MIN_FEE) / gasPrice }

  function ExecRequest(k: Keccak, s: State, c: Call): (State, Outcome)
    requires c.DoRequest?
  {
    if c.value < MIN_FEE || c.value > MAX_FEE then
      var info := RequestInfo(0, c.requestType, c.sender, c.value, c.callbackAddr, Zeros(32), c.timestamp, c.requestData);
      match s.Receive(0, c.sender, c.value).Log(info).Send(0, c.sender, c.value, c.accepts)
      case None => (s, Threw)
      case Some(s') => (s', Returned(0))
    else
      var id := s.requestCnt;
      var hash := ParamsHash(k, c.requestType, c.requestData);
      var info := RequestInfo(id, c.requestType, c.sender, c.value, c.callbackAddr, hash, c.timestamp, c.requestData);
      var r := Request(c.sender, c.value, c.callbackAddr, c.callbackFID, hash);
      var s1 := s.Receive(id, c.sender, c.value).Log(info);
      (s1.(requestCnt := WrapUint64(id + 1), requests := s.requests[id := r]), Returned(id))
  }

  /** What `deliver` has done when it returns or when it is about to call back. */
  datatype Settlement = Aborted | Closed(state: State) | Pending(state: State)

  function DeliverEvent(c: Call, fee: nat, callbackGas: nat): Event
    requires c.DoDeliver?
  {
    DeliverInfo(c.id, fee, c.gasPrice, callbackGas, c.paramsHash, c.error, c.respData)
  }

  function Settle(s: State, c: Call): Settlement
    requires c.DoDeliver?
  {
    var r := s.At(c.id);
    if c.sender != SGX_ADDRESS || r.requester == 0 || r.fee == DELIVERED_FEE_FLAG then
      Closed(s.Log(DeliverEvent(c, r.fee, 0)))
    else if r.paramsHash != c.paramsHash then
      Closed(s.Log(DeliverEvent(c, r.fee, 0)))
    else if r.fee == CANCELLED_FEE_FLAG then
      match s.Send(c.id, SGX_ADDRESS, CANCELLATION_FEE, c.accepts)
      case None => Aborted
      case Some(s1) => Closed(s1.SetFee(c.id, DELIVERED_FEE_FLAG))
    else if r.fee == TC_CANCELLED_FLAG then
      Closed(s.Log(DeliverEvent(c, r.fee, 0)))
    else
      match s.Send(c.id, SGX_ADDRESS, r.fee, c.accepts)
      case None => Aborted
      case Some(s1) =>
        var s2 := s1.SetFee(c.id, DELIVERED_FEE_FLAG).Log(DeliverEvent(c, r.fee, CallbackGas(r.fee, c.gasPrice)));
        Pending(s2.(effects := s2.effects + [CalledBack(c.id, r.callbackAddr, r.callbackFID, c.error, c.respData)]))
  }

  /** Pays the canceller and leaves a flag in the fee field. */
  function CancelPaying(s: State, c: Call, amount: nat, flag: nat): (State, Outcome)
    requires c.DoCancel?
  {
    var r := s.At(c.id);
    match s.Log(Cancel(c.id, c.sender, r.requester, r.fee)).Send(c.id, c.sender, amount, c.accepts)
    case None => (s, Threw)
    case Some(s1) => (s1.SetFee(c.id, flag).Log(Cancel(c.id, c.sender, r.requester, flag)), Returned(1))
  }

  function ExecCancel(s: State, c: Call): (State, Outcome)
    requires c.DoCancel?
  {
    var r := s.At(c.id);
    if r.requester == c.sender && r.fee >= CANCELLATION_FEE then
      CancelPaying(s, c, r.fee - CANCELLATION_FEE, CANCELLED_FEE_FLAG)
    else if r.requester == SGX_ADDRESS && r.fee > TC_CANCELLED_FLAG then
      CancelPaying(s, c, r.fee, TC_CANCELLED_FLAG)
    else
      (s.Log(Cancel(c.id, c.sender, r.requester, r.fee)).Log(Cancel(c.id, c.sender, r.requester, -1)), Returned(0))
  }

  function Exec(k: Keccak, s: State, c: Call): (State, Outcome)
    decreases c, 1
  {
    match c
    case DoRequest(_, _, _, _, _, _, _, _) => ExecRequest(k, s, c)
    case DoCancel(_, _, _) => ExecCancel(s, c)
    case DoDeliver(_, _, _, _, _, _, _, callback) =>
      match Settle(s, c)
      case Aborted => (s, Threw)
      case Closed(s1) => (s1, Returned(0))
      case Pending(s1) =>
        var s2 := Run(k, s1, callback.calls);
        (if callback.succeeds then s2 else s1, Returned(0))
  }

  function Run(k: Keccak, s: State, cs: Calls): State
    decreases cs, 0
  {
    match cs
    case Done => s
    case Then(c, rest) => Run(k, Exec(k, s, c).0, rest)
  }

  /** How many `request` calls there are, nested ones included. */
  function NumRequests(cs: Calls): nat
    decreases cs, 0
  {
    match cs
    case Done => 0
    case Then(c, rest) => RequestsOf(c) + NumRequests(rest)
  }

  function RequestsOf(c: Call): nat
    decreases c, 1
  {
    match c
    case DoRequest(_, _, _, _, _, _, _, _) => 1
    case DoCancel(_, _, _) => 0
    case DoDeliver(_, _, _, _, _, _, _, callback) => NumRequests(callback.calls)
  }
}
