/** From a logged request to the contract and back: the relay reads RequestInfo events, has the
    enclave answer them, and sends the answers. Sending is at least once; the contract makes it
    exactly once. */
module Relay {
  import opened ByteStrings
  import opened Wrappers
  import opened Escrow
  import opened EscrowRuns
  import opened EscrowTheorems
  import opened TownCrierContract
  import opened Transactions
  import opened Answers

  // ---- one request, end to end ----

  /** The call the enclave's answer to a log entry makes: the relay joins the data words, and the id
      travels as 64 bits. */
  function AnswerTo(k: Keccak, e: Event, error: uint64, respData: Bytes): DeliverArgs
    requires e.RequestInfo?
    requires error == 0 ==> |respData| >= 32
  {
    DeliverArgs(WrapUint64(e.id), k([e.requestType] + Flatten(e.requestData)), error,
                if error == 0 then respData[..32] else Zeros(32))
  }

  /** The contract call that mining a transaction signed by SGX makes, if it is one. */
  function CallOf(d: DeliverArgs, gasPrice: positive, accepts: bool, callback: Callback): Call {
    DoDeliver(SGX_ADDRESS, d.id, d.paramsHash, d.error, d.respData, gasPrice, accepts, callback)
  }

  /** What the outside does while one log entry is handled: other calls that are mined first, the
      account's nonce, the enclave's response and signature, and the mining of the answer. */
  datatype Round = Round(between: Calls, nonce: int32, error: uint64, respData: Bytes, signature: Option<Signature>,
                         gasPrice: positive, accepts: bool, callback: Callback)
  {
    predicate Valid() { error == 0 ==> |respData| >= 32 }

    /** The enclave signs, and without a leading zero byte. */
    predicate Signs() { signature.Some? && signature.value.Canonical() }

    /** The answer is mined and the payment goes through. */
    predicate Succeeds() { Signs() && accepts }
  }

  /** The bytes of the answer; none if the enclave fails. */
  function Outgoing(k: Keccak, to: Bytes, e: Event, round: Round): Bytes
    requires e.RequestInfo? && round.Valid()
  {
    if round.signature.Some? && |to| == 20
    then SignedBytes(k, to, round.nonce, AnswerTo(k, e, round.error, round.respData), round.signature.value)
    else []
  }

  /** Sending bytes and waiting for them to be mined; true if a node dismisses them. */
  function Sent(k: Keccak, to: Bytes, s: State, raw: Bytes, round: Round): (State, bool) {
    match DecodeAnswer(k, to, raw)
    case None => (s, true)
    case Some(d) => (Exec(k, s, CallOf(d, round.gasPrice, round.accepts, round.callback)).0, false)
  }

  lemma {:induction false} OutgoingDecodes(k: Keccak, to: Bytes, e: Event, round: Round)
    requires e.RequestInfo? && round.Valid()
    ensures var word := if round.error == 0 then round.respData[..32] else Zeros(32);
      DecodeAnswer(k, to, Outgoing(k, to, e, round))
      == if round.Signs() && |to| == 20
         then Some(DeliverArgs(WrapUint64(e.id), k([e.requestType] + Flatten(e.requestData)), round.error, word)) else None
  {
    if round.signature.Some? && |to| == 20 {
      AnswerRoundTrip(k, to, round.nonce, AnswerTo(k, e, round.error, round.respData), round.signature.value);
    }
  }

  /** The bytes the enclave makes of a logged request are mined exactly if it signs without a leading
      zero byte. Then they are a delivery for that request with the stored hash, the enclave's error
      and, if there is none, the first 32 bytes of its response. Sent while the request is live, at any
      later time, it pays and calls the application back with these; it settles it in any case. */
  lemma {:induction false} EndToEnd(k: Keccak, s: State, i: nat, later: Calls, to: Bytes, round: Round, s1: State, t: State)
    requires Reachable(k, s) && i < |s.log| && s.log[i].RequestInfo? && s.log[i].id != 0
    requires |to| == 20 && round.Valid() && round.accepts
    requires s.requestCnt + NumRequests(later) + NumRequests(round.callback.calls) < TWO_64
    requires s1 == Run(k, s, later) && t == Sent(k, to, s1, Outgoing(k, to, s.log[i], round), round).0
    ensures s.log[i].id < s1.requestCnt && s1.requestCnt < TWO_64
    ensures var id := s.log[i].id;
      var r := s1.At(id);
      var word := if round.error == 0 then round.respData[..32] else Zeros(32);
      && DecodeAnswer(k, to, Outgoing(k, to, s.log[i], round))
         == (if round.Signs() then Some(DeliverArgs(id, r.paramsHash, round.error, word)) else None)
      && t == (if !round.Signs() then s1 else
                 Exec(k, s1, DoDeliver(SGX_ADDRESS, id, r.paramsHash, round.error, word, round.gasPrice, true, round.callback)).0)
      && (round.Signs() && StatusOf(s1, id) == Live ==>
            && History(t.effects, id) == [PaidIn(id, r.requester, r.fee), PaidOut(id, SGX_ADDRESS, r.fee),
                                          CalledBack(id, r.callbackAddr, r.callbackFID, round.error, word)])
      && (round.Signs() ==> StatusOf(t, id) == Delivered || StatusOf(t, id) == SgxCancelled)
  {
    var e := s.log[i];
    OutgoingDecodes(k, to, e, round);
    ReachableInv(k, s);
    assert EntryOk(k, s, e);
    RunKeeps(k, s, s1, later);
    HashStays(k, s, s1, e);
    if round.Signs() {
      MinedAnswer(k, s1, t, AnswerTo(k, e, round.error, round.respData), round);
    }
  }

  /** Mining an answer with the stored hash settles its request. */
  lemma {:induction false} MinedAnswer(k: Keccak, s: State, t: State, d: DeliverArgs, round: Round)
    requires Inv(k, s) && 1 <= d.id < s.requestCnt && d.paramsHash == s.At(d.id).paramsHash && round.accepts
    requires s.requestCnt + NumRequests(round.callback.calls) < TWO_64
    requires t == Exec(k, s, CallOf(d, round.gasPrice, true, round.callback)).0
    ensures StatusOf(t, d.id) == Delivered || StatusOf(t, d.id) == SgxCancelled
    ensures StatusOf(s, d.id) == Live ==>
      History(t.effects, d.id) == AfterDelivery(s.At(d.id), CallOf(d, round.gasPrice, true, round.callback))
  {
    var c := CallOf(d, round.gasPrice, true, round.callback);
    DeliveryDelivers(k, s, t, c);
    ExecKeeps(k, s, t, c);
    if StatusOf(s, d.id) == Live {
      DeliverDelivers(k, s, t, c);
    }
  }

  // ---- what is settled ----

  /** No delivery is outstanding for the id; refused requests are logged under id 0. */
  predicate Settled(s: State, id: nat) {
    id == 0 || (id < s.requestCnt && (s.At(id).fee == DELIVERED_FEE_FLAG || s.At(id).fee == TC_CANCELLED_FLAG))
  }

  lemma {:induction false} SettledForGood(s: State, t: State, id: nat)
    requires Settled(s, id) && Evolves(s, t)
    ensures Settled(t, id)
  {
  }

  /** Every id some DeliverInfo event mentions is settled. */
  ghost predicate AnsweredSettled(s: State, log: seq<Event>) {
    forall j :: 0 <= j < |log| && log[j].DeliverInfo? ==> Settled(s, log[j].id)
  }

  /** Every delivery, nested ones included, comes from SGX and answers a request in the log. */
  ghost predicate Honest(k: Keccak, s: State, cs: Calls)
    decreases cs, 0
  {
    match cs
    case Done => true
    case Then(c, rest) => HonestCall(k, s, c) && Honest(k, Exec(k, s, c).0, rest)
  }

  ghost predicate HonestCall(k: Keccak, s: State, c: Call)
    decreases c, 1
  {
    match c
    case DoDeliver(sender, id, hash, _, _, _, _, callback) =>
      && sender == SGX_ADDRESS
      && (exists i :: 0 <= i < |s.log| && IsAnswer(k, s.log[i], id, hash))
      && (Settle(s, c).Pending? ==> Honest(k, Settle(s, c).state, callback.calls))
    case _ => true
  }

  predicate IsAnswer(k: Keccak, e: Event, id: uint64, hash: Word) {
    e.RequestInfo? && e.id == id && hash == ParamsHash(k, e.requestType, e.requestData)
  }

  lemma {:induction false} HonestSettles(k: Keccak, s: State, t: State, c: Call)
    requires Inv(k, s) && c.DoDeliver? && c.sender == SGX_ADDRESS
    requires exists i :: 0 <= i < |s.log| && IsAnswer(k, s.log[i], c.id, c.paramsHash)
    requires AnsweredSettled(s, s.log) && (Settle(s, c) == Pending(t) || Settle(s, c) == Closed(t))
    ensures AnsweredSettled(t, t.log)
  {
    var i :| 0 <= i < |s.log| && IsAnswer(k, s.log[i], c.id, c.paramsHash);
    assert EntryOk(k, s, s.log[i]);
    SettleKeeps(k, s, t, c);
    SettleLogs(s, t, c);
    if c.id != 0 {
      MatchSettles(s, t, c);
    }
    SettledGrows(s, t);
  }

  lemma {:induction false} SettleLogs(s: State, t: State, c: Call)
    requires c.DoDeliver? && (Settle(s, c) == Pending(t) || Settle(s, c) == Closed(t))
    ensures forall j :: |s.log| <= j < |t.log| && t.log[j].DeliverInfo? ==> t.log[j].id == c.id
  {
  }

  lemma {:induction false} MatchSettles(s: State, t: State, c: Call)
    requires c.DoDeliver? && c.sender == SGX_ADDRESS && c.id < s.requestCnt && s.At(c.id).requester != 0
    requires c.paramsHash == s.At(c.id).paramsHash && (Settle(s, c) == Pending(t) || Settle(s, c) == Closed(t))
    ensures Settled(t, c.id)
  {
  }

  lemma {:induction false} SettledGrows(s: State, t: State)
    requires AnsweredSettled(s, s.log) && Evolves(s, t)
    requires forall j :: |s.log| <= j < |t.log| && t.log[j].DeliverInfo? ==> Settled(t, t.log[j].id)
    ensures AnsweredSettled(t, t.log)
  {
    forall j | 0 <= j < |t.log| && t.log[j].DeliverInfo?
      ensures Settled(t, t.log[j].id)
    {
      if j < |s.log| {
        assert t.log[j] == s.log[j];
        SettledForGood(s, t, t.log[j].id);
      }
    }
  }

  /** Requests and cancellations log no delivery. */
  lemma {:induction false} QuietCall(k: Keccak, s: State, t: State, c: Call)
    requires Inv(k, s) && AnsweredSettled(s, s.log) && !c.DoDeliver?
    requires s.requestCnt + RequestsOf(c) < TWO_64 && t == Exec(k, s, c).0
    ensures Inv(k, t) && AnsweredSettled(t, t.log)
  {
    QuietLog(k, s, t, c);
    ExecKeeps(k, s, t, c);
    SettledGrows(s, t);
  }

  lemma {:induction false} QuietLog(k: Keccak, s: State, t: State, c: Call)
    requires !c.DoDeliver? && t == Exec(k, s, c).0
    ensures forall j :: |s.log| <= j < |t.log| ==> !t.log[j].DeliverInfo?
  {
  }

  lemma {:induction false} HonestExec(k: Keccak, s: State, t: State, c: Call)
    requires Inv(k, s) && AnsweredSettled(s, s.log) && HonestCall(k, s, c)
    requires s.requestCnt + RequestsOf(c) < TWO_64 && t == Exec(k, s, c).0
    ensures Inv(k, t) && AnsweredSettled(t, t.log)
    decreases c, 1
  {
    match c
    case DoRequest(_, _, _, _, _, _, _, _) =>
      QuietCall(k, s, t, c);
    case DoCancel(_, _, _) =>
      QuietCall(k, s, t, c);
    case DoDeliver(_, _, _, _, _, _, _, callback) =>
      ExecKeeps(k, s, t, c);
      match Settle(s, c)
      case Aborted =>
      case Closed(s1) =>
        HonestSettles(k, s, s1, c);
      case Pending(s1) =>
        HonestSettles(k, s, s1, c);
        if callback.succeeds {
          SettleKeeps(k, s, s1, c);
          HonestRun(k, s1, t, callback.calls);
        }
  }

  /** As long as deliveries are honest, every answered id is settled. */
  lemma {:induction false} HonestRun(k: Keccak, s: State, t: State, cs: Calls)
    requires Inv(k, s) && AnsweredSettled(s, s.log) && Honest(k, s, cs)
    requires s.requestCnt + NumRequests(cs) < TWO_64 && t == Run(k, s, cs)
    ensures Inv(k, t) && AnsweredSettled(t, t.log)
    decreases cs, 0
  {
    match cs
    case Done =>
    case Then(c, rest) =>
      var s1 := Exec(k, s, c).0;
      HonestExec(k, s, s1, c);
      ExecKeeps(k, s, s1, c);
      HonestRun(k, s1, t, rest);
  }

  /** So it is in every run from creation in which SGX alone delivers, and only what was logged. */
  lemma {:induction false} HonestFromCreation(k: Keccak, creator: Caller, t: State, cs: Calls)
    requires Honest(k, Init(creator), cs) && 1 + NumRequests(cs) < TWO_64 && t == Run(k, Init(creator), cs)
    ensures Inv(k, t) && AnsweredSettled(t, t.log)
  {
    InitKeeps(k, creator);
    HonestRun(k, Init(creator), t, cs);
  }

  /** A delivery anyone else sends for a live request is logged and leaves the request live, so the
      condition fails from then on until the request is settled some other way. */
  lemma {:induction false} ForeignDelivery(k: Keccak, s: State, c: Call)
    requires Inv(k, s) && c.DoDeliver? && c.sender != SGX_ADDRESS && StatusOf(s, c.id) == Live
    ensures var t := Exec(k, s, c).0;
      StatusOf(t, c.id) == Live && !AnsweredSettled(t, t.log)
  {
    var t := Exec(k, s, c).0;
    assert t.log[|s.log|].DeliverInfo? && t.log[|s.log|].id == c.id;
    assert !Settled(t, t.log[|s.log|].id);
  }

  /** An answer to a refused request changes nothing but the log. */
  lemma {:induction false} AnswerToRefused(k: Keccak, s: State, c: Call)
    requires Inv(k, s) && c.DoDeliver? && c.id == 0
    ensures Exec(k, s, c).1 == Returned(0)
    ensures Exec(k, s, c).0 == s.(log := Exec(k, s, c).0.log)
  {
  }

  // ---- catching up ----

  /** How many requests are not settled. */
  function Unresponded(s: State, n: nat): nat {
    if n <= 1 then 0 else Unresponded(s, n - 1) + if Settled(s, n - 1) then 0 else 1
  }

  lemma {:induction false} NoneUnresponded(s: State, n: nat, id: nat)
    requires Unresponded(s, n) == 0 && 1 <= id < n
    ensures Settled(s, id)
  {
    if id < n - 1 {
      NoneUnresponded(s, n - 1, id);
    }
  }

  /** Catching up never makes the count of unsettled requests among the first `n` rise. */
  lemma {:induction false} UnrespondedFalls(s: State, t: State, n: nat)
    requires Evolves(s, t) && n <= s.requestCnt
    ensures Unresponded(t, n) <= Unresponded(s, n)
  {
    if n > 1 {
      UnrespondedFalls(s, t, n - 1);
      if Settled(s, n - 1) {
        SettledForGood(s, t, n - 1);
      }
    }
  }

  function RequestsFrom(rounds: seq<Round>, i: nat): nat
    requires i <= |rounds|
    decreases |rounds| - i
  {
    if i == |rounds| then 0
    else NumRequests(rounds[i].between) + NumRequests(rounds[i].callback.calls) + RequestsFrom(rounds, i + 1)
  }

  /** One round of the loop: others' calls are mined, then the answer; true if it is not mined. */
  function EntryStep(k: Keccak, to: Bytes, s: State, e: Event, round: Round): (State, bool)
    requires e.RequestInfo? && round.Valid()
  {
    Sent(k, to, Run(k, s, round.between), Outgoing(k, to, e, round), round)
  }

  ghost predicate AllValid(rounds: seq<Round>) { forall i :: 0 <= i < |rounds| ==> rounds[i].Valid() }

  /** The loop over the log from entry `i` on; it ends where a node dismisses an answer. */
  function AnswerFrom(k: Keccak, to: Bytes, s: State, log: seq<Event>, processed: set<nat>, rounds: seq<Round>,
      i: nat): (State, bool)
    requires |log| == |rounds| && i <= |log| && AllValid(rounds)
    decreases |log| - i
  {
    if i == |log| then (s, false)
    else if log[i].RequestInfo? && log[i].id !in processed then
      var (s1, raised) := EntryStep(k, to, s, log[i], rounds[i]);
      if raised then (s1, true) else AnswerFrom(k, to, s1, log, processed, rounds, i + 1)
    else AnswerFrom(k, to, s, log, processed, rounds, i + 1)
  }

  /** The ids that logged deliveries mention. */
  function AnsweredIds(log: seq<Event>): set<nat> {
    set j | 0 <= j < |log| && log[j].DeliverInfo? :: log[j].id
  }

  function CatchupStep(k: Keccak, to: Bytes, s: State, rounds: seq<Round>): (State, bool)
    requires |rounds| <= |s.log| && AllValid(rounds)
  {
    if Unresponded(s, s.requestCnt) == 0 then (s, false)
    else AnswerFrom(k, to, s, s.log[..|rounds|], AnsweredIds(s.log[..|rounds|]), rounds, 0)
  }

  ghost predicate SucceedUpto(rounds: seq<Round>, n: nat) { forall i :: 0 <= i < |rounds| && i < n ==> rounds[i].Succeeds() }

  /** Every request in the log is settled, but for the given ids. */
  ghost predicate AllSettled(s: State, log: seq<Event>, except: set<nat>) {
    forall i :: 0 <= i < |log| && log[i].RequestInfo? ==> log[i].id in except || Settled(s, log[i].id)
  }

  lemma {:induction false} AllSettledStays(s: State, t: State, log: seq<Event>, except: set<nat>)
    requires AllSettled(s, log, except) && Evolves(s, t)
    ensures AllSettled(t, log, except)
  {
    forall i | 0 <= i < |log| && log[i].RequestInfo? && log[i].id !in except
      ensures Settled(t, log[i].id)
    {
      SettledForGood(s, t, log[i].id);
    }
  }

  lemma {:induction false} EntryStepKeeps(k: Keccak, to: Bytes, s: State, e: Event, round: Round, t: State, raised: bool)
    requires Inv(k, s) && e.RequestInfo? && EntryOk(k, s, e) && round.Valid()
    requires s.requestCnt + NumRequests(round.between) + NumRequests(round.callback.calls) < TWO_64
    requires (t, raised) == EntryStep(k, to, s, e, round)
    ensures Inv(k, t) && Evolves(s, t)
    ensures t.requestCnt <= s.requestCnt + NumRequests(round.between) + NumRequests(round.callback.calls)
    ensures raised <==> !(round.Signs() && |to| == 20)
  {
    var s1 := Run(k, s, round.between);
    RunKeeps(k, s, s1, round.between);
    OutgoingDecodes(k, to, e, round);
    if !raised {
      var d := AnswerTo(k, e, round.error, round.respData);
      ExecKeeps(k, s1, t, CallOf(d, round.gasPrice, round.accepts, round.callback));
      EvolvesTransitive(s, s1, t);
    }
  }

  /** Answering the log entry of a refused request changes nothing but the log. */
  lemma {:induction false} RefusedEntry(k: Keccak, to: Bytes, s: State, e: Event, round: Round, t: State)
    requires Inv(k, s) && e.RequestInfo? && e.id == 0 && round.Valid()
    requires s.requestCnt + NumRequests(round.between) < TWO_64
    requires t == EntryStep(k, to, s, e, round).0
    ensures var s1 := Run(k, s, round.between); t == s1.(log := t.log)
  {
    var s1 := Run(k, s, round.between);
    RunKeeps(k, s, s1, round.between);
    OutgoingDecodes(k, to, e, round);
    if round.Signs() && |to| == 20 {
      AnswerToRefused(k, s1, CallOf(AnswerTo(k, e, round.error, round.respData), round.gasPrice, round.accepts,
          round.callback));
    }
  }

  /** The stored hash of a logged request stays that of its log entry. */
  lemma {:induction false} HashStays(k: Keccak, s: State, s1: State, e: Event)
    requires Inv(k, s) && e.RequestInfo? && e.id != 0 && EntryOk(k, s, e) && Evolves(s, s1)
    ensures 1 <= e.id < s1.requestCnt && e.id < TWO_64
    ensures s1.At(e.id).paramsHash == ParamsHash(k, e.requestType, e.requestData)
  {
  }

  lemma {:induction false} EntryStepSettles(k: Keccak, to: Bytes, s: State, e: Event, round: Round, t: State)
    requires Inv(k, s) && e.RequestInfo? && EntryOk(k, s, e) && round.Valid()
    requires s.requestCnt + NumRequests(round.between) + NumRequests(round.callback.calls) < TWO_64
    requires t == EntryStep(k, to, s, e, round).0 && round.Succeeds() && |to| == 20
    ensures Settled(t, e.id)
  {
    if e.id != 0 {
      var s1 := Run(k, s, round.between);
      RunKeeps(k, s, s1, round.between);
      OutgoingDecodes(k, to, e, round);
      HashStays(k, s, s1, e);
      MinedAnswer(k, s1, t, AnswerTo(k, e, round.error, round.respData), round);
    }
  }

  /** The loop keeps the invariant and moves nothing backwards. */
  lemma {:induction false} AnswerFromKeeps(k: Keccak, to: Bytes, s: State, log: seq<Event>, processed: set<nat>,
                                           rounds: seq<Round>, i: nat, t: State)
    requires Inv(k, s) && |log| == |rounds| && i <= |log| && AllValid(rounds) && log <= s.log
    requires s.requestCnt + RequestsFrom(rounds, i) < TWO_64
    requires t == AnswerFrom(k, to, s, log, processed, rounds, i).0
    ensures Inv(k, t) && Evolves(s, t)
    decreases |log| - i
  {
    if i < |log| {
      if log[i].RequestInfo? && log[i].id !in processed {
        var (s1, raised) := EntryStep(k, to, s, log[i], rounds[i]);
        assert EntryOk(k, s, s.log[i]);
        EntryStepKeeps(k, to, s, log[i], rounds[i], s1, raised);
        if !raised {
          AnswerFromKeeps(k, to, s1, log, processed, rounds, i + 1, t);
          EvolvesTransitive(s, s1, t);
        }
      } else {
        AnswerFromKeeps(k, to, s, log, processed, rounds, i + 1, t);
      }
    }
  }

  /** It settles what it answers up to the first round that fails. */
  lemma {:induction false} AnswerFromSettles(k: Keccak, to: Bytes, s: State, log: seq<Event>, processed: set<nat>,
                                             rounds: seq<Round>, i: nat, t: State, raised: bool, n: nat)
    requires Inv(k, s) && |log| == |rounds| && i <= n <= |log| && AllValid(rounds) && log <= s.log
    requires s.requestCnt + RequestsFrom(rounds, i) < TWO_64
    requires (t, raised) == AnswerFrom(k, to, s, log, processed, rounds, i)
    requires AllSettled(s, log[..i], processed) && SucceedUpto(rounds, n) && |to| == 20
    ensures AllSettled(t, log[..n], processed)
    ensures n == |log| ==> !raised
    decreases n - i
  {
    if i == n {
      AnswerFromKeeps(k, to, s, log, processed, rounds, i, t);
      AllSettledStays(s, t, log[..n], processed);
    } else if log[i].RequestInfo? && log[i].id !in processed {
      var (s1, raised1) := EntryStep(k, to, s, log[i], rounds[i]);
      assert EntryOk(k, s, s.log[i]);
      EntryStepKeeps(k, to, s, log[i], rounds[i], s1, raised1);
      EntryStepSettles(k, to, s, log[i], rounds[i], s1);
      AllSettledStep(s, s1, log, i, processed);
      AnswerFromSettles(k, to, s1, log, processed, rounds, i + 1, t, raised, n);
    } else {
      AllSettledStep(s, s, log, i, processed);
      AnswerFromSettles(k, to, s, log, processed, rounds, i + 1, t, raised, n);
    }
  }

  lemma {:induction false} AllSettledStep(s: State, t: State, log: seq<Event>, n: nat, except: set<nat>)
    requires n < |log| && AllSettled(s, log[..n], except) && Evolves(s, t)
    requires log[n].RequestInfo? ==> log[n].id in except || Settled(t, log[n].id)
    ensures AllSettled(t, log[..n + 1], except)
  {
    AllSettledStays(s, t, log[..n], except);
    assert log[..n + 1] == log[..n] + [log[n]];
  }

  // ---- what catching up does not touch ----

  /** Nobody in these calls cancels the id, and SGX does not deliver it. */
  predicate Spare(cs: Calls, id: nat)
    decreases cs, 0
  {
    match cs
    case Done => true
    case Then(c, rest) => Spares(c, id) && Spare(rest, id)
  }

  predicate Spares(c: Call, id: nat)
    decreases c, 1
  {
    match c
    case DoRequest(_, _, _, _, _, _, _, _) => true
    case DoCancel(_, cancelled, _) => cancelled != id
    case DoDeliver(sender, delivered, _, _, _, _, _, callback) =>
      (sender != SGX_ADDRESS || delivered != id) && Spare(callback.calls, id)
  }

  lemma {:induction false} SparedCall(k: Keccak, s: State, t: State, c: Call, id: nat)
    requires Inv(k, s) && s.requestCnt + RequestsOf(c) < TWO_64 && t == Exec(k, s, c).0
    requires id < s.requestCnt && Spares(c, id)
    ensures t.At(id) == s.At(id)
    decreases c, 1
  {
    match c
    case DoRequest(_, _, _, _, _, _, _, _) =>
    case DoCancel(_, _, _) =>
    case DoDeliver(_, _, _, _, _, _, _, callback) =>
      SparedSettlement(s, c, id);
      if Settle(s, c).Pending? {
        var s1 := Settle(s, c).state;
        SettleKeeps(k, s, s1, c);
        SparedRun(k, s1, Run(k, s1, callback.calls), callback.calls, id);
      }
  }

  lemma {:induction false} SparedSettlement(s: State, c: Call, id: nat)
    requires c.DoDeliver? && (c.sender != SGX_ADDRESS || c.id != id)
    ensures !Settle(s, c).Aborted? ==> Settle(s, c).state.At(id) == s.At(id)
  {
  }

  lemma {:induction false} SparedRun(k: Keccak, s: State, t: State, cs: Calls, id: nat)
    requires Inv(k, s) && s.requestCnt + NumRequests(cs) < TWO_64 && t == Run(k, s, cs)
    requires id < s.requestCnt && Spare(cs, id)
    ensures t.At(id) == s.At(id)
    decreases cs, 0
  {
    match cs
    case Done =>
    case Then(c, rest) =>
      var s1 := Exec(k, s, c).0;
      ExecKeeps(k, s, s1, c);
      SparedCall(k, s, s1, c, id);
      SparedRun(k, s1, t, rest, id);
  }

  /** While the relay catches up, the outside neither cancels nor, in the name of SGX, delivers the id. */
  ghost predicate OthersSpare(rounds: seq<Round>, id: nat) {
    forall i :: 0 <= i < |rounds| ==> Spare(rounds[i].between, id) && Spare(rounds[i].callback.calls, id)
  }

  lemma {:induction false} SparedEntry(k: Keccak, to: Bytes, s: State, e: Event, round: Round, t: State, id: nat)
    requires Inv(k, s) && e.RequestInfo? && EntryOk(k, s, e) && round.Valid()
    requires s.requestCnt + NumRequests(round.between) + NumRequests(round.callback.calls) < TWO_64
    requires t == EntryStep(k, to, s, e, round).0
    requires id < s.requestCnt && e.id != id && Spare(round.between, id) && Spare(round.callback.calls, id)
    ensures t.At(id) == s.At(id)
  {
    var s1 := Run(k, s, round.between);
    RunKeeps(k, s, s1, round.between);
    SparedRun(k, s, s1, round.between, id);
    OutgoingDecodes(k, to, e, round);
    if round.Signs() && |to| == 20 {
      var d := AnswerTo(k, e, round.error, round.respData);
      SparedCall(k, s1, t, CallOf(d, round.gasPrice, round.accepts, round.callback), id);
    }
  }

  /** The loop leaves an id it skips as it was. */
  lemma {:induction false} SkippedStays(k: Keccak, to: Bytes, s: State, log: seq<Event>, processed: set<nat>,
      rounds: seq<Round>, i: nat,
                      t: State, id: nat)
    requires Inv(k, s) && |log| == |rounds| && i <= |log| && AllValid(rounds) && log <= s.log
    requires s.requestCnt + RequestsFrom(rounds, i) < TWO_64
    requires t == AnswerFrom(k, to, s, log, processed, rounds, i).0
    requires id in processed && id < s.requestCnt && OthersSpare(rounds, id)
    ensures t.At(id) == s.At(id)
    decreases |log| - i
  {
    if i < |log| {
      if log[i].RequestInfo? && log[i].id !in processed {
        var (s1, raised) := EntryStep(k, to, s, log[i], rounds[i]);
        assert EntryOk(k, s, s.log[i]);
        EntryStepKeeps(k, to, s, log[i], rounds[i], s1, raised);
        SparedEntry(k, to, s, log[i], rounds[i], s1, id);
        if !raised {
          SkippedStays(k, to, s1, log, processed, rounds, i + 1, t, id);
        }
      } else {
        SkippedStays(k, to, s, log, processed, rounds, i + 1, t, id);
      }
    }
  }

  // ---- what catching up achieves ----

  lemma {:induction false} AllSettledCount(s: State, n: nat)
    ensures Unresponded(s, n) == 0 <==> forall id :: 1 <= id < n ==> Settled(s, id)
  {
    if n > 1 {
      AllSettledCount(s, n - 1);
    }
  }

  /** When no stored request is unsettled, catching up sends nothing. */
  lemma {:induction false} CatchupIdle(k: Keccak, to: Bytes, s: State, rounds: seq<Round>)
    requires |rounds| <= |s.log| && AllValid(rounds)
    requires forall id :: 1 <= id < s.requestCnt ==> Settled(s, id)
    ensures CatchupStep(k, to, s, rounds) == (s, false)
  {
    AllSettledCount(s, s.requestCnt);
  }

  /** The loop ends with the first answer that is dismissed: of that round, only the others' calls
      are mined, and of the later ones nothing. */
  lemma {:induction false} DismissalEnds(k: Keccak, to: Bytes, s: State, log: seq<Event>, processed: set<nat>,
                                         rounds: seq<Round>, i: nat, n: nat)
    requires |log| == |rounds| && i <= n < |log| && AllValid(rounds) && |to| == 20
    requires forall j :: i <= j < n ==> rounds[j].Signs()
    requires log[n].RequestInfo? && log[n].id !in processed && !rounds[n].Signs()
    ensures AnswerFrom(k, to, s, log, processed, rounds, i)
         == (Run(k, AnswerFrom(k, to, s, log[..n], processed, rounds[..n], i).0, rounds[n].between), true)
    decreases n - i
  {
    if i == n {
      OutgoingDecodes(k, to, log[n], rounds[n]);
    } else {
      assert log[..n][i] == log[i] && rounds[..n][i] == rounds[i];
      if log[i].RequestInfo? && log[i].id !in processed {
        OutgoingDecodes(k, to, log[i], rounds[i]);
        DismissalEnds(k, to, EntryStep(k, to, s, log[i], rounds[i]).0, log, processed, rounds, i + 1, n);
      } else {
        DismissalEnds(k, to, s, log, processed, rounds, i + 1, n);
      }
    }
  }

  // ---- which response a request gets ----

  lemma {:induction false} AcceptedPrefix(log: seq<Event>, n: nat)
    requires n <= |log|
    ensures AcceptedIds(log[..n]) <= AcceptedIds(log)
  {
    AcceptedConcat(log[..n], log[n..]);
    assert log == log[..n] + log[n..];
  }

  lemma {:induction false} AcceptedGrows(log: seq<Event>, m: nat, n: nat)
    requires m <= n <= |log|
    ensures |AcceptedIds(log[..m])| <= |AcceptedIds(log[..n])|
  {
    AcceptedConcat(log[..m], log[m..n]);
    assert log[..n] == log[..m] + log[m..n];
  }

  /** An accepted request's id is one more than the number of those logged before it. */
  lemma {:induction false} IdPosition(log: seq<Event>, i: nat)
    requires Consecutive(AcceptedIds(log)) && i < |log| && log[i].RequestInfo? && log[i].id != 0
    ensures log[i].id == |AcceptedIds(log[..i])| + 1 == |AcceptedIds(log[..i + 1])|
  {
    assert log[..i + 1][..i] == log[..i];
    assert AcceptedIds(log[..i + 1]) == AcceptedIds(log[..i]) + [log[i].id];
    AcceptedPrefix(log, i + 1);
    assert AcceptedIds(log)[|AcceptedIds(log[..i])|] == log[i].id;
  }

  /** An id is logged as accepted only once. */
  lemma {:induction false} LoggedOnce(log: seq<Event>, i: nat, j: nat)
    requires Consecutive(AcceptedIds(log)) && i < j < |log|
    requires log[i].RequestInfo? && log[j].RequestInfo? && log[i].id != 0 && log[j].id != 0
    ensures log[i].id != log[j].id
  {
    IdPosition(log, i);
    IdPosition(log, j);
    AcceptedGrows(log, i + 1, j);
  }

  /** The state of a request that was delivered with this response while it was live. */
  ghost predicate AnsweredWith(s: State, t: State, id: nat, round: Round)
    requires round.Valid()
  {
    var r := s.At(id);
    && StatusOf(t, id) == Delivered
    && History(t.effects, id) == [PaidIn(id, r.requester, r.fee), PaidOut(id, SGX_ADDRESS, r.fee),
                                  CalledBack(id, r.callbackAddr, r.callbackFID, round.error,
                                             if round.error == 0 then round.respData[..32] else Zeros(32))]
  }

  /** A round for a live request that nobody else touches delivers that round's response. */
  lemma {:induction false} EntryAnswers(k: Keccak, to: Bytes, s: State, e: Event, round: Round, t: State)
    requires Inv(k, s) && e.RequestInfo? && EntryOk(k, s, e) && round.Valid() && StatusOf(s, e.id) == Live
    requires s.requestCnt + NumRequests(round.between) + NumRequests(round.callback.calls) < TWO_64
    requires t == EntryStep(k, to, s, e, round).0 && round.Succeeds() && |to| == 20 && Spare(round.between, e.id)
    ensures AnsweredWith(s, t, e.id, round)
  {
    var s1 := Run(k, s, round.between);
    RunKeeps(k, s, s1, round.between);
    SparedRun(k, s, s1, round.between, e.id);
    OutgoingDecodes(k, to, e, round);
    HashStays(k, s, s1, e);
    var c := CallOf(AnswerTo(k, e, round.error, round.respData), round.gasPrice, true, round.callback);
    DeliverDelivers(k, s1, t, c);
  }

  lemma {:induction false} AnsweredStays(k: Keccak, s: State, t: State, u: State, id: nat, round: Round)
    requires round.Valid() && AnsweredWith(s, t, id, round) && Inv(k, u) && Evolves(t, u)
    ensures AnsweredWith(s, u, id, round)
  {
    DeliveredStays(k, t, u, id);
  }

  lemma {:induction false} AnswerFromAnswers(k: Keccak, to: Bytes, s0: State, s: State, log: seq<Event>, processed: set<nat>,
                                             rounds: seq<Round>, i: nat, t: State, n: nat)
    requires Inv(k, s) && |log| == |rounds| && i <= n < |log| && AllValid(rounds) && log <= s.log
    requires s.requestCnt + RequestsFrom(rounds, i) < TWO_64
    requires t == AnswerFrom(k, to, s, log, processed, rounds, i).0
    requires SucceedUpto(rounds, n + 1) && |to| == 20
    requires log[n].RequestInfo? && log[n].id !in processed && OthersSpare(rounds, log[n].id)
    requires StatusOf(s, log[n].id) == Live && s.At(log[n].id) == s0.At(log[n].id)
    ensures AnsweredWith(s0, t, log[n].id, rounds[n])
    decreases n - i
  {
    if log[i].RequestInfo? && log[i].id !in processed {
      var (s1, raised) := EntryStep(k, to, s, log[i], rounds[i]);
      assert EntryOk(k, s, s.log[i]);
      EntryStepKeeps(k, to, s, log[i], rounds[i], s1, raised);
      if i == n {
        EntryAnswers(k, to, s, log[n], rounds[n], s1);
        AnswerFromKeeps(k, to, s1, log, processed, rounds, n + 1, t);
        AnsweredStays(k, s0, s1, t, log[n].id, rounds[n]);
      } else {
        LoggedApart(k, s, log, i, n);
        SparedEntry(k, to, s, log[i], rounds[i], s1, log[n].id);
        AnswerFromAnswers(k, to, s0, s1, log, processed, rounds, i + 1, t, n);
      }
    } else {
      AnswerFromAnswers(k, to, s0, s, log, processed, rounds, i + 1, t, n);
    }
  }

  lemma {:induction false} LoggedApart(k: Keccak, s: State, log: seq<Event>, i: nat, n: nat)
    requires Inv(k, s) && log <= s.log && i < n < |log| && log[i].RequestInfo? && log[n].RequestInfo? && log[n].id != 0
    ensures log[i].id != log[n].id
  {
    assert log[i] == s.log[i] && log[n] == s.log[n];
    if log[i].id != 0 {
      LoggedOnce(s.log, i, n);
    }
  }

  /** Every live request in the snapshot, if no delivery was logged for it and others leave it alone,
      is called back once, with the response of its own round, if the rounds up to that one succeed. */
  lemma {:induction false} CatchupAnswers(k: Keccak, to: Bytes, s: State, rounds: seq<Round>, t: State, n: nat)
    requires Inv(k, s) && |rounds| <= |s.log| && AllValid(rounds) && s.requestCnt + RequestsFrom(rounds, 0) < TWO_64
    requires t == CatchupStep(k, to, s, rounds).0
    requires n < |rounds| && SucceedUpto(rounds, n + 1) && |to| == 20
    requires s.log[n].RequestInfo? && s.log[n].id !in AnsweredIds(s.log[..|rounds|])
    requires OthersSpare(rounds, s.log[n].id) && StatusOf(s, s.log[n].id) == Live
    ensures AnsweredWith(s, t, s.log[n].id, rounds[n])
  {
    AllSettledCount(s, s.requestCnt);
    assert !Settled(s, s.log[n].id);
    AnswerFromAnswers(k, to, s, s, s.log[..|rounds|], AnsweredIds(s.log[..|rounds|]), rounds, 0, t, n);
  }

  /** An id for which a delivery is logged stays as it was, however the rounds go. */
  lemma {:induction false} CatchupSkips(k: Keccak, to: Bytes, s: State, rounds: seq<Round>, t: State, id: nat)
    requires Inv(k, s) && |rounds| <= |s.log| && AllValid(rounds) && s.requestCnt + RequestsFrom(rounds, 0) < TWO_64
    requires t == CatchupStep(k, to, s, rounds).0
    requires id in AnsweredIds(s.log[..|rounds|]) && id < s.requestCnt && OthersSpare(rounds, id)
    ensures t.At(id) == s.At(id) && Evolves(s, t)
  {
    if Unresponded(s, s.requestCnt) > 0 {
      AnswerFromKeeps(k, to, s, s.log[..|rounds|], AnsweredIds(s.log[..|rounds|]), rounds, 0, t);
      SkippedStays(k, to, s, s.log[..|rounds|], AnsweredIds(s.log[..|rounds|]), rounds, 0, t, id);
    }
  }

  /** If the first `n` rounds succeed, each of the first `n` requests is settled, but for those for
      which a delivery was logged. */
  lemma {:induction false} CatchupSettles(k: Keccak, to: Bytes, s: State, rounds: seq<Round>, t: State, raised: bool, n: nat)
    requires Inv(k, s) && |rounds| <= |s.log| && AllValid(rounds) && s.requestCnt + RequestsFrom(rounds, 0) < TWO_64
    requires (t, raised) == CatchupStep(k, to, s, rounds)
    requires n <= |rounds| && SucceedUpto(rounds, n) && |to| == 20
    ensures Inv(k, t) && Evolves(s, t)
    ensures AllSettled(t, s.log[..n], AnsweredIds(s.log[..|rounds|]))
    ensures n == |rounds| ==> !raised
  {
    var log := s.log[..|rounds|];
    assert log[..n] == s.log[..n];
    if Unresponded(s, s.requestCnt) == 0 {
      NothingToDo(k, s, s.log[..n], AnsweredIds(log));
    } else {
      AnswerFromKeeps(k, to, s, log, AnsweredIds(log), rounds, 0, t);
      AnswerFromSettles(k, to, s, log, AnsweredIds(log), rounds, 0, t, raised, n);
    }
  }

  /** Whatever the log has both a request and a delivery for is settled. */
  ghost predicate ContestedSettled(s: State, log: seq<Event>) {
    forall i :: 0 <= i < |log| && log[i].RequestInfo? && log[i].id in AnsweredIds(log) ==> Settled(s, log[i].id)
  }

  /** When all rounds succeed, every request in the snapshot ends settled if and only if those with a
      logged delivery were settled before, provided that others leave these alone meanwhile. */
  lemma {:induction false} CatchupIff(k: Keccak, to: Bytes, s: State, rounds: seq<Round>, t: State)
    requires Inv(k, s) && |rounds| <= |s.log| && AllValid(rounds) && s.requestCnt + RequestsFrom(rounds, 0) < TWO_64
    requires t == CatchupStep(k, to, s, rounds).0
    requires SucceedUpto(rounds, |rounds|) && |to| == 20
    ensures ContestedSettled(s, s.log[..|rounds|]) ==> AllSettled(t, s.log[..|rounds|], {})
    ensures (forall id :: id in AnsweredIds(s.log[..|rounds|]) ==> OthersSpare(rounds, id)) ==>
      (AllSettled(t, s.log[..|rounds|], {}) <==> ContestedSettled(s, s.log[..|rounds|]))
  {
    var log := s.log[..|rounds|];
    CatchupSettles(k, to, s, rounds, t, CatchupStep(k, to, s, rounds).1, |rounds|);
    forall i | 0 <= i < |log| && log[i].RequestInfo?
      ensures Settled(s, log[i].id) ==> Settled(t, log[i].id)
      ensures log[i].id !in AnsweredIds(log) ==> Settled(t, log[i].id)
      ensures log[i].id in AnsweredIds(log) && OthersSpare(rounds, log[i].id) ==> (Settled(t, log[i].id) <==> Settled(s, log[i].id))
    {
      assert EntryOk(k, s, s.log[i]);
      if Settled(s, log[i].id) {
        SettledForGood(s, t, log[i].id);
      } else if log[i].id in AnsweredIds(log) && OthersSpare(rounds, log[i].id) {
        CatchupSkips(k, to, s, rounds, t, log[i].id);
      }
    }
  }

  /** After any run from creation in which SGX alone delivers, and only what was logged, catching up
      settles every request in the snapshot if its rounds succeed. */
  lemma {:induction false} HonestCatchup(k: Keccak, creator: Caller, cs: Calls, to: Bytes, s: State,
      rounds: seq<Round>, t: State)
    requires Honest(k, Init(creator), cs) && 1 + NumRequests(cs) < TWO_64 && s == Run(k, Init(creator), cs)
    requires |rounds| <= |s.log| && AllValid(rounds) && s.requestCnt + RequestsFrom(rounds, 0) < TWO_64
    requires t == CatchupStep(k, to, s, rounds).0
    requires SucceedUpto(rounds, |rounds|) && |to| == 20
    ensures AllSettled(t, s.log[..|rounds|], {})
  {
    HonestFromCreation(k, creator, s, cs);
    AnsweredContested(s, s.log[..|rounds|]);
    CatchupIff(k, to, s, rounds, t);
  }

  lemma {:induction false} AnsweredContested(s: State, log: seq<Event>)
    requires AnsweredSettled(s, s.log) && log <= s.log
    ensures ContestedSettled(s, log)
  {
    forall i | 0 <= i < |log| && log[i].RequestInfo? && log[i].id in AnsweredIds(log)
      ensures Settled(s, log[i].id)
    {
      var j :| 0 <= j < |log| && log[j].DeliverInfo? && log[j].id == log[i].id;
      assert s.log[j] == log[j];
    }
  }

  /** A request that is accepted, then delivered by someone else: catching up on the whole log leaves
      it live, even when every round succeeds. */
  lemma {:induction false} ForeignDeliveryHides(k: Keccak, to: Bytes, s: State, request: Call, s1: State,
      foreign: Call, s2: State,
                              rounds: seq<Round>, t: State)
    requires Inv(k, s) && request.DoRequest? && MIN_FEE <= request.value <= MAX_FEE && s1 == Exec(k, s, request).0
    requires foreign.DoDeliver? && foreign.sender != SGX_ADDRESS && foreign.id == s.requestCnt && s2 == Exec(k, s1, foreign).0
    requires |rounds| == |s2.log| && AllValid(rounds) && s.requestCnt + 1 + RequestsFrom(rounds, 0) < TWO_64
    requires OthersSpare(rounds, foreign.id) && t == CatchupStep(k, to, s2, rounds).0
    ensures StatusOf(t, foreign.id) == Live
  {
    AcceptedLive(k, s, s1, request);
    ForeignLogged(k, s1, foreign, s2);
    HiddenStays(k, to, s2, rounds, t, foreign.id);
  }

  /** A live request with a logged delivery stays live. */
  lemma {:induction false} HiddenStays(k: Keccak, to: Bytes, s: State, rounds: seq<Round>, t: State, id: nat)
    requires Inv(k, s) && StatusOf(s, id) == Live && id in AnsweredIds(s.log)
    requires |rounds| == |s.log| && AllValid(rounds) && s.requestCnt + RequestsFrom(rounds, 0) < TWO_64
    requires OthersSpare(rounds, id) && t == CatchupStep(k, to, s, rounds).0
    ensures StatusOf(t, id) == Live
  {
    assert s.log[..|rounds|] == s.log;
    CatchupSkips(k, to, s, rounds, t, id);
  }

  lemma {:induction false} AcceptedLive(k: Keccak, s: State, t: State, c: Call)
    requires Inv(k, s) && s.requestCnt + 1 < TWO_64 && c.DoRequest? && MIN_FEE <= c.value <= MAX_FEE
    requires t == Exec(k, s, c).0
    ensures Inv(k, t) && t.requestCnt == s.requestCnt + 1 && StatusOf(t, s.requestCnt) == Live
  {
    RequestAccepted(k, s, t, c);
    RequestKeeps(k, s, c);
  }

  lemma {:induction false} ForeignLogged(k: Keccak, s: State, foreign: Call, t: State)
    requires Inv(k, s) && foreign.DoDeliver? && foreign.sender != SGX_ADDRESS && t == Exec(k, s, foreign).0
    ensures Inv(k, t) && t.requestCnt == s.requestCnt && t.At(foreign.id) == s.At(foreign.id)
    ensures foreign.id in AnsweredIds(t.log)
  {
    DeliverRefused(k, s, t, foreign);
    SettleKeeps(k, s, t, foreign);
    assert t.log[|s.log|].DeliverInfo? && t.log[|s.log|].id == foreign.id;
  }

  lemma {:induction false} NothingToDo(k: Keccak, s: State, log: seq<Event>, except: set<nat>)
    requires Inv(k, s) && log <= s.log && Unresponded(s, s.requestCnt) == 0
    ensures AllSettled(s, log, except)
  {
    forall i | 0 <= i < |log| && log[i].RequestInfo?
      ensures Settled(s, log[i].id)
    {
      assert EntryOk(k, s, s.log[i]);
      if log[i].id != 0 {
        NoneUnresponded(s, s.requestCnt, log[i].id);
      }
    }
  }

  lemma {:induction false} AnsweredIdsAppend(log: seq<Event>, e: Event)
    ensures AnsweredIds(log + [e]) == AnsweredIds(log) + if e.DeliverInfo? then {e.id} else {}
  {
    var more := log + [e];
    forall id
      ensures id in AnsweredIds(more) <==> id in AnsweredIds(log) || (e.DeliverInfo? && id == e.id)
    {
      if id in AnsweredIds(log) {
        var j :| 0 <= j < |log| && log[j].DeliverInfo? && log[j].id == id;
        assert more[j] == log[j];
      }
      if e.DeliverInfo? && id == e.id {
        assert more[|log|] == e;
      }
    }
  }

  // ---- the relay itself ----

  class TCRelay {
    const chain: TownCrier
    const contractAddr: Bytes

    constructor (chain: TownCrier, contractAddr: Bytes)
      ensures this.chain == chain && this.contractAddr == contractAddr
    {
      this.chain := chain;
      this.contractAddr := contractAddr;
    }

    /** Has the enclave answer one log entry; an enclave error shows as an empty transaction. */
    method HandleRequestEvent(e: Event, round: Round) returns (raw: Bytes)
      requires e.RequestInfo? && round.Valid()
      ensures raw == Outgoing(chain.keccak, contractAddr, e, round)
      ensures var word := if round.error == 0 then round.respData[..32] else Zeros(32);
        var hash := chain.keccak([e.requestType] + Flatten(e.requestData));
        DecodeAnswer(chain.keccak, contractAddr, raw)
        == if round.Signs() && |contractAddr| == 20 then Some(DeliverArgs(WrapUint64(e.id), hash, round.error, word)) else None
      ensures round.signature.Some? && |contractAddr| == 20 ==> forall f :: ReadsAs(raw, f) ==>
        Envelope(chain.keccak, contractAddr, round.nonce, f) && Some(Signature(f.v, f.r, f.s)) == round.signature
    {
      if round.signature.Some? && |contractAddr| == 20 {
        var d := AnswerTo(chain.keccak, e, round.error, round.respData);
        ReadBack(chain.keccak, _ => round.signature, contractAddr, round.nonce, d, round.signature.value, true);
      }
      OutgoingDecodes(chain.keccak, contractAddr, e, round);
      var result := FormTransaction(chain.keccak, _ => round.signature, contractAddr, round.nonce,
          WrapUint64(e.id), e.requestType,
                                    Flatten(e.requestData), round.error, round.respData, true);
      match result
      case Success(tx) => return tx;
      case Failure(_) => return [];
    }

    /** Sends a transaction and waits until it is mined; raises if a node dismisses it. */
    method SendResponseCheck(raw: Bytes, round: Round) returns (raised: bool)
      requires chain.Valid() && chain.requestCnt + NumRequests(round.callback.calls) < TWO_64
      modifies chain
      ensures chain.Valid() && Evolves(old(chain.Snapshot()), chain.Snapshot())
      ensures chain.requestCnt <= old(chain.requestCnt) + NumRequests(round.callback.calls)
      ensures (chain.Snapshot(), raised) == Sent(chain.keccak, contractAddr, old(chain.Snapshot()), raw, round)
    {
      match DecodeAnswer(chain.keccak, contractAddr, raw)
      case None =>
        return true;
      case Some(d) =>
        var outcome := chain.Deliver(SGX_ADDRESS, d.id, d.paramsHash, d.error, d.respData,
                                     round.gasPrice, round.accepts, round.callback);
        return false;
    }

    /** One round of the loop: others' calls are mined, then the answer. */
    method HandleEntry(e: Event, round: Round) returns (raised: bool)
      requires chain.Valid() && round.Valid() && e.RequestInfo? && EntryOk(chain.keccak, chain.Snapshot(), e)
      requires chain.requestCnt + NumRequests(round.between) + NumRequests(round.callback.calls) < TWO_64
      modifies chain
      ensures chain.Valid() && Evolves(old(chain.Snapshot()), chain.Snapshot())
      ensures chain.requestCnt <= old(chain.requestCnt) + NumRequests(round.between) + NumRequests(round.callback.calls)
      ensures (chain.Snapshot(), raised) == EntryStep(chain.keccak, contractAddr, old(chain.Snapshot()), e, round)
      ensures raised <==> !(round.Signs() && |contractAddr| == 20)
      ensures round.Succeeds() && |contractAddr| == 20 ==> Settled(chain.Snapshot(), e.id)
    {
      ghost var s := chain.Snapshot();
      chain.Execute(round.between);
      var raw := HandleRequestEvent(e, round);
      raised := SendResponseCheck(raw, round);
      EntryStepKeeps(chain.keccak, contractAddr, s, e, round, chain.Snapshot(), raised);
      if round.Succeeds() && |contractAddr| == 20 {
        EntryStepSettles(chain.keccak, contractAddr, s, e, round, chain.Snapshot());
      }
    }

    /** Collects the ids of logged deliveries. */
    method ReadAnswered(snapshot: seq<Event>) returns (processed: set<nat>)
      ensures processed == AnsweredIds(snapshot)
    {
      processed := {};
      for i := 0 to |snapshot|
        invariant processed == AnsweredIds(snapshot[..i])
      {
        assert snapshot[..i + 1] == snapshot[..i] + [snapshot[i]];
        AnsweredIdsAppend(snapshot[..i], snapshot[i]);
        if snapshot[i].DeliverInfo? {
          processed := processed + {snapshot[i].id};
        }
      }
      assert snapshot[..|snapshot|] == snapshot;
    }

    /** Answers every request among the log's first entries, one round each, that no logged delivery
        mentions. */
    method Catchup(rounds: seq<Round>) returns (raised: bool)
      requires chain.Valid() && |rounds| <= |chain.log| && AllValid(rounds)
      requires chain.requestCnt + RequestsFrom(rounds, 0) < TWO_64
      modifies chain
      ensures chain.Valid() && Evolves(old(chain.Snapshot()), chain.Snapshot())
      ensures (chain.Snapshot(), raised) == CatchupStep(chain.keccak, contractAddr, old(chain.Snapshot()), rounds)
      ensures Unresponded(chain.Snapshot(), old(chain.requestCnt)) <= Unresponded(old(chain.Snapshot()), old(chain.requestCnt))
    {
      ghost var s := chain.Snapshot();
      var snapshot := chain.log[..|rounds|];
      var unrespondedCnt := Unresponded(chain.Snapshot(), chain.requestCnt);
      if unrespondedCnt == 0 {
        return false;
      }
      var processed := ReadAnswered(snapshot);
      raised := AnswerAll(snapshot, processed, rounds);
      UnrespondedFalls(s, chain.Snapshot(), s.requestCnt);
    }

    /** The loop over the log. */
    method AnswerAll(snapshot: seq<Event>, processed: set<nat>, rounds: seq<Round>) returns (raised: bool)
      requires chain.Valid() && |snapshot| == |rounds| && snapshot <= chain.log && AllValid(rounds)
      requires chain.requestCnt + RequestsFrom(rounds, 0) < TWO_64
      modifies chain
      ensures chain.Valid() && Evolves(old(chain.Snapshot()), chain.Snapshot())
      ensures (chain.Snapshot(), raised)
           == AnswerFrom(chain.keccak, contractAddr, old(chain.Snapshot()), snapshot, processed, rounds, 0)
    {
      ghost var s := chain.Snapshot();
      for i := 0 to |snapshot|
        invariant chain.Valid() && Evolves(s, chain.Snapshot())
        invariant chain.requestCnt + RequestsFrom(rounds, i) < TWO_64
        invariant AnswerFrom(chain.keccak, contractAddr, chain.Snapshot(), snapshot, processed, rounds, i)
               == AnswerFrom(chain.keccak, contractAddr, s, snapshot, processed, rounds, 0)
      {
        ghost var before := chain.Snapshot();
        EntryStays(chain.keccak, s, before, s.log[i]);
        raised := AnswerUnlessProcessed(snapshot[i], processed, rounds[i]);
        EvolvesTransitive(s, before, chain.Snapshot());
        if raised {
          return true;
        }
      }
      return false;
    }

    /** The loop's body. */
    method AnswerUnlessProcessed(e: Event, processed: set<nat>, round: Round) returns (raised: bool)
      requires chain.Valid() && round.Valid() && EntryOk(chain.keccak, chain.Snapshot(), e)
      requires chain.requestCnt + NumRequests(round.between) + NumRequests(round.callback.calls) < TWO_64
      modifies chain
      ensures chain.Valid() && Evolves(old(chain.Snapshot()), chain.Snapshot())
      ensures chain.requestCnt <= old(chain.requestCnt) + NumRequests(round.between) + NumRequests(round.callback.calls)
      ensures (chain.Snapshot(), raised) == if e.RequestInfo? && e.id !in processed
        then EntryStep(chain.keccak, contractAddr, old(chain.Snapshot()), e, round) else (old(chain.Snapshot()), false)
    {
      if e.RequestInfo? && e.id !in processed {
        raised := HandleEntry(e, round);
        return;
      }
      return false;
    }
  }
}
