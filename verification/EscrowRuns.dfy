/** What every run of the escrow keeps, with calls nested in callbacks to any depth. */
module EscrowRuns {
  import opened ByteStrings
  import opened Wrappers
  import opened Escrow

  // ---- the invariant ----

  /** What the contract still holds on account of a request. */
  function Owed(fee: nat): nat {
    if fee == CANCELLED_FEE_FLAG then CANCELLATION_FEE
    else if fee == DELIVERED_FEE_FLAG || fee == TC_CANCELLED_FLAG then 0
    else fee
  }

  /** The sum of what is owed to ids 1 to n - 1. */
  function OwedTotal(s: State, n: nat): nat {
    if n <= 1 then 0 else OwedTotal(s, n - 1) + Owed(s.At(n - 1).fee)
  }

  /** The effects on account of one id, in order. */
  function History(effects: seq<Effect>, id: nat): seq<Effect> {
    if effects == [] then []
    else
      var front := History(effects[..|effects| - 1], id);
      var last := effects[|effects| - 1];
      if last.id == id then front + [last] else front
  }

  /** The only histories a request can have, by its fee field. */
  ghost predicate Lawful(r: Request, id: nat, h: seq<Effect>) {
    && |h| >= 1 && h[0].PaidIn? && h[0] == PaidIn(id, r.requester, h[0].amount)
    && MIN_FEE <= h[0].amount <= MAX_FEE
    && var paid := h[0].amount;
      || (r.fee == paid && h == [h[0]])
      || (r.fee == CANCELLED_FEE_FLAG && h == [h[0], PaidOut(id, r.requester, paid - CANCELLATION_FEE)])
      || (r.fee == TC_CANCELLED_FLAG && |h| == 2 && h[1].PaidOut? && h[1] == PaidOut(id, h[1].to, paid)
          && r.requester == SGX_ADDRESS && h[1].to != SGX_ADDRESS)
      || (r.fee == DELIVERED_FEE_FLAG && DeliveredLive(r, id, h))
      || (r.fee == DELIVERED_FEE_FLAG && DeliveredCancelled(r, id, h))
  }

  /** The whole fee went to SGX and the callback was made once. */
  ghost predicate DeliveredLive(r: Request, id: nat, h: seq<Effect>) {
    && |h| == 3 && h[0].PaidIn? && h[1] == PaidOut(id, SGX_ADDRESS, h[0].amount)
    && h[2].CalledBack? && h[2].addr == r.callbackAddr && h[2].fid == r.callbackFID
  }

  /** The fee went to the requester but for the cancellation fee, which went to SGX; no callback. */
  ghost predicate DeliveredCancelled(r: Request, id: nat, h: seq<Effect>) {
    && |h| == 3 && h[0].PaidIn? && h[0].amount >= CANCELLATION_FEE
    && h[1] == PaidOut(id, r.requester, h[0].amount - CANCELLATION_FEE)
    && h[2] == PaidOut(id, SGX_ADDRESS, CANCELLATION_FEE)
  }

  ghost predicate Domain(s: State) {
    && 1 <= s.requestCnt < TWO_64
    && (forall id :: id in s.requests <==> 0 <= id < s.requestCnt)
    && s.At(0).fee == 0 && s.At(0).requester != 0
  }

  ghost predicate Funded(s: State) { s.balance == OwedTotal(s, s.requestCnt) }

  ghost predicate Histories(s: State) {
    && (forall id :: 1 <= id < s.requestCnt ==> s.At(id).requester != 0 && Lawful(s.At(id), id, History(s.effects, id)))
    && (forall id :: s.requestCnt <= id ==> History(s.effects, id) == [])
  }

  function TotalIn(effects: seq<Effect>): nat {
    if effects == [] then 0
    else TotalIn(effects[..|effects| - 1]) + if effects[|effects| - 1].PaidIn? then effects[|effects| - 1].amount else 0
  }

  function TotalOut(effects: seq<Effect>): nat {
    if effects == [] then 0
    else TotalOut(effects[..|effects| - 1]) + if effects[|effects| - 1].PaidOut? then effects[|effects| - 1].amount else 0
  }

  ghost predicate Balanced(s: State) { s.balance + TotalOut(s.effects) == TotalIn(s.effects) }

  /** The ids of the accepted requests in the order they were logged. */
  function AcceptedIds(log: seq<Event>): seq<nat> {
    if log == [] then []
    else
      var front := AcceptedIds(log[..|log| - 1]);
      var last := log[|log| - 1];
      if last.RequestInfo? && last.id != 0 then front + [last.id] else front
  }

  /** A logged request is either refused or stored as logged, with the hash of the logged
      parameters, and what the log says was paid was paid. */
  ghost predicate EntryOk(k: Keccak, s: State, e: Event) {
    e.RequestInfo? && e.id != 0 ==>
      && 1 <= e.id < s.requestCnt
      && s.At(e.id).paramsHash == e.hash == ParamsHash(k, e.requestType, e.requestData)
      && s.At(e.id).requester == e.requester && s.At(e.id).callbackAddr == e.callbackAddr
      && [PaidIn(e.id, e.requester, e.fee)] <= History(s.effects, e.id)
  }

  ghost predicate Logged(k: Keccak, s: State) {
    && (forall i :: 0 <= i < |s.log| ==> EntryOk(k, s, s.log[i]))
    && Consecutive(AcceptedIds(s.log)) && |AcceptedIds(s.log)| + 1 == s.requestCnt
  }

  /** 1, 2, 3, ... */
  ghost predicate Consecutive(ids: seq<nat>) { forall i :: 0 <= i < |ids| ==> ids[i] == i + 1 }

  ghost predicate Inv(k: Keccak, s: State) {
    Domain(s) && Funded(s) && Histories(s) && Balanced(s) && Logged(k, s)
  }

  // ---- how a state may change ----

  datatype Status = NotYet | Live | Cancelled | SgxCancelled | Delivered

  /** What the fee field of a stored request says. */
  function FeeStatus(fee: nat): Status {
    if fee == DELIVERED_FEE_FLAG then Delivered
    else if fee == CANCELLED_FEE_FLAG then Cancelled
    else if fee == TC_CANCELLED_FLAG then SgxCancelled
    else Live
  }

  /** The steps in a request's life. */
  predicate MayBecome(a: Status, b: Status) {
    || a == b
    || a == NotYet
    || (a == Live && b != NotYet)
    || (a == Cancelled && b == Delivered)
  }

  /** A fee field changes only with the status, never from one fee to another. */
  predicate FeeMoves(fee: nat, fee': nat) {
    fee' == fee || (FeeStatus(fee') != FeeStatus(fee) && MayBecome(FeeStatus(fee), FeeStatus(fee')))
  }

  /** Requests only move forward, keep their parameters and their history, and logs only grow. */
  ghost predicate Evolves(s: State, s': State) {
    && s.requestCnt <= s'.requestCnt
    && s.log <= s'.log
    && s.effects <= s'.effects
    && (forall id :: 0 <= id < s.requestCnt ==>
          FeeMoves(s.At(id).fee, s'.At(id).fee) && s'.At(id) == s.At(id).(fee := s'.At(id).fee))
  }

  lemma {:induction false} EvolvesTransitive(s: State, t: State, u: State)
    requires Evolves(s, t) && Evolves(t, u)
    ensures Evolves(s, u)
  {
  }

  // ---- sums and histories ----

  lemma {:induction false} OwedTotalSame(s: State, t: State, n: nat)
    requires forall id :: 1 <= id < n ==> s.At(id).fee == t.At(id).fee
    ensures OwedTotal(s, n) == OwedTotal(t, n)
  {
    if n > 1 {
      OwedTotalSame(s, t, n - 1);
    }
  }

  lemma {:induction false} OwedTotalChange(s: State, t: State, n: nat, id: nat)
    requires 1 <= id < n
    requires forall j :: 1 <= j < n && j != id ==> s.At(j).fee == t.At(j).fee
    ensures OwedTotal(t, n) + Owed(s.At(id).fee) == OwedTotal(s, n) + Owed(t.At(id).fee)
  {
    if id == n - 1 {
      OwedTotalSame(s, t, n - 1);
    } else {
      OwedTotalChange(s, t, n - 1, id);
    }
  }

  /** What is owed on one request is part of the balance. */
  lemma {:induction false} OwedIsHeld(s: State, n: nat, id: nat)
    requires 1 <= id < n
    ensures Owed(s.At(id).fee) <= OwedTotal(s, n)
  {
    if id < n - 1 {
      OwedIsHeld(s, n - 1, id);
    }
  }

  lemma {:induction false} HistoryConcat(effects: seq<Effect>, more: seq<Effect>, id: nat)
    ensures History(effects + more, id) == History(effects, id) + History(more, id)
  {
    if more == [] {
      assert effects + more == effects;
    } else {
      var n := |more| - 1;
      HistoryConcat(effects, more[..n], id);
      assert (effects + more)[..|effects| + n] == effects + more[..n];
    }
  }

  lemma {:induction false} HistoryPrefix(effects: seq<Effect>, more: seq<Effect>, id: nat)
    requires effects <= more
    ensures History(effects, id) <= History(more, id)
  {
    HistoryConcat(effects, more[|effects|..], id);
    assert more == effects + more[|effects|..];
  }

  lemma {:induction false} HistoryOfOne(more: seq<Effect>, id: nat, j: nat)
    requires forall i :: 0 <= i < |more| ==> more[i].id == id
    ensures History(more, j) == if j == id then more else []
  {
    if more != [] {
      var n := |more| - 1;
      HistoryOfOne(more[..n], id, j);
      assert more == more[..n] + [more[n]];
    }
  }

  lemma {:induction false} TotalsConcat(effects: seq<Effect>, more: seq<Effect>)
    ensures TotalIn(effects + more) == TotalIn(effects) + TotalIn(more)
    ensures TotalOut(effects + more) == TotalOut(effects) + TotalOut(more)
  {
    if more == [] {
      assert effects + more == effects;
    } else {
      var n := |more| - 1;
      TotalsConcat(effects, more[..n]);
      assert (effects + more)[..|effects| + n] == effects + more[..n];
    }
  }

  lemma {:induction false} AcceptedConcat(log: seq<Event>, more: seq<Event>)
    ensures AcceptedIds(log + more) == AcceptedIds(log) + AcceptedIds(more)
  {
    if more == [] {
      assert log + more == log;
    } else {
      var n := |more| - 1;
      AcceptedConcat(log, more[..n]);
      assert (log + more)[..|log| + n] == log + more[..n];
    }
  }

  ghost predicate NoneAccepted(events: seq<Event>) {
    forall i :: 0 <= i < |events| && events[i].RequestInfo? ==> events[i].id == 0
  }

  lemma {:induction false} NoneAcceptedIds(events: seq<Event>)
    requires NoneAccepted(events)
    ensures AcceptedIds(events) == []
  {
    if events != [] {
      NoneAcceptedIds(events[..|events| - 1]);
    }
  }

  lemma {:induction false} OneIn(id: nat, from: Address, amount: nat)
    ensures TotalIn([PaidIn(id, from, amount)]) == amount && TotalOut([PaidIn(id, from, amount)]) == 0
  {
    assert TotalIn([]) == 0;
  }

  lemma {:induction false} OneOut(id: nat, to: Address, amount: nat)
    ensures TotalOut([PaidOut(id, to, amount)]) == amount && TotalIn([PaidOut(id, to, amount)]) == 0
  {
    assert TotalOut([]) == 0;
  }

  // ---- the three kinds of state change ----

  /** An entry stays right while its request is stored and its history only grows. */
  lemma {:induction false} EntryStays(k: Keccak, s: State, t: State, e: Event)
    requires EntryOk(k, s, e) && Evolves(s, t)
    ensures EntryOk(k, t, e)
  {
    HistoryPrefix(s.effects, t.effects, e.id);
  }

  /** New events that accept nothing leave the log lawful. */
  lemma {:induction false} LogGrows(k: Keccak, s: State, t: State, events: seq<Event>)
    requires Logged(k, s) && s.requestCnt == t.requestCnt && Evolves(s, t)
    requires t.log == s.log + events && NoneAccepted(events)
    ensures Logged(k, t)
  {
    AcceptedConcat(s.log, events);
    NoneAcceptedIds(events);
    forall i | 0 <= i < |t.log|
      ensures EntryOk(k, t, t.log[i])
    {
      if i < |s.log| {
        EntryStays(k, s, t, s.log[i]);
      } else {
        assert t.log[i] == events[i - |s.log|];
      }
    }
  }

  lemma {:induction false} HistoriesChange(s: State, t: State, id: nat, es: seq<Effect>)
    requires Histories(s) && s.requestCnt == t.requestCnt && id < s.requestCnt
    requires t.effects == s.effects + es && forall i :: 0 <= i < |es| ==> es[i].id == id
    requires forall j :: 1 <= j < s.requestCnt && j != id ==> t.At(j) == s.At(j)
    requires id != 0 ==> t.At(id).requester != 0 && Lawful(t.At(id), id, History(s.effects, id) + es)
    ensures Histories(t)
  {
    forall j | 1 <= j < t.requestCnt
      ensures t.At(j).requester != 0 && Lawful(t.At(j), j, History(t.effects, j))
    {
      HistoryConcat(s.effects, es, j);
      HistoryOfOne(es, id, j);
      assert j != id ==> History(s.effects, j) + [] == History(s.effects, j);
    }
    forall j | t.requestCnt <= j
      ensures History(t.effects, j) == []
    {
      HistoryConcat(s.effects, es, j);
      HistoryOfOne(es, id, j);
    }
  }

  /** One request's fee field changes and ether moves on its account. */
  lemma {:induction false} FeeChange(k: Keccak, s: State, t: State, id: nat, es: seq<Effect>, events: seq<Event>)
    requires Inv(k, s) && 1 <= id < s.requestCnt && t.requestCnt == s.requestCnt
    requires t.requests == s.requests[id := s.At(id).(fee := t.At(id).fee)]
    requires t.effects == s.effects + es && forall i :: 0 <= i < |es| ==> es[i].id == id
    requires t.log == s.log + events && NoneAccepted(events)
    requires FeeMoves(s.At(id).fee, t.At(id).fee) && Lawful(t.At(id), id, History(s.effects, id) + es)
    requires t.balance + Owed(s.At(id).fee) == s.balance + Owed(t.At(id).fee)
    requires t.balance + TotalOut(es) == s.balance + TotalIn(es)
    ensures Inv(k, t) && Evolves(s, t)
  {
    assert forall j :: j != id ==> t.At(j) == s.At(j);
    OwedTotalChange(s, t, s.requestCnt, id);
    HistoriesChange(s, t, id, es);
    TotalsConcat(s.effects, es);
    LogGrows(k, s, t, events);
  }

  /** Nothing but the log changes, and ether that came in on no request's account went out again. */
  lemma {:induction false} NothingStored(k: Keccak, s: State, t: State, es: seq<Effect>, events: seq<Event>)
    requires Inv(k, s) && t.requestCnt == s.requestCnt && t.requests == s.requests && t.balance == s.balance
    requires t.effects == s.effects + es && forall i :: 0 <= i < |es| ==> es[i].id == 0
    requires TotalIn(es) == TotalOut(es)
    requires t.log == s.log + events && NoneAccepted(events)
    ensures Inv(k, t) && Evolves(s, t)
  {
    assert forall j :: t.At(j) == s.At(j);
    OwedTotalSame(s, t, s.requestCnt);
    HistoriesChange(s, t, 0, es);
    TotalsConcat(s.effects, es);
    LogGrows(k, s, t, events);
  }

  /** A request is stored under the next id, and its value comes in. */
  lemma {:induction false} RequestStored(k: Keccak, s: State, t: State, r: Request, e: Event)
    requires Inv(k, s) && s.requestCnt + 1 < TWO_64 && t.requestCnt == s.requestCnt + 1
    requires r.requester != 0 && MIN_FEE <= r.fee <= MAX_FEE
    requires t.requests == s.requests[s.requestCnt := r] && t.balance == s.balance + r.fee
    requires t.effects == s.effects + [PaidIn(s.requestCnt, r.requester, r.fee)]
    requires t.log == s.log + [e] && e.RequestInfo? && e.id == s.requestCnt
    requires e.requester == r.requester && e.callbackAddr == r.callbackAddr && e.fee == r.fee
    requires r.paramsHash == e.hash == ParamsHash(k, e.requestType, e.requestData)
    ensures Inv(k, t) && Evolves(s, t)
  {
    var paid := PaidIn(s.requestCnt, r.requester, r.fee);
    assert t.At(s.requestCnt) == r;
    StoredFunds(s, t, r);
    StoredBalance(s, t, paid);
    assert forall j :: j != s.requestCnt ==> t.At(j) == s.At(j);
    StoredHistories(s, t, paid);
    StoredEntry(k, s, t, e, paid);
    assert t.log[|s.log|] == e && t.log[..|s.log|] == s.log;
    StoredLog(k, s, t);
  }

  lemma {:induction false} StoredEntry(k: Keccak, s: State, t: State, e: Event, paid: Effect)
    requires Histories(s) && 1 <= s.requestCnt < t.requestCnt && t.effects == s.effects + [paid]
    requires e.RequestInfo? && e.id == s.requestCnt && paid == PaidIn(e.id, e.requester, e.fee)
    requires t.At(e.id).requester == e.requester && t.At(e.id).callbackAddr == e.callbackAddr
    requires t.At(e.id).paramsHash == e.hash == ParamsHash(k, e.requestType, e.requestData)
    ensures EntryOk(k, t, e)
  {
    HistoryConcat(s.effects, [paid], paid.id);
    HistoryOfOne([paid], paid.id, paid.id);
  }

  lemma {:induction false} StoredFunds(s: State, t: State, r: Request)
    requires 1 <= s.requestCnt && Funded(s) && t.requestCnt == s.requestCnt + 1
    requires t.requests == s.requests[s.requestCnt := r] && t.balance == s.balance + r.fee && r.fee > 2
    ensures Funded(t)
  {
    OwedTotalSame(s, t, s.requestCnt);
    assert OwedTotal(t, t.requestCnt) == OwedTotal(t, s.requestCnt) + r.fee;
  }

  lemma {:induction false} StoredBalance(s: State, t: State, paid: Effect)
    requires Balanced(s) && paid.PaidIn?
    requires t.effects == s.effects + [paid] && t.balance == s.balance + paid.amount
    ensures Balanced(t)
  {
    TotalsConcat(s.effects, [paid]);
    OneIn(paid.id, paid.from, paid.amount);
  }

  lemma {:induction false} StoredHistories(s: State, t: State, paid: Effect)
    requires Histories(s) && 1 <= s.requestCnt && t.requestCnt == s.requestCnt + 1
    requires t.effects == s.effects + [paid] && paid.PaidIn? && paid.id == s.requestCnt
    requires MIN_FEE <= paid.amount <= MAX_FEE
    requires forall j :: j != s.requestCnt ==> t.At(j) == s.At(j)
    requires var r := t.At(s.requestCnt); r.requester == paid.from != 0 && r.fee == paid.amount
    ensures Histories(t)
  {
    forall j | j >= 1
      ensures History(t.effects, j) == History(s.effects, j) + if j == paid.id then [paid] else []
    {
      HistoryConcat(s.effects, [paid], j);
      HistoryOfOne([paid], paid.id, j);
    }
    forall j | 1 <= j < t.requestCnt
      ensures t.At(j).requester != 0 && Lawful(t.At(j), j, History(t.effects, j))
    {
      if j == paid.id {
        assert History(t.effects, j) == [paid];
      } else {
        assert History(t.effects, j) == History(s.effects, j);
      }
    }
  }

  lemma {:induction false} StoredLog(k: Keccak, s: State, t: State)
    requires Logged(k, s) && 1 <= s.requestCnt && t.requestCnt == s.requestCnt + 1
    requires |t.log| == |s.log| + 1 && t.log[..|s.log|] == s.log
    requires var e := t.log[|s.log|]; e.RequestInfo? && e.id == s.requestCnt && EntryOk(k, t, e)
    requires Evolves(s, t)
    ensures Logged(k, t)
  {
    var e := t.log[|s.log|];
    forall i | 0 <= i < |t.log|
      ensures EntryOk(k, t, t.log[i])
    {
      if i < |s.log| {
        EntryStays(k, s, t, s.log[i]);
      }
    }
    assert AcceptedIds(t.log) == AcceptedIds(s.log) + [e.id];
  }

  // ---- single calls ----

  lemma {:induction false} RequestKeeps(k: Keccak, s: State, c: Call)
    requires Inv(k, s) && c.DoRequest? && s.requestCnt + 1 < TWO_64
    ensures var t := ExecRequest(k, s, c).0;
      Inv(k, t) && Evolves(s, t) && s.requestCnt <= t.requestCnt <= s.requestCnt + 1
    ensures ExecRequest(k, s, c).1 == Threw <==> (c.value < MIN_FEE || c.value > MAX_FEE) && !c.accepts
  {
    var t := ExecRequest(k, s, c).0;
    if c.value < MIN_FEE || c.value > MAX_FEE {
      if c.accepts {
        var es := [PaidIn(0, c.sender, c.value)] + [PaidOut(0, c.sender, c.value)];
        assert t.effects == s.effects + es;
        OneIn(0, c.sender, c.value);
        OneOut(0, c.sender, c.value);
        TotalsConcat([PaidIn(0, c.sender, c.value)], [PaidOut(0, c.sender, c.value)]);
        NothingStored(k, s, t, es, [t.log[|s.log|]]);
      }
    } else {
      RequestStored(k, s, t, t.At(s.requestCnt), t.log[|s.log|]);
    }
  }

  /** A request's fee is a real fee exactly while it is live, and then it is all there is to pay. */
  lemma {:induction false} FeeRange(k: Keccak, s: State, id: nat)
    requires Inv(k, s)
    ensures var fee := s.At(id).fee; fee == 0 || fee == 1 || fee == 2 || MIN_FEE <= fee <= MAX_FEE
    ensures Owed(s.At(id).fee) <= s.balance
    ensures s.At(id).fee > TC_CANCELLED_FLAG ==>
      1 <= id < s.requestCnt && History(s.effects, id) == [PaidIn(id, s.At(id).requester, s.At(id).fee)]
    ensures id >= s.requestCnt ==> s.At(id) == EMPTY
  {
    if 1 <= id < s.requestCnt {
      OwedIsHeld(s, s.requestCnt, id);
      assert Lawful(s.At(id), id, History(s.effects, id));
    } else if id == 0 {
      assert s.At(0).fee == 0;
    }
  }

  /** A cancellation that pays `amount` to the caller and leaves `flag` behind. */
  lemma {:induction false} CancelPays(k: Keccak, s: State, t: State, c: Call, flag: nat, amount: nat)
    requires Inv(k, s) && c.DoCancel? && s.At(c.id).fee >= MIN_FEE
    requires s.At(c.id).fee == amount + Owed(flag)
    requires flag == CANCELLED_FEE_FLAG || flag == TC_CANCELLED_FLAG
    requires flag == CANCELLED_FEE_FLAG ==> s.At(c.id).requester == c.sender
    requires flag == TC_CANCELLED_FLAG ==> s.At(c.id).requester == SGX_ADDRESS != c.sender
    requires CancelPaying(s, c, amount, flag) == (t, Returned(1))
    ensures Inv(k, t) && Evolves(s, t)
  {
    var r := s.At(c.id);
    FeeRange(k, s, c.id);
    OneOut(c.id, c.sender, amount);
    var events := [Cancel(c.id, c.sender, r.requester, r.fee), Cancel(c.id, c.sender, r.requester, flag)];
    assert t.log == s.log + events;
    FeeChange(k, s, t, c.id, [PaidOut(c.id, c.sender, amount)], events);
  }

  /** A cancellation pays in exactly two situations and throws exactly if it should pay and the
      caller refuses; the money is always there. */
  lemma {:induction false} CancelOutcome(k: Keccak, s: State, c: Call)
    requires Inv(k, s) && c.DoCancel?
    ensures var r := s.At(c.id);
      var pays := r.fee > TC_CANCELLED_FLAG && (r.requester == c.sender || r.requester == SGX_ADDRESS);
      ExecCancel(s, c).1 == if !pays then Returned(0) else if c.accepts then Returned(1) else Threw
    ensures ExecCancel(s, c).1 == Threw ==> ExecCancel(s, c).0 == s
    ensures ExecCancel(s, c).0.requestCnt == s.requestCnt
  {
    FeeRange(k, s, c.id);
  }

  lemma {:induction false} CancelKeeps(k: Keccak, s: State, t: State, outcome: Outcome, c: Call)
    requires Inv(k, s) && c.DoCancel? && ExecCancel(s, c) == (t, outcome)
    ensures Inv(k, t) && Evolves(s, t)
  {
    CancelOutcome(k, s, c);
    if outcome == Returned(1) {
      CancelAccepted(k, s, t, c);
    } else if outcome == Returned(0) {
      var r := s.At(c.id);
      var events := [Cancel(c.id, c.sender, r.requester, r.fee), Cancel(c.id, c.sender, r.requester, -1)];
      assert t == s.Log(events[0]).Log(events[1]);
      assert t.log == s.log + events;
      NothingStored(k, s, t, [], events);
    }
  }

  lemma {:induction false} CancelAccepted(k: Keccak, s: State, t: State, c: Call)
    requires Inv(k, s) && c.DoCancel? && ExecCancel(s, c) == (t, Returned(1))
    ensures Inv(k, t) && Evolves(s, t)
  {
    var r := s.At(c.id);
    FeeRange(k, s, c.id);
    if r.requester == c.sender {
      CancelPays(k, s, t, c, CANCELLED_FEE_FLAG, r.fee - CANCELLATION_FEE);
    } else {
      CancelPays(k, s, t, c, TC_CANCELLED_FLAG, r.fee);
    }
  }

  /** A delivery that closes a request with effects `es`, the callback not run yet. */
  lemma {:induction false} DeliverPays(k: Keccak, s: State, t: State, c: Call, amount: nat, events: seq<Event>, es: seq<Effect>)
    requires Inv(k, s) && c.DoDeliver? && 1 <= c.id < s.requestCnt
    requires amount == Owed(s.At(c.id).fee) > 0 && FeeMoves(s.At(c.id).fee, 0)
    requires t.requestCnt == s.requestCnt && t.balance == s.balance - amount
    requires t.requests == s.requests[c.id := s.At(c.id).(fee := 0)]
    requires t.log == s.log + events && NoneAccepted(events)
    requires t.effects == s.effects + es && |es| >= 1 && es[0] == PaidOut(c.id, SGX_ADDRESS, amount)
    requires es == [es[0]] || (|es| == 2 && es[1].CalledBack? && es[1].id == c.id)
    requires Lawful(t.At(c.id), c.id, History(s.effects, c.id) + es)
    ensures Inv(k, t) && Evolves(s, t)
  {
    OneOut(c.id, SGX_ADDRESS, amount);
    if |es| == 2 {
      assert es[..1] == [es[0]];
    }
    FeeChange(k, s, t, c.id, es, events);
  }

  lemma {:induction false} SettleKeeps(k: Keccak, s: State, t: State, c: Call)
    requires Inv(k, s) && c.DoDeliver? && (Settle(s, c) == Pending(t) || Settle(s, c) == Closed(t))
    ensures Inv(k, t) && Evolves(s, t) && t.requestCnt == s.requestCnt
  {
    if Settle(s, c).Pending? {
      PendingKeeps(k, s, t, c);
    } else {
      ClosedKeeps(k, s, t, c);
    }
  }

  lemma {:induction false} PendingKeeps(k: Keccak, s: State, t: State, c: Call)
    requires Inv(k, s) && c.DoDeliver? && Settle(s, c) == Pending(t)
    ensures Inv(k, t) && Evolves(s, t) && t.requestCnt == s.requestCnt
  {
    var r := s.At(c.id);
    FeeRange(k, s, c.id);
    var es := [PaidOut(c.id, SGX_ADDRESS, r.fee), CalledBack(c.id, r.callbackAddr, r.callbackFID, c.error, c.respData)];
    assert t.effects == s.effects + es;
    DeliverPays(k, s, t, c, r.fee, [t.log[|s.log|]], es);
  }

  lemma {:induction false} ClosedKeeps(k: Keccak, s: State, t: State, c: Call)
    requires Inv(k, s) && c.DoDeliver? && Settle(s, c) == Closed(t)
    ensures Inv(k, t) && Evolves(s, t) && t.requestCnt == s.requestCnt
  {
    if t == s.Log(DeliverEvent(c, s.At(c.id).fee, 0)) {
      assert t.effects == s.effects + [];
      NothingStored(k, s, t, [], [DeliverEvent(c, s.At(c.id).fee, 0)]);
    } else {
      LateFeeKeeps(k, s, t, c);
    }
  }

  /** SGX collects the cancellation fee of a cancelled request. */
  lemma {:induction false} LateFeeKeeps(k: Keccak, s: State, t: State, c: Call)
    requires Inv(k, s) && c.DoDeliver? && s.At(c.id).fee == CANCELLED_FEE_FLAG
    requires s.Send(c.id, SGX_ADDRESS, CANCELLATION_FEE, c.accepts).Some?
    requires t == s.Send(c.id, SGX_ADDRESS, CANCELLATION_FEE, c.accepts).value.SetFee(c.id, DELIVERED_FEE_FLAG)
    ensures Inv(k, t) && Evolves(s, t) && t.requestCnt == s.requestCnt
  {
    FeeRange(k, s, c.id);
    assert Lawful(s.At(c.id), c.id, History(s.effects, c.id));
    assert t.log == s.log + [];
    DeliverPays(k, s, t, c, CANCELLATION_FEE, [], [PaidOut(c.id, SGX_ADDRESS, CANCELLATION_FEE)]);
  }

  // ---- whole runs ----

  lemma {:induction false} InitKeeps(k: Keccak, creator: Caller)
    ensures Inv(k, Init(creator))
  {
  }

  /** One call, with everything nested in its callback. */
  lemma {:induction false} ExecKeeps(k: Keccak, s: State, t: State, c: Call)
    requires Inv(k, s) && s.requestCnt + RequestsOf(c) < TWO_64 && t == Exec(k, s, c).0
    ensures Inv(k, t) && Evolves(s, t) && t.requestCnt <= s.requestCnt + RequestsOf(c)
    decreases c, 1
  {
    match c
    case DoRequest(_, _, _, _, _, _, _, _) =>
      RequestKeeps(k, s, c);
    case DoCancel(_, _, _) =>
      CancelOutcome(k, s, c);
      CancelKeeps(k, s, t, Exec(k, s, c).1, c);
    case DoDeliver(_, _, _, _, _, _, _, callback) =>
      match Settle(s, c)
      case Aborted =>
      case Closed(s1) =>
        SettleKeeps(k, s, s1, c);
      case Pending(s1) =>
        SettleKeeps(k, s, s1, c);
        if callback.succeeds {
          RunKeeps(k, s1, t, callback.calls);
          EvolvesTransitive(s, s1, t);
        }
  }

  /** Every sequence of calls keeps the invariant and moves no request backwards. */
  lemma {:induction false} RunKeeps(k: Keccak, s: State, t: State, cs: Calls)
    requires Inv(k, s) && s.requestCnt + NumRequests(cs) < TWO_64 && t == Run(k, s, cs)
    ensures Inv(k, t) && Evolves(s, t) && t.requestCnt <= s.requestCnt + NumRequests(cs)
    decreases cs, 0
  {
    match cs
    case Done =>
    case Then(c, rest) =>
      var s1 := Exec(k, s, c).0;
      ExecKeeps(k, s, s1, c);
      RunKeeps(k, s1, t, rest);
      EvolvesTransitive(s, s1, t);
  }
}
