/** What the escrow promises, for every state any run can reach from the contract's creation. */
module EscrowTheorems {
  import opened ByteStrings
  import opened Wrappers
  import opened Escrow
  import opened EscrowRuns

  /** A state the contract is in at some moment of a run: between two calls, or in the middle of a
      delivery, while its callback is running. */
  ghost predicate Occurs(k: Keccak, s: State, cs: Calls, t: State)
    decreases cs, 0
  {
    || t == s
    || match cs
       case Done => false
       case Then(c, rest) => OccursDuring(k, s, c, t) || Occurs(k, Exec(k, s, c).0, rest, t)
  }

  ghost predicate OccursDuring(k: Keccak, s: State, c: Call, t: State)
    decreases c, 1
  {
    match c
    case DoDeliver(_, _, _, _, _, _, _, callback) =>
      Settle(s, c).Pending? && Occurs(k, Settle(s, c).state, callback.calls, t)
    case _ => false
  }

  /** At every moment of a run, callbacks included, whether they end well or are undone. */
  lemma {:induction false} OccursKeeps(k: Keccak, s: State, cs: Calls, t: State)
    requires Inv(k, s) && s.requestCnt + NumRequests(cs) < TWO_64 && Occurs(k, s, cs, t)
    ensures Inv(k, t) && Evolves(s, t)
    decreases cs, 0
  {
    if t != s {
      var c, rest := cs.call, cs.rest;
      if OccursDuring(k, s, c, t) {
        DuringKeeps(k, s, c, t);
      } else {
        var s1 := Exec(k, s, c).0;
        ExecKeeps(k, s, s1, c);
        OccursKeeps(k, s1, rest, t);
        EvolvesTransitive(s, s1, t);
      }
    }
  }

  lemma {:induction false} DuringKeeps(k: Keccak, s: State, c: Call, t: State)
    requires Inv(k, s) && s.requestCnt + RequestsOf(c) < TWO_64 && OccursDuring(k, s, c, t)
    ensures Inv(k, t) && Evolves(s, t)
    decreases c, 1
  {
    var s1 := Settle(s, c).state;
    SettleKeeps(k, s, s1, c);
    OccursKeeps(k, s1, c.callback.calls, t);
    EvolvesTransitive(s, s1, t);
  }

  /** Some sequence of fewer than 2^64 - 1 requests, with deliveries, cancellations and callbacks of
      any depth, leads from creation to this state, or through it. */
  ghost predicate Reachable(k: Keccak, s: State) {
    exists creator: Caller, cs: Calls :: 1 + NumRequests(cs) < TWO_64 && Occurs(k, Init(creator), cs, s)
  }

  lemma {:induction false} ReachableInv(k: Keccak, s: State)
    requires Reachable(k, s)
    ensures Inv(k, s)
  {
    var creator: Caller, cs: Calls :| 1 + NumRequests(cs) < TWO_64 && Occurs(k, Init(creator), cs, s);
    InitKeeps(k, creator);
    OccursKeeps(k, Init(creator), cs, s);
  }

  /** The states between calls are among them. */
  lemma {:induction false} RunOccurs(k: Keccak, s: State, cs: Calls)
    ensures Occurs(k, s, cs, Run(k, s, cs))
    decreases cs
  {
    match cs
    case Done =>
    case Then(c, rest) => RunOccurs(k, Exec(k, s, c).0, rest);
  }

  // ---- money ----

  /** The contract holds exactly what it owes, request by request, and no ether appears or vanishes. */
  lemma {:induction false} Conservation(k: Keccak, s: State)
    requires Reachable(k, s)
    ensures s.balance == OwedTotal(s, s.requestCnt)
    ensures s.balance == TotalIn(s.effects) - TotalOut(s.effects)
  {
    ReachableInv(k, s);
  }

  /** For each request: what came in is what went out and what is still held. */
  lemma {:induction false} Accounting(k: Keccak, s: State, id: nat)
    requires Reachable(k, s) && 1 <= id < s.requestCnt
    ensures var h := History(s.effects, id); TotalIn(h) == TotalOut(h) + Owed(s.At(id).fee)
  {
    ReachableInv(k, s);
    var h := History(s.effects, id);
    assert Lawful(s.At(id), id, h);
    UnfoldTotals(h);
  }

  function AmountIn(e: Effect): nat { if e.PaidIn? then e.amount else 0 }

  function AmountOut(e: Effect): nat { if e.PaidOut? then e.amount else 0 }

  lemma {:induction false} UnfoldTotals(h: seq<Effect>)
    requires 1 <= |h| <= 3
    ensures TotalIn(h) == AmountIn(h[0]) + (if |h| > 1 then AmountIn(h[1]) else 0) + (if |h| > 2 then AmountIn(h[2]) else 0)
    ensures TotalOut(h) == AmountOut(h[0]) + (if |h| > 1 then AmountOut(h[1]) else 0) + (if |h| > 2 then AmountOut(h[2]) else 0)
  {
    assert h[..0] == [] && h[..|h|] == h;
    TotalsStep(h, 1);
    if |h| > 1 {
      TotalsStep(h, 2);
    }
    if |h| > 2 {
      TotalsStep(h, 3);
    }
  }

  lemma {:induction false} TotalsStep(h: seq<Effect>, n: nat)
    requires 0 < n <= |h|
    ensures TotalIn(h[..n]) == TotalIn(h[..n - 1]) + AmountIn(h[n - 1])
    ensures TotalOut(h[..n]) == TotalOut(h[..n - 1]) + AmountOut(h[n - 1])
  {
    assert h[..n][..n - 1] == h[..n - 1];
  }

  /** The situations in which a call pays somebody. */
  predicate Pays(s: State, c: Call) {
    var r := s.At(match c case DoRequest(_, _, _, _, _, _, _, _) => 0 case _ => c.id);
    match c
    case DoRequest(_, value, _, _, _, _, _, _) => value < MIN_FEE || value > MAX_FEE
    case DoCancel(sender, _, _) => r.fee > TC_CANCELLED_FLAG && (r.requester == sender || r.requester == SGX_ADDRESS)
    case DoDeliver(sender, _, hash, _, _, _, _, _) =>
      sender == SGX_ADDRESS && r.requester != 0 && r.paramsHash == hash
      && r.fee != DELIVERED_FEE_FLAG && r.fee != TC_CANCELLED_FLAG
  }

  /** A call throws exactly if it pays and the receiver refuses: funds never run short. */
  lemma {:induction false} CallOutcome(k: Keccak, s: State, c: Call)
    requires Inv(k, s)
    ensures Exec(k, s, c).1 == Threw <==> Pays(s, c) && !c.accepts
    ensures Exec(k, s, c).1 == Threw ==> Exec(k, s, c).0 == s
  {
    match c
    case DoRequest(_, _, _, _, _, _, _, _) =>
    case DoCancel(_, _, _) =>
      CancelOutcome(k, s, c);
    case DoDeliver(_, _, _, _, _, _, _, _) =>
      FeeRange(k, s, c.id);
  }

  /** That holds of every call in a run, the nested ones included. */
  ghost predicate NoCallStarves(k: Keccak, s: State, cs: Calls)
    decreases cs, 0
  {
    match cs
    case Done => true
    case Then(c, rest) =>
      && (Exec(k, s, c).1 == Threw <==> Pays(s, c) && !c.accepts)
      && (Exec(k, s, c).1 == Threw ==> Exec(k, s, c).0 == s)
      && NoNestedCallStarves(k, s, c)
      && NoCallStarves(k, Exec(k, s, c).0, rest)
  }

  ghost predicate NoNestedCallStarves(k: Keccak, s: State, c: Call)
    decreases c, 1
  {
    match c
    case DoDeliver(_, _, _, _, _, _, _, callback) =>
      Settle(s, c).Pending? ==> NoCallStarves(k, Settle(s, c).state, callback.calls)
    case _ => true
  }

  lemma {:induction false} NeverStarves(k: Keccak, s: State, cs: Calls)
    requires Inv(k, s) && s.requestCnt + NumRequests(cs) < TWO_64
    ensures NoCallStarves(k, s, cs)
    decreases cs, 0
  {
    match cs
    case Done =>
    case Then(c, rest) =>
      var t := Exec(k, s, c).0;
      CallOutcome(k, s, c);
      NestedNeverStarves(k, s, c);
      ExecKeeps(k, s, t, c);
      NeverStarves(k, t, rest);
  }

  lemma {:induction false} NestedNeverStarves(k: Keccak, s: State, c: Call)
    requires Inv(k, s) && s.requestCnt + RequestsOf(c) < TWO_64
    ensures NoNestedCallStarves(k, s, c)
    decreases c, 1
  {
    match c
    case DoRequest(_, _, _, _, _, _, _, _) =>
    case DoCancel(_, _, _) =>
    case DoDeliver(_, _, _, _, _, _, _, callback) =>
      if Settle(s, c).Pending? {
        SettleKeeps(k, s, Settle(s, c).state, c);
        NeverStarves(k, Settle(s, c).state, callback.calls);
      }
  }

  /** From creation on, no payment ever fails for lack of funds. */
  lemma {:induction false} Solvency(k: Keccak, creator: Caller, cs: Calls)
    requires 1 + NumRequests(cs) < TWO_64
    ensures NoCallStarves(k, Init(creator), cs)
  {
    InitKeeps(k, creator);
    NeverStarves(k, Init(creator), cs);
  }

  // ---- life of a request ----

  function StatusOf(s: State, id: nat): Status {
    if id == 0 || id >= s.requestCnt then NotYet else FeeStatus(s.At(id).fee)
  }

  /** Whatever is called next, a request only moves forward, and what was stored for it stays. */
  lemma {:induction false} Lifecycle(k: Keccak, s: State, t: State, cs: Calls, id: nat)
    requires Reachable(k, s) && s.requestCnt + NumRequests(cs) < TWO_64 && t == Run(k, s, cs)
    ensures MayBecome(StatusOf(s, id), StatusOf(t, id))
    ensures StatusOf(s, id) != NotYet ==> t.At(id) == s.At(id).(fee := t.At(id).fee)
    ensures History(s.effects, id) <= History(t.effects, id)
  {
    ReachableInv(k, s);
    RunKeeps(k, s, t, cs);
    HistoryPrefix(s.effects, t.effects, id);
    StatusMoves(s, t, id);
  }

  lemma {:induction false} StatusMoves(s: State, t: State, id: nat)
    requires Evolves(s, t)
    ensures MayBecome(StatusOf(s, id), StatusOf(t, id))
    ensures StatusOf(s, id) != NotYet ==> t.At(id) == s.At(id).(fee := t.At(id).fee)
  {
  }

  /** Accepted requests are logged under 1, 2, 3, ... in order, each with the hash that is stored,
      and with who paid what. */
  lemma {:induction false} IdsConsecutive(k: Keccak, s: State)
    requires Reachable(k, s)
    ensures |AcceptedIds(s.log)| == s.requestCnt - 1
    ensures forall i :: 0 <= i < |AcceptedIds(s.log)| ==> AcceptedIds(s.log)[i] == i + 1
    ensures forall i :: 0 <= i < |s.log| && s.log[i].RequestInfo? && s.log[i].id != 0 ==>
      var e := s.log[i];
      && s.At(e.id).paramsHash == e.hash == ParamsHash(k, e.requestType, e.requestData)
      && s.At(e.id).requester == e.requester && s.At(e.id).callbackAddr == e.callbackAddr
      && [PaidIn(e.id, e.requester, e.fee)] <= History(s.effects, e.id)
  {
    ReachableInv(k, s);
    assert forall i :: 0 <= i < |s.log| ==> EntryOk(k, s, s.log[i]);
  }

  function CountCallbacks(h: seq<Effect>): nat {
    if h == [] then 0 else CountCallbacks(h[..|h| - 1]) + if h[|h| - 1].CalledBack? then 1 else 0
  }

  /** A request's callback fires at most once: exactly if it was delivered without having been
      cancelled first, and then the whole fee went to SGX. */
  lemma {:induction false} OneCallback(k: Keccak, s: State, id: nat)
    requires Reachable(k, s) && 1 <= id < s.requestCnt
    ensures var r, h := s.At(id), History(s.effects, id);
      && CountCallbacks(h) == (if DeliveredLive(r, id, h) then 1 else 0)
      && (DeliveredLive(r, id, h) ==> StatusOf(s, id) == Delivered)
      && (StatusOf(s, id) == Delivered ==> DeliveredLive(r, id, h) || DeliveredCancelled(r, id, h))
  {
    ReachableInv(k, s);
    var h := History(s.effects, id);
    assert Lawful(s.At(id), id, h);
    UnfoldCallbacks(h);
  }

  lemma {:induction false} UnfoldCallbacks(h: seq<Effect>)
    requires 1 <= |h| <= 3
    ensures CountCallbacks(h) == (if h[0].CalledBack? then 1 else 0)
      + (if |h| > 1 && h[1].CalledBack? then 1 else 0) + (if |h| > 2 && h[2].CalledBack? then 1 else 0)
  {
    assert h[..0] == [] && h[..|h|] == h;
    CallbacksStep(h, 1);
    if |h| > 1 {
      CallbacksStep(h, 2);
    }
    if |h| > 2 {
      CallbacksStep(h, 3);
    }
  }

  lemma {:induction false} CallbacksStep(h: seq<Effect>, n: nat)
    requires 0 < n <= |h|
    ensures CountCallbacks(h[..n]) == CountCallbacks(h[..n - 1]) + if h[n - 1].CalledBack? then 1 else 0
  {
    assert h[..n][..n - 1] == h[..n - 1];
  }

  /** The three flag values never meet a real fee, and no fee subtraction wraps around. */
  lemma {:induction false} Sentinels(k: Keccak, s: State, id: nat, gasPrice: positive)
    requires Reachable(k, s)
    ensures var fee := s.At(id).fee;
      && (fee == 0 || fee == 1 || fee == 2 || MIN_FEE <= fee <= MAX_FEE)
      && (fee >= CANCELLATION_FEE <==> StatusOf(s, id) == Live)
      && (StatusOf(s, id) == Live ==> CallbackGas(fee, gasPrice) == (fee - MIN_FEE) / gasPrice)
  {
    ReachableInv(k, s);
    FeeRange(k, s, id);
  }

  /** A cancellation in the name of SGX refunds its caller, who is never the stored requester. */
  lemma {:induction false} SgxRefundGoesElsewhere(k: Keccak, s: State, id: nat)
    requires Reachable(k, s) && StatusOf(s, id) == SgxCancelled
    ensures var h := History(s.effects, id);
      |h| == 2 && h[0].PaidIn? && h[1].PaidOut? && h[1].amount == h[0].amount && h[1].to != s.At(id).requester
  {
    ReachableInv(k, s);
    assert Lawful(s.At(id), id, History(s.effects, id));
  }

  /** What a cancel pays, to whom and when: the whole fee exactly if it is somebody else's cancel of a
      live request that SGX made, all but the cancellation fee exactly if it is the requester's own,
      and otherwise nothing. */
  lemma {:induction false} CancelPaysIff(k: Keccak, s: State, t: State, c: Call)
    requires Inv(k, s) && c.DoCancel? && t == Exec(k, s, c).0
    ensures var r := s.At(c.id);
      var refund := StatusOf(s, c.id) == Live && r.requester == SGX_ADDRESS != c.sender && c.accepts;
      var partial := StatusOf(s, c.id) == Live && r.requester == c.sender && c.accepts;
      && (t.effects == s.effects + [PaidOut(c.id, c.sender, r.fee)] <==> refund)
      && (r.fee >= CANCELLATION_FEE && t.effects == s.effects + [PaidOut(c.id, c.sender, r.fee - CANCELLATION_FEE)] <==> partial)
      && (t.effects == s.effects <==> !refund && !partial)
      && (StatusOf(s, c.id) == Live && StatusOf(t, c.id) == SgxCancelled <==> refund)
      && (StatusOf(s, c.id) == Live && StatusOf(t, c.id) == Cancelled <==> partial)
  {
    var r := s.At(c.id);
    FeeRange(k, s, c.id);
    assert |t.effects| == |s.effects| || t.effects[|s.effects|].PaidOut?;
    if t.effects != s.effects {
      var paid := t.effects[|s.effects|].amount;
      assert t.effects == s.effects + [PaidOut(c.id, c.sender, paid)];
      assert (s.effects + [PaidOut(c.id, c.sender, r.fee)])[|s.effects|].amount == r.fee;
    }
  }

  /** An accepted request gets an id nobody had, and is live under it as it was made. */
  lemma {:induction false} RequestAccepted(k: Keccak, s: State, t: State, c: Call)
    requires Inv(k, s) && s.requestCnt + 1 < TWO_64 && c.DoRequest? && MIN_FEE <= c.value <= MAX_FEE
    requires t == Exec(k, s, c).0
    ensures var id := s.requestCnt;
      && Exec(k, s, c).1 == Returned(id) && StatusOf(s, id) == NotYet && StatusOf(t, id) == Live
      && t.At(id) == Request(c.sender, c.value, c.callbackAddr, c.callbackFID, ParamsHash(k, c.requestType, c.requestData))
      && History(t.effects, id) == [PaidIn(id, c.sender, c.value)]
      && t.balance == s.balance + c.value
  {
    var id := s.requestCnt;
    HistoryConcat(s.effects, [PaidIn(id, c.sender, c.value)], id);
    HistoryOfOne([PaidIn(id, c.sender, c.value)], id, id);
  }

  /** So a request that SGX makes is refunded in full to whoever else cancels it first. */
  lemma {:induction false} SgxRequestCancelled(k: Keccak, s: State, request: Call, s1: State, cancel: Call, t: State)
    requires Inv(k, s) && s.requestCnt + 1 < TWO_64 && request.DoRequest? && MIN_FEE <= request.value <= MAX_FEE
    requires request.sender == SGX_ADDRESS && s1 == Exec(k, s, request).0
    requires cancel.DoCancel? && cancel.id == s.requestCnt && cancel.sender != SGX_ADDRESS && cancel.accepts
    requires t == Exec(k, s1, cancel).0
    ensures StatusOf(t, cancel.id) == SgxCancelled
    ensures History(t.effects, cancel.id)
         == [PaidIn(cancel.id, SGX_ADDRESS, request.value), PaidOut(cancel.id, cancel.sender, request.value)]
  {
    RequestAccepted(k, s, s1, request);
    RequestKeeps(k, s, request);
    CancelPaysIff(k, s1, t, cancel);
    HistoryConcat(s1.effects, [PaidOut(cancel.id, cancel.sender, request.value)], cancel.id);
    HistoryOfOne([PaidOut(cancel.id, cancel.sender, request.value)], cancel.id, cancel.id);
  }

  /** Such a state is reachable: SGX makes the first request and account 1 cancels it. */
  lemma {:induction false} SgxCancelReachable(k: Keccak) returns (t: State)
    ensures Reachable(k, t) && StatusOf(t, 1) == SgxCancelled
    ensures History(t.effects, 1) == [PaidIn(1, SGX_ADDRESS, MIN_FEE), PaidOut(1, 1, MIN_FEE)]
  {
    var request := DoRequest(SGX_ADDRESS, MIN_FEE, 0, 1, Zeros(4), 0, [], true);
    t := FirstRequestCancelled(k, request, DoCancel(1, 1, true));
  }

  lemma {:induction false} FirstRequestCancelled(k: Keccak, request: Call, cancel: Call) returns (t: State)
    requires request.DoRequest? && request.sender == SGX_ADDRESS && MIN_FEE <= request.value <= MAX_FEE
    requires cancel.DoCancel? && cancel.id == 1 && cancel.sender != SGX_ADDRESS && cancel.accepts
    ensures Reachable(k, t) && StatusOf(t, 1) == SgxCancelled
    ensures History(t.effects, 1) == [PaidIn(1, SGX_ADDRESS, request.value), PaidOut(1, cancel.sender, request.value)]
  {
    var s1 := Exec(k, Init(1), request).0;
    t := Exec(k, s1, cancel).0;
    InitKeeps(k, 1);
    SgxRequestCancelled(k, Init(1), request, s1, cancel, t);
    ReachedByTwo(k, 1, request, s1, cancel, t);
  }

  lemma {:induction false} ReachedByTwo(k: Keccak, creator: Caller, c: Call, s1: State, d: Call, t: State)
    requires s1 == Exec(k, Init(creator), c).0 && t == Exec(k, s1, d).0
    requires 1 + RequestsOf(c) + RequestsOf(d) < TWO_64
    ensures Reachable(k, t)
  {
    TwoCalls(k, Init(creator), c, s1, d, t);
  }

  lemma {:induction false} TwoCalls(k: Keccak, s: State, c: Call, s1: State, d: Call, t: State)
    requires s1 == Exec(k, s, c).0 && t == Exec(k, s1, d).0
    ensures NumRequests(Then(c, Then(d, Done))) == RequestsOf(c) + RequestsOf(d)
    ensures Occurs(k, s, Then(c, Then(d, Done)), t)
  {
    assert Run(k, s1, Then(d, Done)) == Run(k, t, Done) == t;
    RunOccurs(k, s, Then(c, Then(d, Done)));
    assert NumRequests(Then(d, Done)) == RequestsOf(d) + NumRequests(Done);
  }

  /** A request with too small or too large a value is paid back and stored nowhere. */
  lemma {:induction false} RequestRefused(k: Keccak, s: State, t: State, c: Call)
    requires c.DoRequest? && (c.value < MIN_FEE || c.value > MAX_FEE) && c.accepts && t == Exec(k, s, c).0
    ensures Exec(k, s, c).1 == Returned(0)
    ensures t == s.(log := t.log, effects := s.effects + [PaidIn(0, c.sender, c.value), PaidOut(0, c.sender, c.value)])
  {
  }

  /** A request is stored, and its value kept, exactly if the value is between the least and the
      greatest fee; whatever comes in otherwise goes out again. */
  lemma {:induction false} RequestStoredIff(k: Keccak, s: State, t: State, c: Call)
    requires Inv(k, s) && s.requestCnt + 1 < TWO_64 && c.DoRequest? && t == Exec(k, s, c).0
    ensures t.requestCnt == s.requestCnt + 1 <==> MIN_FEE <= c.value <= MAX_FEE
    ensures t.requests == s.requests <==> !(MIN_FEE <= c.value <= MAX_FEE)
    ensures t.balance == s.balance + if MIN_FEE <= c.value <= MAX_FEE then c.value else 0
  {
    if MIN_FEE <= c.value <= MAX_FEE {
      AcceptedChanges(k, s, t, c);
    } else if c.accepts {
      RequestRefused(k, s, t, c);
    }
  }

  lemma {:induction false} AcceptedChanges(k: Keccak, s: State, t: State, c: Call)
    requires Domain(s) && s.requestCnt + 1 < TWO_64 && c.DoRequest? && MIN_FEE <= c.value <= MAX_FEE
    requires t == ExecRequest(k, s, c).0
    ensures t.requestCnt == s.requestCnt + 1 && t.requests != s.requests && t.balance == s.balance + c.value
  {
    assert s.requestCnt in t.requests && s.requestCnt !in s.requests;
  }

  /** A delivery that pays nothing leaves one event and nothing else. */
  lemma {:induction false} DeliverRefused(k: Keccak, s: State, t: State, d: Call)
    requires d.DoDeliver? && !Pays(s, d) && t == Exec(k, s, d).0
    ensures Exec(k, s, d).1 == Returned(0)
    ensures t == s.Log(DeliverInfo(d.id, s.At(d.id).fee, d.gasPrice, 0, d.paramsHash, d.error, d.respData))
  {
  }

  /** A live request's whole fee is held. */
  lemma {:induction false} LiveFee(k: Keccak, s: State, id: nat)
    requires Inv(k, s) && StatusOf(s, id) == Live
    ensures 1 <= id < s.requestCnt && MIN_FEE <= s.At(id).fee <= s.balance
    ensures History(s.effects, id) == [PaidIn(id, s.At(id).requester, s.At(id).fee)]
  {
    FeeRange(k, s, id);
  }

  // ---- a cancellation and a delivery of the same request, in either order ----

  /** A delivery from SGX with the stored hash, whose payment is accepted. */
  predicate Matching(s: State, d: Call) {
    d.DoDeliver? && d.sender == SGX_ADDRESS && d.paramsHash == s.At(d.id).paramsHash && d.accepts
  }

  /** Such a delivery leaves a stored request delivered, unless SGX's request was refunded. */
  lemma {:induction false} DeliveryDelivers(k: Keccak, s: State, t: State, d: Call)
    requires Inv(k, s) && s.requestCnt + RequestsOf(d) < TWO_64 && t == Exec(k, s, d).0
    requires Matching(s, d) && 1 <= d.id < s.requestCnt
    ensures Exec(k, s, d).1 != Threw
    ensures t.At(d.id).fee == if s.At(d.id).fee == TC_CANCELLED_FLAG then TC_CANCELLED_FLAG else DELIVERED_FEE_FLAG
  {
    FeeRange(k, s, d.id);
    if Settle(s, d).Pending? {
      var s1 := Settle(s, d).state;
      SettleKeeps(k, s, s1, d);
      RunKeeps(k, s1, Run(k, s1, d.callback.calls), d.callback.calls);
    }
  }

  /** What a request's history looks like after a cancellation by the requester. */
  function AfterCancel(r: Request, id: nat, paid: nat): seq<Effect>
    requires paid >= CANCELLATION_FEE
  {
    [PaidIn(id, r.requester, paid), PaidOut(id, r.requester, paid - CANCELLATION_FEE)]
  }

  lemma {:induction false} CancelCancels(k: Keccak, s: State, t: State, cancel: Call)
    requires Inv(k, s) && cancel.DoCancel? && cancel.accepts && t == Exec(k, s, cancel).0
    requires StatusOf(s, cancel.id) == Live && cancel.sender == s.At(cancel.id).requester
    ensures Inv(k, t) && Evolves(s, t) && t.requestCnt == s.requestCnt
    ensures s.At(cancel.id).fee >= MIN_FEE && t.At(cancel.id) == s.At(cancel.id).(fee := CANCELLED_FEE_FLAG)
    ensures History(t.effects, cancel.id) == AfterCancel(s.At(cancel.id), cancel.id, s.At(cancel.id).fee)
    ensures t.log == s.log + CancelEvents(s.At(cancel.id), cancel)
  {
    LiveFee(k, s, cancel.id);
    CancelStep(s, t, cancel);
    CancelKeeps(k, s, t, ExecCancel(s, cancel).1, cancel);
  }

  function CancelEvents(r: Request, c: Call): seq<Event>
    requires c.DoCancel?
  {
    [Event.Cancel(c.id, c.sender, r.requester, r.fee), Event.Cancel(c.id, c.sender, r.requester, CANCELLED_FEE_FLAG)]
  }

  lemma {:induction false} CancelStep(s: State, t: State, c: Call)
    requires c.DoCancel? && c.accepts && t == ExecCancel(s, c).0
    requires s.At(c.id).requester == c.sender && MIN_FEE <= s.At(c.id).fee <= s.balance
    ensures t.requestCnt == s.requestCnt && t.At(c.id) == s.At(c.id).(fee := CANCELLED_FEE_FLAG)
    ensures History(t.effects, c.id)
         == History(s.effects, c.id) + [PaidOut(c.id, c.sender, s.At(c.id).fee - CANCELLATION_FEE)]
    ensures t.log == s.log + CancelEvents(s.At(c.id), c)
  {
    var out := PaidOut(c.id, c.sender, s.At(c.id).fee - CANCELLATION_FEE);
    assert t.effects == s.effects + [out];
    HistoryConcat(s.effects, [out], c.id);
    HistoryOfOne([out], c.id, c.id);
  }

  /** Cancelling a delivered request changes nothing but the log. */
  lemma {:induction false} LateCancel(s: State, c: Call)
    requires c.DoCancel? && s.At(c.id).fee == DELIVERED_FEE_FLAG
    ensures ExecCancel(s, c).1 == Returned(0) && ExecCancel(s, c).0 == s.(log := ExecCancel(s, c).0.log)
  {
  }

  /** From there on it can only be delivered, for the cancellation fee. */
  lemma {:induction false} CancelledStays(k: Keccak, s: State, t: State, id: nat, paid: nat)
    requires Inv(k, t) && Evolves(s, t) && 1 <= id < s.requestCnt && s.At(id).fee == CANCELLED_FEE_FLAG
    requires paid >= MIN_FEE && History(s.effects, id) == AfterCancel(s.At(id), id, paid)
    ensures t.At(id).fee == CANCELLED_FEE_FLAG || t.At(id).fee == DELIVERED_FEE_FLAG
    ensures t.At(id).fee == DELIVERED_FEE_FLAG ==>
      History(t.effects, id) == AfterCancel(s.At(id), id, paid) + [PaidOut(id, SGX_ADDRESS, CANCELLATION_FEE)]
  {
    HistoryPrefix(s.effects, t.effects, id);
    var h, h' := History(s.effects, id), History(t.effects, id);
    assert Lawful(t.At(id), id, h');
    assert h'[0] == h[0] && h'[1] == h[1];
  }

  lemma {:induction false} CancelledThenDeliver(k: Keccak, s1: State, s2: State, t: State, between: Calls, d: Call, paid: nat)
    requires Inv(k, s1) && d.DoDeliver? && Matching(s1, d) && 1 <= d.id < s1.requestCnt
    requires s1.At(d.id).fee == CANCELLED_FEE_FLAG
    requires paid >= MIN_FEE && History(s1.effects, d.id) == AfterCancel(s1.At(d.id), d.id, paid)
    requires s1.requestCnt + NumRequests(between) + RequestsOf(d) < TWO_64
    requires s2 == Run(k, s1, between) && t == Exec(k, s2, d).0
    ensures t.At(d.id).fee == DELIVERED_FEE_FLAG
    ensures History(t.effects, d.id) == AfterCancel(s1.At(d.id), d.id, paid) + [PaidOut(d.id, SGX_ADDRESS, CANCELLATION_FEE)]
  {
    RunKeeps(k, s1, s2, between);
    CancelledStays(k, s1, s2, d.id, paid);
    DeliveryDelivers(k, s2, t, d);
    ExecKeeps(k, s2, t, d);
    EvolvesTransitive(s1, s2, t);
    CancelledStays(k, s1, t, d.id, paid);
  }

  /** Cancelled first: the requester gets all but the cancellation fee, SGX gets that; no callback. */
  lemma {:induction false} CancelThenDeliver(k: Keccak, s: State, s1: State, s2: State, t: State, cancel: Call,
      between: Calls, d: Call)
    requires Inv(k, s) && cancel.DoCancel? && cancel.accepts && d.DoDeliver? && cancel.id == d.id
    requires StatusOf(s, d.id) == Live && cancel.sender == s.At(d.id).requester && Matching(s, d)
    requires s.requestCnt + NumRequests(between) + RequestsOf(d) < TWO_64
    requires s1 == Exec(k, s, cancel).0 && s2 == Run(k, s1, between) && t == Exec(k, s2, d).0
    ensures s.At(d.id).fee >= MIN_FEE && t.At(d.id).fee == DELIVERED_FEE_FLAG
    ensures History(t.effects, d.id)
         == AfterCancel(s.At(d.id), d.id, s.At(d.id).fee) + [PaidOut(d.id, SGX_ADDRESS, CANCELLATION_FEE)]
  {
    CancelCancels(k, s, s1, cancel);
    CancelledThenDeliver(k, s1, s2, t, between, d, s.At(d.id).fee);
  }

  /** What a request's history looks like after a delivery while it was live. */
  function AfterDelivery(r: Request, d: Call): seq<Effect>
    requires d.DoDeliver?
  {
    [PaidIn(d.id, r.requester, r.fee), PaidOut(d.id, SGX_ADDRESS, r.fee),
     CalledBack(d.id, r.callbackAddr, r.callbackFID, d.error, d.respData)]
  }

  /** The event that is logged for it: the fee, and the gas the rest of the fee buys the callback. */
  function DeliveryEvent(fee: nat, d: Call): Event
    requires d.DoDeliver? && fee >= MIN_FEE
  {
    DeliverInfo(d.id, fee, d.gasPrice, (fee - MIN_FEE) / d.gasPrice, d.paramsHash, d.error, d.respData)
  }

  lemma {:induction false} DeliverSettles(k: Keccak, s: State, d: Call)
    requires Inv(k, s) && Matching(s, d) && StatusOf(s, d.id) == Live
    ensures s.At(d.id).fee >= MIN_FEE
    ensures Settle(s, d).Pending? && var t := Settle(s, d).state;
      && t.At(d.id).fee == DELIVERED_FEE_FLAG && History(t.effects, d.id) == AfterDelivery(s.At(d.id), d)
      && t.log == s.log + [DeliveryEvent(s.At(d.id).fee, d)]
  {
    var r := s.At(d.id);
    LiveFee(k, s, d.id);
    var es := [PaidOut(d.id, SGX_ADDRESS, r.fee), CalledBack(d.id, r.callbackAddr, r.callbackFID, d.error, d.respData)];
    assert Settle(s, d).state.effects == s.effects + es;
    HistoryConcat(s.effects, es, d.id);
    HistoryOfOne(es, d.id, d.id);
  }

  /** Nothing moves on the account of a delivered request again. */
  lemma {:induction false} DeliveredStays(k: Keccak, s: State, t: State, id: nat)
    requires Inv(k, t) && Evolves(s, t) && 1 <= id < s.requestCnt && s.At(id).fee == DELIVERED_FEE_FLAG
    requires |History(s.effects, id)| == 3
    ensures t.At(id).fee == DELIVERED_FEE_FLAG && History(t.effects, id) == History(s.effects, id)
  {
    HistoryPrefix(s.effects, t.effects, id);
    assert Lawful(t.At(id), id, History(t.effects, id));
  }

  /** A delivery of a live request closes it whatever its callback does. */
  lemma {:induction false} DeliverDelivers(k: Keccak, s: State, t: State, d: Call)
    requires Inv(k, s) && Matching(s, d) && StatusOf(s, d.id) == Live
    requires s.requestCnt + RequestsOf(d) < TWO_64 && t == Exec(k, s, d).0
    ensures 1 <= d.id < t.requestCnt && t.At(d.id).fee == DELIVERED_FEE_FLAG
    ensures History(t.effects, d.id) == AfterDelivery(s.At(d.id), d)
    ensures s.At(d.id).fee >= MIN_FEE && s.log + [DeliveryEvent(s.At(d.id).fee, d)] <= t.log
  {
    LiveFee(k, s, d.id);
    DeliverSettles(k, s, d);
    var s0 := Settle(s, d).state;
    SettleKeeps(k, s, s0, d);
    if d.callback.succeeds {
      RunKeeps(k, s0, t, d.callback.calls);
      DeliveredStays(k, s0, t, d.id);
    }
  }

  /** Delivered twice: the second delivery, matching or not, leaves one event and nothing else. */
  lemma {:induction false} DeliverTwice(k: Keccak, s: State, s1: State, s2: State, t: State, d: Call, between: Calls, d': Call)
    requires Inv(k, s) && d.DoDeliver? && d'.DoDeliver? && d'.id == d.id
    requires StatusOf(s, d.id) == Live && Matching(s, d)
    requires s.requestCnt + RequestsOf(d) + NumRequests(between) < TWO_64
    requires s1 == Exec(k, s, d).0 && s2 == Run(k, s1, between) && t == Exec(k, s2, d').0
    ensures Exec(k, s2, d').1 == Returned(0)
    ensures t == s2.Log(DeliverInfo(d.id, DELIVERED_FEE_FLAG, d'.gasPrice, 0, d'.paramsHash, d'.error, d'.respData))
    ensures History(t.effects, d.id) == AfterDelivery(s.At(d.id), d)
  {
    DeliverDelivers(k, s, s1, d);
    ExecKeeps(k, s, s1, d);
    RunKeeps(k, s1, s2, between);
    DeliveredStays(k, s1, s2, d.id);
    DeliverRefused(k, s2, t, d');
  }

  /** Delivered first: SGX gets the whole fee, the callback is made, and the cancellation that
      comes too late is refused. */
  lemma {:induction false} DeliverThenCancel(k: Keccak, s: State, s1: State, s2: State, t: State, d: Call,
      between: Calls, cancel: Call)
    requires Inv(k, s) && cancel.DoCancel? && d.DoDeliver? && cancel.id == d.id
    requires StatusOf(s, d.id) == Live && Matching(s, d)
    requires s.requestCnt + RequestsOf(d) + NumRequests(between) < TWO_64
    requires s1 == Exec(k, s, d).0 && s2 == Run(k, s1, between) && t == Exec(k, s2, cancel).0
    ensures t.At(d.id).fee == DELIVERED_FEE_FLAG && History(t.effects, d.id) == AfterDelivery(s.At(d.id), d)
    ensures Exec(k, s2, cancel).1 == Returned(0)
    ensures t.balance == s2.balance && t.effects == s2.effects && t.requests == s2.requests
  {
    DeliverDelivers(k, s, s1, d);
    ExecKeeps(k, s, s1, d);
    RunKeeps(k, s1, s2, between);
    DeliveredStays(k, s1, s2, d.id);
    LateCancel(s2, cancel);
  }
}
