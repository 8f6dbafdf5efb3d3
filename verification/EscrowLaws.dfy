/** Laws that say what calls and runs of the escrow do, call by call and in sequence. */
module EscrowLaws {
  import opened ByteStrings
  import opened Wrappers
  import opened Escrow
  import opened EscrowRuns
  import opened EscrowTheorems

  // ---- runs ----

  function Concat(cs: Calls, ds: Calls): Calls {
    match cs
    case Done => ds
    case Then(c, rest) => Then(c, Concat(rest, ds))
  }

  lemma {:induction false} RunOne(k: Keccak, s: State, c: Call)
    ensures Run(k, s, Then(c, Done)) == Exec(k, s, c).0
    ensures Run(k, s, Done) == s
  {
    assert Run(k, Exec(k, s, c).0, Done) == Exec(k, s, c).0;
  }

  /** A run is one part of it after the other. */
  lemma {:induction false} RunConcat(k: Keccak, s: State, cs: Calls, ds: Calls)
    ensures Run(k, s, Concat(cs, ds)) == Run(k, Run(k, s, cs), ds)
    ensures NumRequests(Concat(cs, ds)) == NumRequests(cs) + NumRequests(ds)
    decreases cs
  {
    match cs
    case Done =>
    case Then(c, rest) => RunConcat(k, Exec(k, s, c).0, rest, ds);
  }

  /** The calls of a list, in order. */
  function Sequence(cs: seq<Call>): Calls {
    if cs == [] then Done else Then(cs[0], Sequence(cs[1..]))
  }

  lemma {:induction false} SequenceSnoc(cs: seq<Call>, c: Call)
    ensures Sequence(cs + [c]) == Concat(Sequence(cs), Then(c, Done))
  {
    if cs == [] {
      assert ([] + [c])[1..] == [];
    } else {
      SequenceSnoc(cs[1..], c);
      assert (cs + [c])[1..] == cs[1..] + [c];
    }
  }

  // ---- requests ----

  predicate Accepted(c: Call) { c.DoRequest? && MIN_FEE <= c.value <= MAX_FEE }

  /** What is stored for a request, and what is logged. */
  function StoredAs(k: Keccak, c: Call): Request
    requires c.DoRequest?
  {
    Request(c.sender, c.value, c.callbackAddr, c.callbackFID, k([c.requestType] + Flatten(c.requestData)))
  }

  function LoggedAs(k: Keccak, id: nat, c: Call): Event
    requires c.DoRequest?
  {
    RequestInfo(id, c.requestType, c.sender, c.value, c.callbackAddr, k([c.requestType] + Flatten(c.requestData)),
                c.timestamp, c.requestData)
  }

  /** The whole new state after an accepted request. */
  lemma {:induction false} RequestStep(k: Keccak, s: State, c: Call)
    requires Accepted(c) && s.requestCnt + 1 < TWO_64
    ensures Exec(k, s, c) == (State(s.balance + c.value, s.requestCnt + 1, s.requests[s.requestCnt := StoredAs(k, c)],
                                    s.log + [LoggedAs(k, s.requestCnt, c)],
                                    s.effects + [PaidIn(s.requestCnt, c.sender, c.value)]),
                              Returned(s.requestCnt))
  {
  }

  /** Requests that are accepted one after the other are stored, logged and paid for under the next ids
      in order, each as it was made; nothing else changes. */
  lemma {:induction false} RequestsInSequence(k: Keccak, s: State, cs: seq<Call>, t: State)
    requires s.requestCnt + |cs| < TWO_64 && t == Run(k, s, Sequence(cs))
    requires forall i :: 0 <= i < |cs| ==> Accepted(cs[i])
    ensures t.requestCnt == s.requestCnt + |cs|
    ensures |t.log| == |s.log| + |cs| && s.log <= t.log && |t.effects| == |s.effects| + |cs| && s.effects <= t.effects
    ensures forall i :: 0 <= i < |cs| ==>
      && Accepted(cs[i]) && t.At(s.requestCnt + i) == StoredAs(k, cs[i])
      && t.log[|s.log| + i] == LoggedAs(k, s.requestCnt + i, cs[i])
      && t.effects[|s.effects| + i] == PaidIn(s.requestCnt + i, cs[i].sender, cs[i].value)
    ensures forall id :: 0 <= id < s.requestCnt ==> t.At(id) == s.At(id)
    decreases |cs|
  {
    if cs == [] {
      assert t == s;
    } else {
      var n := |cs| - 1;
      var front, c := cs[..n], cs[n];
      assert cs == front + [c];
      SequenceSnoc(front, c);
      RunConcat(k, s, Sequence(front), Then(c, Done));
      var u := Run(k, s, Sequence(front));
      RunOne(k, u, c);
      RequestsInSequence(k, s, front, u);
      RequestStep(k, u, c);
      OneMore(k, s, u, t, cs);
    }
  }

  lemma {:induction false} OneMore(k: Keccak, s: State, u: State, t: State, cs: seq<Call>)
    requires cs != [] && forall i :: 0 <= i < |cs| ==> Accepted(cs[i])
    requires u.requestCnt == s.requestCnt + |cs| - 1 && |u.log| == |s.log| + |cs| - 1 && |u.effects| == |s.effects| + |cs| - 1
    requires s.log <= u.log && s.effects <= u.effects
    requires forall i :: 0 <= i < |cs| - 1 ==>
      && Accepted(cs[i]) && u.At(s.requestCnt + i) == StoredAs(k, cs[i])
      && u.log[|s.log| + i] == LoggedAs(k, s.requestCnt + i, cs[i])
      && u.effects[|s.effects| + i] == PaidIn(s.requestCnt + i, cs[i].sender, cs[i].value)
    requires forall id :: 0 <= id < s.requestCnt ==> u.At(id) == s.At(id)
    requires var c := cs[|cs| - 1];
      && Accepted(c) && t.requests == u.requests[u.requestCnt := StoredAs(k, c)] && t.log == u.log + [LoggedAs(k, u.requestCnt, c)]
      && t.effects == u.effects + [PaidIn(u.requestCnt, c.sender, c.value)]
    ensures forall i :: 0 <= i < |cs| ==>
      && Accepted(cs[i]) && t.At(s.requestCnt + i) == StoredAs(k, cs[i])
      && t.log[|s.log| + i] == LoggedAs(k, s.requestCnt + i, cs[i])
      && t.effects[|s.effects| + i] == PaidIn(s.requestCnt + i, cs[i].sender, cs[i].value)
    ensures forall id :: 0 <= id < s.requestCnt ==> t.At(id) == s.At(id)
  {
    assert forall id :: id != u.requestCnt ==> t.At(id) == u.At(id);
  }

  // ---- deliveries ----

  /** The same delivery to an application that does nothing. */
  function WithoutCallback(d: Call): Call
    requires d.DoDeliver?
  {
    d.(callback := Callback(Done, true))
  }

  /** A matching delivery of a live request, but for its callback: the fee goes to SGX, its field is
      cleared, and the delivery and the callback are on record. */
  lemma {:induction false} DeliveryStep(k: Keccak, s: State, d: Call)
    requires Inv(k, s) && Matching(s, d) && StatusOf(s, d.id) == Live
    ensures var r := s.At(d.id);
      && MIN_FEE <= r.fee <= s.balance
      && Exec(k, s, WithoutCallback(d))
         == (State(s.balance - r.fee, s.requestCnt, s.requests[d.id := r.(fee := DELIVERED_FEE_FLAG)],
                   s.log + [DeliveryEvent(r.fee, d)],
                   s.effects + [PaidOut(d.id, SGX_ADDRESS, r.fee),
                                CalledBack(d.id, r.callbackAddr, r.callbackFID, d.error, d.respData)]),
             Returned(0))
  {
    LiveFee(k, s, d.id);
    var d0 := WithoutCallback(d);
    var t := Settle(s, d0).state;
    RunDone(k, t);
    assert t.effects == s.effects + [PaidOut(d.id, SGX_ADDRESS, s.At(d.id).fee),
        CalledBack(d.id, s.At(d.id).callbackAddr, s.At(d.id).callbackFID, d.error, d.respData)];
  }

  lemma {:induction false} RunDone(k: Keccak, s: State)
    ensures Run(k, s, Done) == s
  {
  }

  /** A callback that fails is undone: the delivery leaves what it leaves without one. */
  lemma {:induction false} CallbackUndone(k: Keccak, s: State, d: Call)
    requires d.DoDeliver? && !d.callback.succeeds
    ensures Exec(k, s, d) == Exec(k, s, WithoutCallback(d))
  {
    SameSettlement(s, d);
    if Settle(s, d).Pending? {
      RunDone(k, Settle(s, d).state);
    }
  }

  /** A callback that succeeds runs in the state the delivery leaves without one. */
  lemma {:induction false} CallbackRuns(k: Keccak, s: State, d: Call)
    requires Inv(k, s) && Matching(s, d) && StatusOf(s, d.id) == Live && d.callback.succeeds
    ensures Exec(k, s, d).0 == Run(k, Exec(k, s, WithoutCallback(d)).0, d.callback.calls)
  {
    SameSettlement(s, d);
    DeliverSettles(k, s, d);
    RunDone(k, Settle(s, d).state);
  }

  /** A delivery that does not pay a live request's fee makes no callback. */
  lemma {:induction false} NoCallback(k: Keccak, s: State, d: Call)
    requires Inv(k, s) && d.DoDeliver? && !(Matching(s, d) && StatusOf(s, d.id) == Live)
    ensures Exec(k, s, d) == Exec(k, s, WithoutCallback(d))
  {
    SameSettlement(s, d);
    FeeRange(k, s, d.id);
  }

  lemma {:induction false} SameSettlement(s: State, d: Call)
    requires d.DoDeliver?
    ensures Settle(s, WithoutCallback(d)) == Settle(s, d)
  {
  }

  /** The whole new state after a matching delivery of a live request whose callback fails: nothing the
      callback did is left. */
  lemma {:induction false} FailedCallback(k: Keccak, s: State, d: Call, t: State)
    requires Inv(k, s) && Matching(s, d) && StatusOf(s, d.id) == Live && !d.callback.succeeds && t == Exec(k, s, d).0
    ensures var r := s.At(d.id);
      && r.fee >= MIN_FEE && t.balance == s.balance - r.fee && t.requestCnt == s.requestCnt
      && t.requests == s.requests[d.id := r.(fee := DELIVERED_FEE_FLAG)]
      && t.log == s.log + [DeliveryEvent(r.fee, d)]
      && t.effects == s.effects + [PaidOut(d.id, SGX_ADDRESS, r.fee),
                                   CalledBack(d.id, r.callbackAddr, r.callbackFID, d.error, d.respData)]
  {
    CallbackUndone(k, s, d);
    DeliveryStep(k, s, d);
  }

  /** The whole new state after a matching delivery of a cancelled request: SGX gets the cancellation
      fee; nothing is logged and nobody is called. */
  lemma {:induction false} LateDelivery(k: Keccak, s: State, d: Call)
    requires Inv(k, s) && Matching(s, d) && StatusOf(s, d.id) == Cancelled
    ensures CANCELLATION_FEE <= s.balance
    ensures Exec(k, s, d)
      == (s.(balance := s.balance - CANCELLATION_FEE,
             requests := s.requests[d.id := s.At(d.id).(fee := DELIVERED_FEE_FLAG)],
             effects := s.effects + [PaidOut(d.id, SGX_ADDRESS, CANCELLATION_FEE)]),
          Returned(0))
  {
    FeeRange(k, s, d.id);
  }

  // ---- cancellations ----

  /** The flag a cancel leaves in the log: 1 for the requester's own, 2 for somebody else's of a request
      of SGX's, -1 for one that is refused. A cancel that throws logs nothing. */
  lemma {:induction false} CancelLogged(k: Keccak, s: State, c: Call)
    requires Inv(k, s) && c.DoCancel?
    ensures var r := s.At(c.id);
      var live := StatusOf(s, c.id) == Live;
      var flag := if live && r.requester == c.sender then 1 else if live && r.requester == SGX_ADDRESS then 2 else -1;
      Exec(k, s, c).0.log == if flag != -1 && !c.accepts then s.log else
        s.log + [Event.Cancel(c.id, c.sender, r.requester, r.fee), Event.Cancel(c.id, c.sender, r.requester, flag)]
  {
    FeeRange(k, s, c.id);
    var t := Exec(k, s, c).0;
    if |t.log| > |s.log| {
      assert t.log == s.log + [t.log[|s.log|], t.log[|s.log| + 1]];
    }
  }
}
