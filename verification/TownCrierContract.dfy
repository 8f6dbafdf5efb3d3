/** The TownCrier contract as an object that its calls update in place. */
module TownCrierContract {
  import opened ByteStrings
  import opened Wrappers
  import opened Escrow
  import opened EscrowRuns

  class TownCrier {
    const keccak: Keccak
    var balance: nat
    var requestCnt: uint64
    var requests: map<nat, Request>
    var log: seq<Event>
    var effects: seq<Effect>

    function Snapshot(): State
      reads this
    {
      Escrow.State.State(balance, requestCnt, requests, log, effects)
    }

    ghost predicate Valid()
      reads this
    {
      Inv(keccak, Snapshot())
    }

    constructor (keccak: Keccak, creator: Caller)
      ensures this.keccak == keccak && Snapshot() == Init(creator) && Valid()
      ensures requestCnt == 1 && Read(0).requester == creator && Read(0).fee == 0
      ensures balance == 0 && log == [] && effects == []
    {
      this.keccak := keccak;
      balance := 0;
      requestCnt := 1;
      requests := map[0 := EMPTY.(requester := creator)];
      log, effects := [], [];
      new;
      InitKeeps(keccak, creator);
    }

    function Read(id: nat): Request
      reads this
      ensures Read(id) == Snapshot().At(id)
    {
      if id in requests then requests[id] else EMPTY
    }

    /** `throw`: the call leaves everything as it was. */
    method Revert(to: State)
      requires to.requestCnt < TWO_64
      modifies this
      ensures Snapshot() == to
    {
      balance, requestCnt, requests, log, effects := to.balance, to.requestCnt, to.requests, to.log, to.effects;
    }

    method Emit(e: Event)
      modifies this`log
      ensures log == old(log) + [e]
    {
      log := log + [e];
    }

    method Send(id: nat, to: Address, amount: nat, accepts: bool) returns (sent: bool)
      modifies this`balance, this`effects
      ensures sent == old(Snapshot()).Send(id, to, amount, accepts).Some?
      ensures Snapshot() == if sent then old(Snapshot()).Send(id, to, amount, accepts).value else old(Snapshot())
    {
      sent := accepts && amount <= balance;
      if sent {
        balance := balance - amount;
        effects := effects + [PaidOut(id, to, amount)];
      }
    }

    method SetFee(id: nat, fee: nat)
      modifies this`requests
      ensures Snapshot() == old(Snapshot()).SetFee(id, fee)
    {
      requests := requests[id := Read(id).(fee := fee)];
    }

    method Request(sender: Caller, value: nat, requestType: byte, callbackAddr: Address, callbackFID: Bytes,
                   timestamp: nat, requestData: seq<Word>, accepts: bool)
      returns (outcome: Outcome)
      modifies this
      ensures (Snapshot(), outcome)
           == ExecRequest(keccak, old(Snapshot()),
                          DoRequest(sender, value, requestType, callbackAddr, callbackFID, timestamp, requestData, accepts))
    {
      var saved := Snapshot();
      balance := balance + value;
      if value < MIN_FEE || value > MAX_FEE {
        effects := effects + [PaidIn(0, sender, value)];
        Emit(RequestInfo(0, requestType, sender, value, callbackAddr, Zeros(32), timestamp, requestData));
        var sent := Send(0, sender, value, accepts);
        if !sent {
          Revert(saved);
          return Threw;
        }
        return Returned(0);
      }
      var requestId := requestCnt;
      effects := effects + [PaidIn(requestId, sender, value)];
      requestCnt := WrapUint64(requestCnt + 1);
      var paramsHash := keccak([requestType] + Flatten(requestData));
      requests := requests[requestId := Escrow.Request.Request(sender, value, callbackAddr, callbackFID, paramsHash)];
      Emit(RequestInfo(requestId, requestType, sender, value, callbackAddr, paramsHash, timestamp, requestData));
      return Returned(requestId);
    }

    method Deliver(sender: Caller, id: uint64, paramsHash: Word, error: uint64, respData: Word,
                   gasPrice: positive, accepts: bool, callback: Callback)
      returns (outcome: Outcome)
      requires Valid() && requestCnt + NumRequests(callback.calls) < TWO_64
      modifies this
      ensures (Snapshot(), outcome)
           == Exec(keccak, old(Snapshot()), DoDeliver(sender, id, paramsHash, error, respData, gasPrice, accepts, callback))
      ensures Valid() && Evolves(old(Snapshot()), Snapshot())
      ensures requestCnt <= old(requestCnt) + NumRequests(callback.calls)
      decreases callback, 1
    {
      ghost var c := DoDeliver(sender, id, paramsHash, error, respData, gasPrice, accepts, callback);
      ghost var before := Snapshot();
      ExecKeeps(keccak, before, Exec(keccak, before, c).0, c);
      var settlement := Settle(sender, id, paramsHash, error, respData, gasPrice, accepts, callback);
      if settlement.Threw? {
        return Threw;
      }
      if settlement == Returned(0) {
        return Returned(0);
      }
      var beforeCallback := Snapshot();
      SettleKeeps(keccak, before, beforeCallback, c);
      Execute(callback.calls);
      if !callback.succeeds {
        Revert(beforeCallback);
      }
      return Returned(0);
    }

    /** `deliver` up to the callback; returns 1 if the callback is still to be made. */
    method Settle(sender: Caller, id: uint64, paramsHash: Word, error: uint64, respData: Word,
                  gasPrice: positive, accepts: bool, ghost callback: Callback)
      returns (outcome: Outcome)
      modifies this`balance, this`requests, this`log, this`effects
      ensures var c := DoDeliver(sender, id, paramsHash, error, respData, gasPrice, accepts, callback);
        match Escrow.Settle(old(Snapshot()), c)
        case Aborted => outcome == Threw && Snapshot() == old(Snapshot())
        case Closed(s) => outcome == Returned(0) && Snapshot() == s
        case Pending(s) => outcome == Returned(1) && Snapshot() == s
    {
      var fee := Read(id).fee;
      if sender != SGX_ADDRESS || Read(id).requester == 0 || fee == DELIVERED_FEE_FLAG {
        Emit(DeliverInfo(id, fee, gasPrice, 0, paramsHash, error, respData));
        return Returned(0);
      } else if Read(id).paramsHash != paramsHash {
        Emit(DeliverInfo(id, fee, gasPrice, 0, paramsHash, error, respData));
        return Returned(0);
      } else if fee == CANCELLED_FEE_FLAG {
        var paid := Send(id, SGX_ADDRESS, CANCELLATION_FEE, accepts);
        if !paid {
          return Threw;
        }
        SetFee(id, DELIVERED_FEE_FLAG);
        return Returned(0);
      } else if fee == TC_CANCELLED_FLAG {
        Emit(DeliverInfo(id, fee, gasPrice, 0, paramsHash, error, respData));
        return Returned(0);
      }
      var sent := Send(id, SGX_ADDRESS, fee, accepts);
      if !sent {
        return Threw;
      }
      SetFee(id, DELIVERED_FEE_FLAG);
      var callbackGas := Sub256(fee, MIN_FEE) / gasPrice;
      Emit(DeliverInfo(id, fee, gasPrice, callbackGas, paramsHash, error, respData));
      var r := Read(id);
      effects := effects + [CalledBack(id, r.callbackAddr, r.callbackFID, error, respData)];
      return Returned(1);
    }

    method Cancel(sender: Caller, id: uint64, accepts: bool) returns (outcome: Outcome)
      modifies this
      ensures (Snapshot(), outcome) == ExecCancel(old(Snapshot()), DoCancel(sender, id, accepts))
    {
      var saved := Snapshot();
      var fee := Read(id).fee;
      Emit(Event.Cancel(id, sender, Read(id).requester, fee));
      if Read(id).requester == sender && fee >= CANCELLATION_FEE {
        var sent := Send(id, sender, fee - CANCELLATION_FEE, accepts);
        if !sent {
          Revert(saved);
          return Threw;
        }
        SetFee(id, CANCELLED_FEE_FLAG);
        Emit(Event.Cancel(id, sender, Read(id).requester, CANCELLED_FEE_FLAG));
        return Returned(1);
      } else if Read(id).requester == SGX_ADDRESS && fee > TC_CANCELLED_FLAG {
        var sent := Send(id, sender, fee, accepts);
        if !sent {
          Revert(saved);
          return Threw;
        }
        SetFee(id, TC_CANCELLED_FLAG);
        Emit(Event.Cancel(id, sender, Read(id).requester, TC_CANCELLED_FLAG));
        return Returned(1);
      } else {
        Emit(Event.Cancel(id, sender, Read(id).requester, -1));
        return Returned(0);
      }
    }

    /** A sequence of calls from outside, or from inside a callback. */
    method Execute(cs: Calls)
      requires Valid() && requestCnt + NumRequests(cs) < TWO_64
      modifies this
      ensures Snapshot() == Run(keccak, old(Snapshot()), cs)
      ensures Valid() && Evolves(old(Snapshot()), Snapshot())
      ensures requestCnt <= old(requestCnt) + NumRequests(cs)
      decreases cs, 0
    {
      ghost var before := Snapshot();
      RunKeeps(keccak, before, Run(keccak, before, cs), cs);
      match cs
      case Done =>
      case Then(c, rest) =>
        ghost var after := Exec(keccak, before, c).0;
        ExecKeeps(keccak, before, after, c);
        var outcome := ExecuteOne(c);
        Execute(rest);
    }

    method ExecuteOne(c: Call) returns (outcome: Outcome)
      requires Valid() && requestCnt + RequestsOf(c) < TWO_64
      modifies this
      ensures (Snapshot(), outcome) == Exec(keccak, old(Snapshot()), c)
      ensures Valid() && Evolves(old(Snapshot()), Snapshot())
      decreases c, 1
    {
      ghost var before := Snapshot();
      ExecKeeps(keccak, before, Exec(keccak, before, c).0, c);
      match c
      case DoRequest(sender, value, requestType, callbackAddr, callbackFID, timestamp, requestData, accepts) =>
        outcome := Request(sender, value, requestType, callbackAddr, callbackFID, timestamp, requestData, accepts);
      case DoDeliver(sender, id, paramsHash, error, respData, gasPrice, accepts, callback) =>
        outcome := Deliver(sender, id, paramsHash, error, respData, gasPrice, accepts, callback);
      case DoCancel(sender, id, accepts) =>
        outcome := Cancel(sender, id, accepts);
    }
  }
}
