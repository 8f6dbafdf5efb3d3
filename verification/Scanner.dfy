/** The older block scanner: a process that is killed and restarted at will over two database
    tables, the blocks it has scanned and the transaction nonces it has used. */
module Scanner {
  import opened Wrappers

  // ---- tables ----

  /** {0, ..., k} */
  function Upto(k: nat): (s: set<nat>)
    ensures forall i: nat :: i in s <==> i <= k
  {
    if k == 0 then {0} else Upto(k - 1) + {k}
  }

  lemma {:induction false} MaxExists(s: set<nat>) returns (m: nat)
    requires s != {}
    ensures m in s && forall x :: x in s ==> x <= m
    decreases |s|
  {
    var x :| x in s;
    if s == {x} {
      m := x;
    } else {
      var y := MaxExists(s - {x});
      assert forall z :: z in s ==> z == x || z in s - {x};
      m := if x < y then y else x;
    }
  }

  /** `SELECT MAX(...)` */
  ghost function MaxOf(s: set<nat>): (m: nat)
    ensures s != {} ==> m in s && forall x :: x in s ==> x <= m
  {
    if s == {} then 0
    else
      assert exists m :: m in s && forall x :: x in s ==> x <= m by {
        var m := MaxExists(s);
      }
      var m :| m in s && forall x :: x in s ==> x <= m;
      m
  }

  lemma {:induction false} MaxOfUpto(k: nat)
    ensures MaxOf(Upto(k)) == k
  {
    assert k in Upto(k);
  }

  ghost predicate NoGap(s: set<nat>) { s == Upto(MaxOf(s)) }

  lemma {:induction false} MaxInsert(s: set<nat>, n: nat)
    ensures MaxOf(s + {n}) == if n > MaxOf(s) then n else MaxOf(s)
  {
  }

  /** Exactly a row next to or among those that are there leaves no gap. */
  lemma {:induction false} GapIff(s: set<nat>, n: nat)
    requires NoGap(s)
    ensures NoGap(s + {n}) <==> n <= MaxOf(s) + 1
  {
    MaxInsert(s, n);
    if n > MaxOf(s) + 1 {
      assert n - 1 !in s + {n} && n - 1 in Upto(n);
    }
  }

  // ---- the world outside ----

  /** What happens when one log entry of a block is handled. */
  datatype Entry =
    | Malformed(message: string)   // reading the entry raises
    | Refused                      // the enclave returns an error
    | SendRaises(message: string)
    | SendFails                    // the node returns an error code
    | Accepted
    | KilledBefore
    | KilledAfterSend              // the node has the transaction, the table has not

  /** What happens when the next block is fetched. */
  datatype Fetch =
    | FilterRaises
    | FilterFails
    | LogsFail
    | LogsRaise(message: string)
    | Logs(entries: seq<Entry>)

  /** What happens in one round of the outer loop. */
  datatype Round =
    | NoBlockNumber
    | Highest(block: nat, fetches: seq<Fetch>)

  datatype Exit = Returned(code: int) | Killed | KilledUnrecorded

  // ---- one process, as a function ----

  /** What was done with a nonce: a transaction that the node accepted was sent under it, and then
      recorded or not, or an exception used it up. */
  datatype Act =
    | Sent(block: nat, index: nat, nonce: nat, recorded: bool)
    | UsedUp(nonce: nat)

  /** The maxima of both tables, and the scanner's past: what it did with nonces, the entries the
      enclave refused, and how many entries each scanned block had. */
  datatype Ledger = Ledger(
    lastScan: nat, lastNonce: nat, acts: seq<Act>, skipped: set<(nat, nat)>, sizes: seq<nat>)
  {
    function RecordNonce(n: nat): Ledger { if n > lastNonce then this.(lastNonce := n) else this }

    function RecordScan(block: nat, size: nat): Ledger {
      var d := if block > lastScan then this.(lastScan := block) else this;
      d.(sizes := sizes + [size])
    }
  }

  const FRESH := Ledger(0, 0, [], {}, [0])

  /** The tables and the process's own variables. */
  datatype Run = Run(db: Ledger, nextWanted: nat, nonce: nat, retry: nat)

  /** Where control goes: on with the next entry or block, to the same block again, or out. */
  datatype Control = Next | Again | Stop(exit: Exit)

  const NPOS: nat := 0xFFFF_FFFF_FFFF_FFFF

  /** `std::string::find` */
  function Find(s: string, pattern: string, i: nat): nat
    decreases |s| - i
  {
    if i + |pattern| > |s| then NPOS
    else if s[i..i + |pattern|] == pattern then i
    else Find(s, pattern, i + 1)
  }

  const TOO_LOW := "too low"
  const INVALID_SENDER := "invalid sender"

  function UseUp(r: Run): Run {
    r.(nonce := r.nonce + 1, db := r.db.(acts := r.db.acts + [UsedUp(r.nonce)]).RecordNonce(r.nonce + 1))
  }

  /** The catch block. The search results are used as truth values, so each test fails only for a
      message that starts with its pattern. */
  function Catch(r: Run, message: string): (Run, Control) {
    var r1 := if Find(message, TOO_LOW, 0) != 0 then UseUp(r) else r;
    if Find(message, INVALID_SENDER, 0) != 0 then (r1, Stop(Returned(-100)))
    else (r1.(retry := r1.retry + 1), Again)
  }

  function HandleEntry(r: Run, e: Entry, index: nat): (Run, Control) {
    var r1 := r.(nonce := r.db.lastNonce);
    var accepted := r1.db.(acts := r1.db.acts + [Sent(r.nextWanted, index, r1.nonce, e.Accepted?)]);
    match e
    case Malformed(message) => Catch(r, message)
    case Refused =>
      (r1.(retry := r1.retry + 1, db := r1.db.(skipped := r1.db.skipped + {(r.nextWanted, index)})), Next)
    case SendRaises(message) => Catch(r1, message)
    case SendFails => (r1, Stop(Returned(-1)))
    case Accepted => (r1.(nonce := r1.nonce + 1, db := accepted.RecordNonce(r1.nonce + 1)), Next)
    case KilledBefore => (r, Stop(Killed))
    case KilledAfterSend => (r1.(db := accepted), Stop(KilledUnrecorded))
  }

  function HandleEntries(r: Run, entries: seq<Entry>, i: nat): (Run, Control)
    requires i <= |entries|
    decreases |entries| - i
  {
    if i == |entries| then (r, Next)
    else
      var (r1, control) := HandleEntry(r, entries[i], i);
      if control == Next then HandleEntries(r1, entries, i + 1) else (r1, control)
  }

  function ScanBlock(r: Run, fetch: Fetch): (Run, Control) {
    match fetch
    case FilterRaises => (r.(retry := r.retry + 1), Again)
    case FilterFails => (r.(retry := 0), Stop(Returned(-1)))
    case LogsFail => (r.(retry := 1), Again)
    case LogsRaise(message) => Catch(r.(retry := 0), message)
    case Logs(entries) => ScanEntries(r.(retry := 0), entries)
  }

  /** Handles a block's entries and records the block. */
  function ScanEntries(r: Run, entries: seq<Entry>): (Run, Control) {
    var (r1, control) := HandleEntries(r, entries, 0);
    if control != Next then (r1, control)
    else
      var db := r1.db.RecordScan(r1.nextWanted, |entries|);
      (r1.(db := db, nextWanted := r1.nextWanted + 1, retry := 0), Next)
  }

  /** The inner loop; when nothing more is known to happen, the process is killed. */
  function ScanBlocks(r: Run, highest: nat, fetches: seq<Fetch>, i: nat): (Run, Control)
    requires i <= |fetches|
    decreases |fetches| - i
  {
    if r.nextWanted > highest then (r, Next)
    else if i == |fetches| then (r, Stop(Killed))
    else
      var (r1, control) := ScanBlock(r, fetches[i]);
      if control.Stop? then (r1, control) else ScanBlocks(r1, highest, fetches, i + 1)
  }

  function Loop(r: Run, rounds: seq<Round>, i: nat): (Run, Exit)
    requires i <= |rounds|
    decreases |rounds| - i
  {
    if r.retry >= 5 then (r, Returned(-1))
    else if i == |rounds| then (r, Killed)
    else
      var (r1, control) := OneRound(r, rounds[i]);
      if control.Stop? then (r1, control.exit) else Loop(r1, rounds, i + 1)
  }

  function OneRound(r: Run, round: Round): (Run, Control) {
    match round
    case NoBlockNumber => (r.(retry := r.retry + 1), Again)
    case Highest(block, fetches) => ScanBlocks(r.(retry := 0), block, fetches, 0)
  }

  function Start(db: Ledger): Run { Run(db, db.lastScan + 1, 0, 0) }

  function Process(db: Ledger, rounds: seq<Round>): (Ledger, Exit) {
    var (r, exit) := Loop(Start(db), rounds, 0);
    (r.db, exit)
  }

  /** One process after the other over the same database. */
  function Restarts(db: Ledger, processes: seq<seq<Round>>): Ledger
    decreases |processes|
  {
    if processes == [] then db else Restarts(Process(db, processes[0]).0, processes[1..])
  }

  // ---- what every process keeps ----

  /** The next block is the one after the last scanned, and the nonce in memory is at most the
      greatest recorded. */
  predicate Synced(r: Run) {
    && r.nextWanted == r.db.lastScan + 1
    && r.nonce <= r.db.lastNonce
    && |r.db.sizes| == r.db.lastScan + 1
  }

  /** Nothing is rewound or forgotten. */
  predicate Grows(d: Ledger, d': Ledger) {
    d.lastScan <= d'.lastScan && d.lastNonce <= d'.lastNonce && d.acts <= d'.acts && d.skipped <= d'.skipped
    && d.sizes <= d'.sizes
  }

  ghost predicate Handled(d: Ledger, block: nat, index: nat) {
    || (block, index) in d.skipped
    || (exists j :: 0 <= j < |d.acts| && d.acts[j].Sent? && d.acts[j].block == block && d.acts[j].index == index)
  }

  /** Every entry of every scanned block was answered or refused by the enclave. */
  ghost predicate AllHandled(d: Ledger) {
    forall block, index :: 0 <= block < |d.sizes| && 0 <= index < d.sizes[block] ==> Handled(d, block, index)
  }

  // ---- which nonces are sent twice ----

  /** No two accepted transactions have the same nonce. */
  ghost predicate NoRepeat(acts: seq<Act>) {
    forall i, j :: 0 <= i < j < |acts| && acts[i].Sent? && acts[j].Sent? ==> acts[i].nonce != acts[j].nonce
  }

  predicate Unrecorded(a: Act) { a.Sent? && !a.recorded }

  /** An exception used up the nonce of act `i` before act `j`. */
  ghost predicate ClearedBefore(acts: seq<Act>, i: nat, j: nat)
    requires i < |acts| && j <= |acts|
  {
    exists m :: i < m < j && acts[m] == UsedUp(acts[i].nonce)
  }

  /** No transaction is sent after an unrecorded one whose nonce no exception has used up meanwhile. */
  ghost predicate Cleared(acts: seq<Act>) {
    forall i, j :: 0 <= i < j < |acts| && Unrecorded(acts[i]) && acts[j].Sent? ==> ClearedBefore(acts, i, j)
  }

  /** The last transaction is unrecorded, and no exception has used up its nonce. */
  ghost predicate Pending(acts: seq<Act>) {
    exists i :: 0 <= i < |acts| && Dangling(acts, i)
  }

  ghost predicate Dangling(acts: seq<Act>, i: nat)
    requires i < |acts|
  {
    Unrecorded(acts[i]) && !ClearedBefore(acts, i, |acts|) && forall m :: i < m < |acts| ==> !acts[m].Sent?
  }

  /** The greatest recorded nonce, which the next transaction takes, has been sent under already. */
  ghost predicate Open(d: Ledger) {
    exists i :: 0 <= i < |d.acts| && d.acts[i].Sent? && d.acts[i].nonce == d.lastNonce
  }

  ghost predicate Ordered(d: Ledger) {
    && (forall i, j :: 0 <= i < j < |d.acts| && d.acts[i].Sent? && d.acts[j].Sent? ==> d.acts[i].nonce <= d.acts[j].nonce)
    && (forall i :: 0 <= i < |d.acts| && d.acts[i].Sent? ==> d.acts[i].nonce <= d.lastNonce)
  }

  /** Which nonces are sent twice, and whether the next one will be, shows in the acts alone. */
  ghost predicate Tracked(d: Ledger) {
    Ordered(d) && (Open(d) <==> Pending(d.acts)) && (NoRepeat(d.acts) <==> Cleared(d.acts))
  }

  lemma {:induction false} ClearedLonger(acts: seq<Act>, a: Act, i: nat, j: nat)
    requires i < |acts| && j <= |acts|
    ensures ClearedBefore(acts + [a], i, j) <==> ClearedBefore(acts, i, j)
    ensures ClearedBefore(acts + [a], i, |acts| + 1) <==> ClearedBefore(acts, i, |acts|) || a == UsedUp(acts[i].nonce)
  {
    var more := acts + [a];
    if ClearedBefore(acts, i, j) {
      var m :| i < m < j && acts[m] == UsedUp(acts[i].nonce);
      assert more[m] == acts[m];
    }
    if ClearedBefore(acts, i, |acts|) {
      var m :| i < m < |acts| && acts[m] == UsedUp(acts[i].nonce);
      assert more[m] == acts[m];
    }
    assert more[|acts|] == a;
  }

  /** A send adds a repetition exactly if one is pending. */
  lemma {:induction false} SentCleared(acts: seq<Act>, a: Act)
    requires a.Sent?
    ensures Cleared(acts + [a]) <==> Cleared(acts) && !Pending(acts)
    ensures Pending(acts + [a]) <==> !a.recorded
  {
    var more := acts + [a];
    forall i, j | 0 <= i < j < |acts|
      ensures ClearedBefore(more, i, j) <==> ClearedBefore(acts, i, j)
    {
      ClearedLonger(acts, a, i, j);
    }
    forall i | 0 <= i < |acts|
      ensures ClearedBefore(more, i, |acts|) <==> ClearedBefore(acts, i, |acts|)
    {
      ClearedLonger(acts, a, i, |acts|);
    }
    assert more[|acts|] == a;
    if Cleared(acts) && !Pending(acts) {
      forall i, j | 0 <= i < j < |more| && Unrecorded(more[i]) && more[j].Sent?
        ensures ClearedBefore(more, i, j)
      {
        if j == |acts| && !ClearedBefore(acts, i, |acts|) {
          NotDangling(acts, i);
        }
      }
    }
    if Cleared(more) {
      assert forall i, j :: 0 <= i < j < |acts| ==> more[i] == acts[i] && more[j] == acts[j];
      assert Cleared(acts);
    }
    if !a.recorded {
      assert Dangling(more, |acts|);
    }
  }

  /** If nothing dangles, an uncleared unrecorded send has a later send, and so is cleared after all. */
  lemma {:induction false} NotDangling(acts: seq<Act>, i: nat)
    requires i < |acts| && Unrecorded(acts[i]) && Cleared(acts) && !Pending(acts)
    ensures ClearedBefore(acts, i, |acts|)
  {
    assert !Dangling(acts, i);
    if m :| i < m < |acts| && acts[m].Sent? {
      assert ClearedBefore(acts, i, m);
      var k :| i < k < m && acts[k] == UsedUp(acts[i].nonce);
    }
  }

  lemma {:induction false} SentKeeps(d: Ledger, d': Ledger, a: Act)
    requires a.Sent? && a.nonce == d.lastNonce && d'.acts == d.acts + [a]
    requires d'.lastNonce == if a.recorded then d.lastNonce + 1 else d.lastNonce
    ensures Tracked(d) ==> Tracked(d')
    ensures Ordered(d) ==> (Open(d') <==> !a.recorded)
    ensures !a.recorded ==> Open(d')
    ensures Tracked(d) ==> (NoRepeat(d'.acts) <==> NoRepeat(d.acts) && !Pending(d.acts))
  {
    SentCleared(d.acts, a);
    assert d'.acts[|d.acts|] == a;
    assert forall i :: 0 <= i < |d.acts| ==> d'.acts[i] == d.acts[i];
    if Ordered(d) {
      assert NoRepeat(d'.acts) <==> NoRepeat(d.acts) && !Open(d);
    }
  }

  lemma {:induction false} UsedUpPending(acts: seq<Act>, n: nat)
    ensures Cleared(acts + [UsedUp(n)]) <==> Cleared(acts)
    ensures NoRepeat(acts + [UsedUp(n)]) <==> NoRepeat(acts)
    ensures Pending(acts + [UsedUp(n)]) <==> exists i :: 0 <= i < |acts| && Dangling(acts, i) && acts[i].nonce != n
  {
    var more := acts + [UsedUp(n)];
    forall i, j | 0 <= i < j < |acts|
      ensures ClearedBefore(more, i, j) <==> ClearedBefore(acts, i, j)
    {
      ClearedLonger(acts, UsedUp(n), i, j);
    }
    forall i | 0 <= i < |acts|
      ensures Dangling(more, i) <==> Dangling(acts, i) && acts[i].nonce != n
    {
      ClearedLonger(acts, UsedUp(n), i, |acts|);
      assert forall m :: i < m < |acts| ==> more[m] == acts[m];
    }
    assert forall i :: 0 <= i < |acts| ==> more[i] == acts[i];
    if Pending(more) {
      var i :| 0 <= i < |more| && Dangling(more, i);
      assert i < |acts|;
    }
  }

  lemma {:induction false} UsedUpKeeps(d: Ledger, d': Ledger, n: nat)
    requires n <= d.lastNonce && d'.acts == d.acts + [UsedUp(n)]
    requires d'.lastNonce == if n == d.lastNonce then n + 1 else d.lastNonce
    ensures Tracked(d) ==> Tracked(d') && (Open(d') <==> Open(d) && n != d.lastNonce)
  {
    UsedUpPending(d.acts, n);
    if Tracked(d) {
      OpenAfterUse(d, d', n);
      DanglingIsOpen(d);
    }
  }

  lemma {:induction false} OpenAfterUse(d: Ledger, d': Ledger, n: nat)
    requires Ordered(d) && n <= d.lastNonce && d'.acts == d.acts + [UsedUp(n)]
    requires d'.lastNonce == if n == d.lastNonce then n + 1 else d.lastNonce
    ensures Ordered(d') && (Open(d') <==> Open(d) && n != d.lastNonce)
  {
    assert forall i :: 0 <= i < |d.acts| ==> d'.acts[i] == d.acts[i];
  }

  lemma {:induction false} DanglingIsOpen(d: Ledger)
    requires Tracked(d)
    ensures forall i :: 0 <= i < |d.acts| && Dangling(d.acts, i) ==> d.acts[i].nonce == d.lastNonce
  {
    forall i | 0 <= i < |d.acts| && Dangling(d.acts, i)
      ensures d.acts[i].nonce == d.lastNonce
    {
      assert Pending(d.acts);
      var j :| 0 <= j < |d.acts| && d.acts[j].Sent? && d.acts[j].nonce == d.lastNonce;
    }
  }

  /** What a step from `r` to `t` does to the properties above. */
  ghost predicate Keeps(r: Run, t: Run, unrecorded: bool) {
    && Synced(t) && Grows(r.db, t.db)
    && (Tracked(r.db) ==> Tracked(t.db) && (unrecorded ==> Open(t.db)) && (!Open(r.db) ==> (Open(t.db) <==> unrecorded)))
    && (AllHandled(r.db) ==> AllHandled(t.db))
  }

  lemma {:induction false} HandledStays(d: Ledger, d': Ledger, block: nat, index: nat)
    requires Handled(d, block, index) && d.acts <= d'.acts && d.skipped <= d'.skipped
    ensures Handled(d', block, index)
  {
    if (block, index) !in d.skipped {
      var j :| 0 <= j < |d.acts| && d.acts[j].Sent? && d.acts[j].block == block && d.acts[j].index == index;
      assert d'.acts[j] == d.acts[j];
    }
  }

  lemma {:induction false} SameBlocks(d: Ledger, d': Ledger)
    requires d.acts <= d'.acts && d.skipped <= d'.skipped && d.sizes == d'.sizes
    ensures AllHandled(d) ==> AllHandled(d')
  {
    if AllHandled(d) {
      forall block, index | 0 <= block < |d'.sizes| && 0 <= index < d'.sizes[block]
        ensures Handled(d', block, index)
      {
        HandledStays(d, d', block, index);
      }
    }
  }

  lemma {:induction false} FindsLater(s: string, pattern: string, i: nat)
    requires i > 0
    ensures Find(s, pattern, i) != 0
    decreases |s| - i
  {
    if i + |pattern| <= |s| {
      FindsLater(s, pattern, i + 1);
    }
  }

  lemma {:induction false} FindsAtZero(s: string, pattern: string)
    ensures Find(s, pattern, 0) == 0 <==> pattern <= s
  {
    if |pattern| <= |s| {
      FindsLater(s, pattern, 1);
      assert s[0..|pattern|] == s[..|pattern|];
    }
  }

  /** An exception ends the process unless its message starts with "invalid sender", and uses up a
      nonce unless it starts with "too low". */
  lemma {:induction false} CatchOutcome(r: Run, message: string)
    ensures Catch(r, message).1 == Again <==> INVALID_SENDER <= message
    ensures Catch(r, message).1 != Again ==> Catch(r, message).1 == Stop(Returned(-100))
    ensures Catch(r, message).0.nonce == r.nonce <==> TOO_LOW <= message
  {
    FindsAtZero(message, TOO_LOW);
    FindsAtZero(message, INVALID_SENDER);
  }

  lemma {:induction false} CatchKeeps(r: Run, message: string)
    requires Synced(r)
    ensures Keeps(r, Catch(r, message).0, false)
    ensures Catch(r, message).1 != Next && Catch(r, message).1 != Stop(KilledUnrecorded)
  {
    SameBlocks(r.db, Catch(r, message).0.db);
    if Find(message, TOO_LOW, 0) != 0 {
      UsedUpKeeps(r.db, UseUp(r).db, r.nonce);
    }
  }

  lemma {:induction false} EntryKeeps(r: Run, e: Entry, index: nat, t: Run, control: Control)
    requires Synced(r) && (t, control) == HandleEntry(r, e, index)
    ensures Keeps(r, t, control == Stop(KilledUnrecorded)) && t.nextWanted == r.nextWanted
    ensures control == Next ==> Handled(t.db, r.nextWanted, index)
  {
    SameBlocks(r.db, t.db);
    match e
    case Malformed(message) => CatchKeeps(r, message);
    case SendRaises(message) => CatchKeeps(r.(nonce := r.db.lastNonce), message);
    case KilledAfterSend => SentKeeps(r.db, t.db, Sent(r.nextWanted, index, r.db.lastNonce, false));
    case Accepted =>
      SentKeeps(r.db, t.db, Sent(r.nextWanted, index, r.db.lastNonce, true));
      assert t.db.acts[|r.db.acts|] == Sent(r.nextWanted, index, r.db.lastNonce, true);
    case _ =>
  }

  lemma {:induction false} EntriesKeep(r: Run, entries: seq<Entry>, i: nat, t: Run, control: Control)
    requires Synced(r) && i <= |entries| && (t, control) == HandleEntries(r, entries, i)
    requires forall k :: 0 <= k < i ==> Handled(r.db, r.nextWanted, k)
    ensures Keeps(r, t, control == Stop(KilledUnrecorded)) && t.nextWanted == r.nextWanted
    ensures control == Next ==> forall k :: 0 <= k < |entries| ==> Handled(t.db, r.nextWanted, k)
    decreases |entries| - i
  {
    if i < |entries| {
      var (r1, control1) := HandleEntry(r, entries[i], i);
      EntryKeeps(r, entries[i], i, r1, control1);
      if control1 == Next {
        forall k | 0 <= k < i
          ensures Handled(r1.db, r.nextWanted, k)
        {
          HandledStays(r.db, r1.db, r.nextWanted, k);
        }
        EntriesKeep(r1, entries, i + 1, t, control);
      }
    }
  }

  lemma {:induction false} BlockKeeps(r: Run, fetch: Fetch, t: Run, control: Control)
    requires Synced(r) && (t, control) == ScanBlock(r, fetch)
    ensures Keeps(r, t, control == Stop(KilledUnrecorded))
  {
    match fetch
    case LogsRaise(message) =>
      CatchKeeps(r.(retry := 0), message);
    case Logs(entries) =>
      ScanEntriesKeeps(r.(retry := 0), entries, t, control);
    case _ =>
  }

  lemma {:induction false} ScanEntriesKeeps(r: Run, entries: seq<Entry>, t: Run, control: Control)
    requires Synced(r) && (t, control) == ScanEntries(r, entries)
    ensures Keeps(r, t, control == Stop(KilledUnrecorded))
  {
    var (r1, control1) := HandleEntries(r, entries, 0);
    EntriesKeep(r, entries, 0, r1, control1);
    if control1 == Next {
      ScanRecorded(r1, t, |entries|);
    }
  }

  lemma {:induction false} ScanRecorded(r: Run, t: Run, size: nat)
    requires Synced(r) && forall k :: 0 <= k < size ==> Handled(r.db, r.nextWanted, k)
    requires t == r.(db := r.db.RecordScan(r.nextWanted, size), nextWanted := r.nextWanted + 1, retry := 0)
    ensures Keeps(r, t, false)
  {
    if AllHandled(r.db) {
      forall block, index | 0 <= block < |t.db.sizes| && 0 <= index < t.db.sizes[block]
        ensures Handled(t.db, block, index)
      {
        assert block < |r.db.sizes| ==> t.db.sizes[block] == r.db.sizes[block];
        HandledStays(r.db, t.db, block, index);
      }
    }
  }

  lemma {:induction false} BlocksKeep(r: Run, highest: nat, fetches: seq<Fetch>, i: nat, t: Run, control: Control)
    requires Synced(r) && i <= |fetches| && (t, control) == ScanBlocks(r, highest, fetches, i)
    ensures Keeps(r, t, control == Stop(KilledUnrecorded))
    ensures control == Next ==> t.db.lastScan >= highest
    decreases |fetches| - i
  {
    if r.nextWanted <= highest && i < |fetches| {
      var (r1, control1) := ScanBlock(r, fetches[i]);
      BlockKeeps(r, fetches[i], r1, control1);
      if !control1.Stop? {
        BlocksKeep(r1, highest, fetches, i + 1, t, control);
      }
    }
  }

  lemma {:induction false} LoopKeeps(r: Run, rounds: seq<Round>, i: nat, t: Run, exit: Exit)
    requires Synced(r) && i <= |rounds| && (t, exit) == Loop(r, rounds, i)
    ensures Keeps(r, t, exit == KilledUnrecorded)
    decreases |rounds| - i
  {
    if r.retry < 5 && i < |rounds| {
      var (r1, control) := OneRound(r, rounds[i]);
      RoundKeeps(r, rounds[i], r1, control);
      if !control.Stop? {
        LoopKeeps(r1, rounds, i + 1, t, exit);
      }
    }
  }

  lemma {:induction false} RoundKeeps(r: Run, round: Round, t: Run, control: Control)
    requires Synced(r) && (t, control) == OneRound(r, round)
    ensures Keeps(r, t, control == Stop(KilledUnrecorded))
  {
    match round
    case NoBlockNumber =>
    case Highest(block, fetches) => BlocksKeep(r.(retry := 0), block, fetches, 0, t, control);
  }

  /** What holds of the database before, between and after processes. */
  ghost predicate Lawful(d: Ledger) { |d.sizes| == d.lastScan + 1 && AllHandled(d) && Tracked(d) }

  lemma {:induction false} FreshLawful()
    ensures Lawful(FRESH) && !Pending(FRESH.acts)
  {
  }

  /** A process rewinds nothing and leaves no scanned entry unhandled. Started with nothing pending, it
      ends with something pending exactly if it was killed between a send and its record. */
  lemma {:induction false} ProcessKeeps(d: Ledger, rounds: seq<Round>)
    requires Lawful(d)
    ensures var (d', exit) := Process(d, rounds);
      && Lawful(d') && Grows(d, d')
      && (exit == KilledUnrecorded ==> Pending(d'.acts))
      && (!Pending(d.acts) ==> (Pending(d'.acts) <==> exit == KilledUnrecorded))
  {
    var (t, exit) := Loop(Start(d), rounds, 0);
    LoopKeeps(Start(d), rounds, 0, t, exit);
  }

  /** A send repeats a nonce exactly if one is pending. */
  lemma {:induction false} SendRepeatsIff(r: Run, e: Entry, index: nat)
    requires Synced(r) && Tracked(r.db) && NoRepeat(r.db.acts) && (e.Accepted? || e.KilledAfterSend?)
    ensures NoRepeat(HandleEntry(r, e, index).0.db.acts) <==> !Pending(r.db.acts)
  {
    SentKeeps(r.db, HandleEntry(r, e, index).0.db, Sent(r.nextWanted, index, r.db.lastNonce, e.Accepted?));
  }

  /** Over any number of processes and kills: no gap, nothing rewound, no entry of a scanned block
      unhandled. No nonce is sent twice if and only if, after each send that was not recorded, an
      exception uses up its nonce before the next send. */
  lemma {:induction false} RestartsKeep(d: Ledger, processes: seq<seq<Round>>)
    requires Lawful(d)
    ensures var d' := Restarts(d, processes);
      Lawful(d') && Grows(d, d') && (NoRepeat(d'.acts) <==> Cleared(d'.acts))
    decreases |processes|
  {
    if processes != [] {
      ProcessKeeps(d, processes[0]);
      RestartsKeep(Process(d, processes[0]).0, processes[1..]);
    }
  }

  lemma {:induction false} TwoProcesses(d: Ledger, p: seq<Round>, rest: seq<seq<Round>>)
    ensures Restarts(d, [p] + rest) == Restarts(Process(d, p).0, rest)
  {
    assert ([p] + rest)[1..] == rest;
  }

  const KILLED: seq<Round> := [Highest(1, [Logs([KilledAfterSend])])]
  const RAISES: seq<Round> := [Highest(1, [LogsRaise("x")])]
  const SENDS: seq<Round> := [Highest(1, [Logs([Accepted])])]

  /** The process that is started after such a kill sends under the same nonce. */
  lemma {:induction false} KilledSendRepeats()
    ensures Restarts(FRESH, [KILLED] + [SENDS]).acts == [Sent(1, 0, 0, false), Sent(1, 0, 0, true)]
  {
    FirstKilled();
    TwoProcesses(FRESH, KILLED, [SENDS]);
    ThenSends(FRESH.(acts := [Sent(1, 0, 0, false)]));
  }

  /** If an exception comes in between, the next nonce is used. */
  lemma {:induction false} ExceptionClears()
    ensures Restarts(FRESH, [KILLED] + ([RAISES] + [SENDS])).acts == [Sent(1, 0, 0, false), UsedUp(0), Sent(1, 0, 1, true)]
  {
    FirstKilled();
    TwoProcesses(FRESH, KILLED, [RAISES] + [SENDS]);
    var d1 := FRESH.(acts := [Sent(1, 0, 0, false)]);
    TwoProcesses(d1, RAISES, [SENDS]);
    FindsAtZero("x", TOO_LOW);
    FindsAtZero("x", INVALID_SENDER);
    var d2 := d1.(acts := d1.acts + [UsedUp(0)], lastNonce := 1);
    assert Process(d1, RAISES).0 == d2 by {
      assert ScanBlock(Start(d1), LogsRaise("x")) == (UseUp(Start(d1)), Stop(Returned(-100)));
      assert UseUp(Start(d1)).db == d2;
    }
    ThenSends(d2);
  }

  lemma {:induction false} FirstKilled()
    ensures Process(FRESH, KILLED).0 == FRESH.(acts := [Sent(1, 0, 0, false)])
  {
    assert HandleEntries(Start(FRESH), [KilledAfterSend], 0).1 == Stop(KilledUnrecorded);
  }

  lemma {:induction false} ThenSends(d: Ledger)
    requires d.lastScan == 0
    ensures Restarts(d, [SENDS]).acts == d.acts + [Sent(1, 0, d.lastNonce, true)]
  {
    TwoProcesses(d, SENDS, []);
    assert [SENDS] + [] == [SENDS];
    var r1 := HandleEntry(Start(d), Accepted, 0).0;
    assert HandleEntries(r1, [Accepted], 1) == (r1, Next);
    assert HandleEntries(Start(d), [Accepted], 0) == (r1, Next);
  }

  // ---- giving up ----

  /** While the node cannot be reached, the process gives up after five attempts in a row. */
  lemma {:induction false} GivesUp(r: Run, rounds: seq<Round>, i: nat)
    requires i <= |rounds| && forall k :: i <= k < |rounds| ==> rounds[k].NoBlockNumber?
    ensures Loop(r, rounds, i).1 == (if r.retry + |rounds| - i >= 5 then Returned(-1) else Killed)
    ensures Loop(r, rounds, i).0.db == r.db
    decreases |rounds| - i
  {
    if r.retry < 5 && i < |rounds| {
      GivesUp(r.(retry := r.retry + 1), rounds, i + 1);
    }
  }

  /** Five rounds in a row in which the node cannot be reached. */
  ghost predicate FiveInARow(rounds: seq<Round>, i: nat) {
    exists j :: i <= j && j + 5 <= |rounds| && Unreachable(rounds, j, 5)
  }

  predicate Unreachable(rounds: seq<Round>, i: nat, n: nat)
    requires i + n <= |rounds|
  {
    forall k :: i <= k < i + n ==> rounds[k].NoBlockNumber?
  }

  /** The same, where the first few of the five may lie before `i`. */
  ghost predicate RunsOut(rounds: seq<Round>, i: nat, retry: nat)
    requires retry <= 5
  {
    (i + 5 - retry <= |rounds| && Unreachable(rounds, i, 5 - retry)) || FiveInARow(rounds, i)
  }

  lemma {:induction false} RunsOutStep(rounds: seq<Round>, i: nat, retry: nat)
    requires retry < 5 && i < |rounds|
    ensures rounds[i].NoBlockNumber? ==> (RunsOut(rounds, i, retry) <==> RunsOut(rounds, i + 1, retry + 1))
    ensures !rounds[i].NoBlockNumber? ==> (RunsOut(rounds, i, retry) <==> RunsOut(rounds, i + 1, 0))
  {
    if FiveInARow(rounds, i) {
      var j :| i <= j && j + 5 <= |rounds| && Unreachable(rounds, j, 5);
      if j == i {
        assert rounds[i].NoBlockNumber?;
        assert Unreachable(rounds, i + 1, 5 - (retry + 1));
      } else {
        assert FiveInARow(rounds, i + 1);
      }
    }
    if i + 5 - retry <= |rounds| && Unreachable(rounds, i, 5 - retry) {
      assert rounds[i].NoBlockNumber?;
      assert Unreachable(rounds, i + 1, 5 - (retry + 1));
    }
    if rounds[i].NoBlockNumber? && i + 1 + 5 - (retry + 1) <= |rounds| && Unreachable(rounds, i + 1, 5 - (retry + 1)) {
      assert Unreachable(rounds, i, 5 - retry);
    }
    if i + 1 + 5 <= |rounds| && Unreachable(rounds, i + 1, 5) {
      assert FiveInARow(rounds, i);
    }
  }

  predicate FetchFails(f: Fetch) { f.FilterRaises? || f.LogsFail? }

  /** While a block cannot be fetched, it goes on trying: the retry count is not looked at inside. */
  lemma {:induction false} NeverGivesUpInside(r: Run, highest: nat, fetches: seq<Fetch>, i: nat)
    requires i <= |fetches| && r.nextWanted <= highest
    requires forall k :: i <= k < |fetches| ==> FetchFails(fetches[k])
    ensures ScanBlocks(r, highest, fetches, i).1 == Stop(Killed)
    ensures ScanBlocks(r, highest, fetches, i).0.db == r.db
    decreases |fetches| - i
  {
    if i < |fetches| {
      assert FetchFails(fetches[i]);
      NeverGivesUpInside(ScanBlock(r, fetches[i]).0, highest, fetches, i + 1);
    }
  }

  // ---- where a process stops ----

  /** The enclave answers or refuses the entry, and an answer is sent. */
  predicate Passes(e: Entry) { e.Refused? || e.Accepted? }

  /** The first entry, from `i` on, that does not pass. */
  function FirstStop(entries: seq<Entry>, i: nat): Option<Entry>
    requires i <= |entries|
    decreases |entries| - i
  {
    if i == |entries| then None else if Passes(entries[i]) then FirstStop(entries, i + 1) else Some(entries[i])
  }

  /** Where control goes after an entry, and which nonce an exception uses up: while sending, the one
      of the transaction; before that, whatever is in memory. */
  lemma {:induction false} EntryControl(r: Run, e: Entry, index: nat)
    ensures var control := HandleEntry(r, e, index).1;
      && (control == Next <==> Passes(e))
      && (control == Stop(Returned(-1)) <==> e == SendFails)
      && (control == Stop(Killed) <==> e == KilledBefore)
      && (control == Stop(KilledUnrecorded) <==> e == KilledAfterSend)
      && (control == Again <==> (e.Malformed? || e.SendRaises?) && INVALID_SENDER <= e.message)
      && (control == Stop(Returned(-100)) <==> (e.Malformed? || e.SendRaises?) && !(INVALID_SENDER <= e.message))
    ensures var db := HandleEntry(r, e, index).0.db;
      && (e.SendRaises? && !(TOO_LOW <= e.message) ==>
            db == r.db.(acts := r.db.acts + [UsedUp(r.db.lastNonce)], lastNonce := r.db.lastNonce + 1))
      && (e.Malformed? && !(TOO_LOW <= e.message) ==>
            db == r.db.(acts := r.db.acts + [UsedUp(r.nonce)],
                        lastNonce := if r.nonce + 1 > r.db.lastNonce then r.nonce + 1 else r.db.lastNonce))
      && ((e.Malformed? || e.SendRaises?) && TOO_LOW <= e.message ==> db == r.db)
  {
    if e.Malformed? || e.SendRaises? {
      FindsAtZero(e.message, TOO_LOW);
      FindsAtZero(e.message, INVALID_SENDER);
    }
  }

  lemma {:induction false} EntriesControl(r: Run, entries: seq<Entry>, i: nat)
    requires i <= |entries|
    ensures HandleEntries(r, entries, i).1 == match FirstStop(entries, i) case None => Next case Some(e) => HandleEntry(r, e, i).1
    decreases |entries| - i
  {
    if i < |entries| {
      EntryControl(r, entries[i], i);
      if Passes(entries[i]) {
        var r1 := HandleEntry(r, entries[i], i).0;
        EntriesControl(r1, entries, i + 1);
        if FirstStop(entries, i + 1).Some? {
          EntryControl(r1, FirstStop(entries, i + 1).value, i + 1);
          EntryControl(r, FirstStop(entries, i + 1).value, i);
        }
      }
    }
  }

  /** For which blocks a process goes on, tries again, or exits, and with which code: the first entry
      that does not pass decides. */
  lemma {:induction false} FetchControl(r: Run, fetch: Fetch)
    ensures var control := ScanBlock(r, fetch).1;
      var stop := if fetch.Logs? then FirstStop(fetch.entries, 0) else None;
      var raised := if fetch.LogsRaise? then Some(fetch.message)
                    else if stop.Some? && (stop.value.Malformed? || stop.value.SendRaises?) then Some(stop.value.message) else None;
      && (control == Next <==> fetch.Logs? && stop.None?)
      && (control == Stop(Returned(-1)) <==> fetch.FilterFails? || stop == Some(SendFails))
      && (control == Stop(Returned(-100)) <==> raised.Some? && !(INVALID_SENDER <= raised.value))
      && (control == Again <==> FetchFails(fetch) || (raised.Some? && INVALID_SENDER <= raised.value))
      && (control == Stop(Killed) <==> stop == Some(KilledBefore))
      && (control == Stop(KilledUnrecorded) <==> stop == Some(KilledAfterSend))
  {
    match fetch
    case LogsRaise(message) => CatchOutcome(r.(retry := 0), message);
    case Logs(entries) =>
      EntriesControl(r.(retry := 0), entries, 0);
      if FirstStop(entries, 0).Some? {
        EntryControl(r.(retry := 0), FirstStop(entries, 0).value, 0);
        StopStops(entries, 0);
      }
    case _ =>
  }

  lemma {:induction false} StopStops(entries: seq<Entry>, i: nat)
    requires i <= |entries| && FirstStop(entries, i).Some?
    ensures !Passes(FirstStop(entries, i).value)
    decreases |entries| - i
  {
    if Passes(entries[i]) {
      StopStops(entries, i + 1);
    }
  }

  // ---- what a process gets done ----

  predicate AllPass(entries: seq<Entry>) { forall i :: 0 <= i < |entries| ==> Passes(entries[i]) }

  /** The transactions sent for a block's entries from `i` on: one nonce each for those accepted. */
  function ActsOf(entries: seq<Entry>, block: nat, i: nat, nonce: nat): seq<Act>
    requires i <= |entries|
    decreases |entries| - i
  {
    if i == |entries| then []
    else if entries[i].Accepted? then [Sent(block, i, nonce, true)] + ActsOf(entries, block, i + 1, nonce + 1)
    else ActsOf(entries, block, i + 1, nonce)
  }

  function RefusedIn(entries: seq<Entry>, block: nat, i: nat): set<(nat, nat)>
    requires i <= |entries|
    decreases |entries| - i
  {
    if i == |entries| then {}
    else (if entries[i].Refused? then {(block, i)} else {}) + RefusedIn(entries, block, i + 1)
  }

  /** The ledger after a block whose entries all pass. */
  function AfterBlock(d: Ledger, block: nat, entries: seq<Entry>): Ledger {
    var acts := ActsOf(entries, block, 0, d.lastNonce);
    Ledger(block, d.lastNonce + |acts|, d.acts + acts, d.skipped + RefusedIn(entries, block, 0), d.sizes + [|entries|])
  }

  function AfterBlocks(d: Ledger, block: nat, blocks: seq<seq<Entry>>): Ledger
    decreases |blocks|
  {
    if blocks == [] then d else AfterBlocks(AfterBlock(d, block, blocks[0]), block + 1, blocks[1..])
  }

  lemma {:induction false} EntriesDone(r: Run, entries: seq<Entry>, i: nat)
    requires i <= |entries| && AllPass(entries)
    ensures var (t, control) := HandleEntries(r, entries, i);
      var acts := ActsOf(entries, r.nextWanted, i, r.db.lastNonce);
      && control == Next && t.nextWanted == r.nextWanted
      && t.db == r.db.(lastNonce := r.db.lastNonce + |acts|, acts := r.db.acts + acts,
                       skipped := r.db.skipped + RefusedIn(entries, r.nextWanted, i))
    decreases |entries| - i
  {
    if i < |entries| {
      assert Passes(entries[i]);
      EntriesDone(HandleEntry(r, entries[i], i).0, entries, i + 1);
    }
  }

  lemma {:induction false} BlockDone(r: Run, entries: seq<Entry>)
    requires Synced(r) && AllPass(entries)
    ensures var (t, control) := ScanBlock(r, Logs(entries));
      && control == Next && t.nextWanted == r.nextWanted + 1 && t.retry == 0
      && t.db == AfterBlock(r.db, r.nextWanted, entries)
  {
    EntriesDone(r.(retry := 0), entries, 0);
  }

  /** The fetches that bring logs, among those from `i` on. */
  function LogsFrom(fetches: seq<Fetch>, i: nat): seq<seq<Entry>>
    requires i <= |fetches|
    decreases |fetches| - i
  {
    if i == |fetches| then []
    else (if fetches[i].Logs? then [fetches[i].entries] else []) + LogsFrom(fetches, i + 1)
  }

  /** Every fetch fails or brings entries that all pass. */
  predicate Good(fetches: seq<Fetch>) {
    forall i :: 0 <= i < |fetches| ==> FetchFails(fetches[i]) || (fetches[i].Logs? && AllPass(fetches[i].entries))
  }

  /** How many blocks are missing. */
  function Missing(next: nat, highest: nat): nat { if next > highest then 0 else highest + 1 - next }

  /** What the inner loop does: it handles the blocks that are fetched, in order, each as a whole, up to
      the highest; failed fetches in between change nothing. */
  lemma {:induction false} BlocksDone(r: Run, highest: nat, fetches: seq<Fetch>, i: nat)
    requires Synced(r) && i <= |fetches| && Good(fetches)
    ensures var (t, control) := ScanBlocks(r, highest, fetches, i);
      var blocks := LogsFrom(fetches, i);
      var missing := Missing(r.nextWanted, highest);
      var done := if |blocks| < missing then |blocks| else missing;
      && control == (if done == missing then Next else Stop(Killed))
      && t.db == AfterBlocks(r.db, r.nextWanted, blocks[..done]) && t.nextWanted == r.nextWanted + done
      && (control == Next && r.retry == 0 ==> t.retry == 0) && (control == Next && done > 0 ==> t.retry == 0)
    decreases |fetches| - i
  {
    if r.nextWanted <= highest && i < |fetches| {
      var blocks := LogsFrom(fetches, i);
      var (r1, control1) := ScanBlock(r, fetches[i]);
      BlockKeeps(r, fetches[i], r1, control1);
      if fetches[i].Logs? {
        BlockDone(r, fetches[i].entries);
        BlocksDone(r1, highest, fetches, i + 1);
        assert blocks[1..] == LogsFrom(fetches, i + 1);
        var missing := Missing(r1.nextWanted, highest);
        var done := if |blocks| - 1 < missing then |blocks| - 1 else missing;
        assert blocks[..done + 1][1..] == blocks[1..][..done];
      } else {
        BlocksDone(r1, highest, fetches, i + 1);
        assert blocks == LogsFrom(fetches, i + 1);
      }
    }
  }

  /** Whenever there are new blocks, all of them can be fetched, and all their entries pass. */
  predicate Served(rounds: seq<Round>, i: nat, next: nat)
    requires i <= |rounds|
    decreases |rounds| - i
  {
    i == |rounds| ||
    match rounds[i]
    case NoBlockNumber => Served(rounds, i + 1, next)
    case Highest(block, fetches) =>
      var missing := Missing(next, block);
      && (missing > 0 ==> Good(fetches) && |LogsFrom(fetches, 0)| >= missing)
      && Served(rounds, i + 1, next + missing)
  }

  /** The ledger after all new blocks. */
  function AfterRounds(d: Ledger, rounds: seq<Round>, i: nat, next: nat): Ledger
    requires i <= |rounds| && Served(rounds, i, next)
    decreases |rounds| - i
  {
    if i == |rounds| then d
    else
      match rounds[i]
      case NoBlockNumber => AfterRounds(d, rounds, i + 1, next)
      case Highest(block, fetches) =>
        var missing := Missing(next, block);
        var d1 := if missing == 0 then d else AfterBlocks(d, next, LogsFrom(fetches, 0)[..missing]);
        AfterRounds(d1, rounds, i + 1, next + missing)
  }

  lemma {:induction false} RoundDone(r: Run, block: nat, fetches: seq<Fetch>)
    requires Synced(r)
    requires Missing(r.nextWanted, block) > 0 ==> Good(fetches) && |LogsFrom(fetches, 0)| >= Missing(r.nextWanted, block)
    ensures var (t, control) := OneRound(r, Highest(block, fetches));
      var missing := Missing(r.nextWanted, block);
      && control == Next && t.retry == 0 && t.nextWanted == r.nextWanted + missing && Synced(t)
      && t.db == if missing == 0 then r.db else AfterBlocks(r.db, r.nextWanted, LogsFrom(fetches, 0)[..missing])
  {
    var (t, control) := OneRound(r, Highest(block, fetches));
    RoundKeeps(r, Highest(block, fetches), t, control);
    if Missing(r.nextWanted, block) > 0 {
      BlocksDone(r.(retry := 0), block, fetches, 0);
    }
  }

  lemma {:induction false} LoopDone(r: Run, rounds: seq<Round>, i: nat)
    requires Synced(r) && r.retry <= 5 && i <= |rounds| && Served(rounds, i, r.nextWanted)
    ensures Loop(r, rounds, i).1 == if RunsOut(rounds, i, r.retry) then Returned(-1) else Killed
    ensures !RunsOut(rounds, i, r.retry) ==> Loop(r, rounds, i).0.db == AfterRounds(r.db, rounds, i, r.nextWanted)
    decreases |rounds| - i
  {
    if r.retry < 5 && i < |rounds| {
      RunsOutStep(rounds, i, r.retry);
      match rounds[i]
      case NoBlockNumber =>
        LoopDone(r.(retry := r.retry + 1), rounds, i + 1);
      case Highest(block, fetches) =>
        RoundDone(r, block, fetches);
        LoopDone(OneRound(r, rounds[i]).0, rounds, i + 1);
    } else if r.retry == 5 {
      assert Unreachable(rounds, i, 0);
    }
  }

  /** As long as new blocks can be fetched and their entries pass, a process ends in one way only other
      than by being killed: after five rounds in a row in which the node cannot be reached. Otherwise it
      has scanned every block it was told of, and sent what was asked for in order. */
  lemma {:induction false} ProcessDone(d: Ledger, rounds: seq<Round>)
    requires |d.sizes| == d.lastScan + 1 && Served(rounds, 0, d.lastScan + 1)
    ensures Process(d, rounds).1 == if FiveInARow(rounds, 0) then Returned(-1) else Killed
    ensures !FiveInARow(rounds, 0) ==> Process(d, rounds).0 == AfterRounds(d, rounds, 0, d.lastScan + 1)
  {
    LoopDone(Start(d), rounds, 0);
    if 5 <= |rounds| && Unreachable(rounds, 0, 5) {
      assert FiveInARow(rounds, 0);
    }
  }

  /** An exception that comes before any entry is handled finds zero in memory: it uses up no nonce
      beyond the first. */
  lemma {:induction false} ExceptionAtStart(d: Ledger, block: nat, message: string)
    requires block > d.lastScan && !(TOO_LOW <= message)
    ensures Process(d, [Highest(block, [LogsRaise(message)])]).0
         == d.(acts := d.acts + [UsedUp(0)], lastNonce := if d.lastNonce == 0 then 1 else d.lastNonce)
  {
    var rounds := [Highest(block, [LogsRaise(message)])];
    CatchOutcome(Start(d), message);
    FindsAtZero(message, TOO_LOW);
    var (r1, control) := ScanBlock(Start(d), LogsRaise(message));
    if control == Again {
      assert ScanBlocks(r1, block, [LogsRaise(message)], 1) == (r1, Stop(Killed));
    }
    assert ScanBlocks(Start(d), block, [LogsRaise(message)], 0).0 == r1;
    assert Loop(Start(d), rounds, 0).0 == r1;
  }

  /** In particular while no new block comes. */
  lemma {:induction false} WaitingDone(d: Ledger, rounds: seq<Round>)
    requires |d.sizes| == d.lastScan + 1
    requires forall i :: 0 <= i < |rounds| && rounds[i].Highest? ==> rounds[i].block <= d.lastScan
    ensures Process(d, rounds).1 == if FiveInARow(rounds, 0) then Returned(-1) else Killed
  {
    WaitingServed(rounds, 0, d.lastScan);
    ProcessDone(d, rounds);
  }

  lemma {:induction false} WaitingServed(rounds: seq<Round>, i: nat, last: nat)
    requires i <= |rounds| && forall k :: 0 <= k < |rounds| && rounds[k].Highest? ==> rounds[k].block <= last
    ensures Served(rounds, i, last + 1)
    decreases |rounds| - i
  {
    if i < |rounds| {
      WaitingServed(rounds, i + 1, last);
    }
  }

  // ---- the process itself ----

  /** The two tables and the variables of the scanning loop. */
  class Monitor {
    var scans: set<nat>
    var nonces: set<nat>
    var nextWanted: nat
    var nonce: nat
    var retryN: nat
    ghost var acts: seq<Act>
    ghost var skipped: set<(nat, nat)>
    ghost var sizes: seq<nat>

    ghost function Db(): Ledger
      reads this
    {
      Ledger(MaxOf(scans), MaxOf(nonces), acts, skipped, sizes)
    }

    ghost function State(): Run
      reads this
    {
      Run(Db(), nextWanted, nonce, retryN)
    }

    /** Neither table has a gap. */
    ghost predicate Gapless()
      reads this
    {
      NoGap(scans) && NoGap(nonces)
    }

    /** A new database file. */
    constructor ()
      ensures Gapless() && Db() == FRESH && Lawful(Db())
    {
      scans, nonces := {0}, {0};
      nextWanted, nonce, retryN := 0, 0, 0;
      acts, skipped, sizes := [], {}, [0];
      new;
      assert {0} == Upto(0);
      MaxOfUpto(0);
      FreshLawful();
    }

    /** A row that is already there is replaced. */
    method RecordNonce(n: nat)
      modifies this`nonces
      ensures nonces == old(nonces) + {n} && Db() == old(Db()).RecordNonce(n)
      ensures old(NoGap(nonces)) ==> (NoGap(nonces) <==> n <= old(MaxOf(nonces)) + 1)
    {
      MaxInsert(nonces, n);
      if NoGap(nonces) {
        GapIff(nonces, n);
      }
      nonces := nonces + {n};
    }

    method RecordScan(block: nat, ghost size: nat)
      modifies this`scans, this`sizes
      ensures scans == old(scans) + {block} && Db() == old(Db()).RecordScan(block, size)
      ensures old(NoGap(scans)) ==> (NoGap(scans) <==> block <= old(MaxOf(scans)) + 1)
    {
      MaxInsert(scans, block);
      if NoGap(scans) {
        GapIff(scans, block);
      }
      scans := scans + {block};
      sizes := sizes + [size];
    }

    method GetLastNonce() returns (n: nat)
      requires nonces != {}
      ensures n == MaxOf(nonces)
    {
      assert MaxOf(nonces) in nonces;
      n :| n in nonces && forall x :: x in nonces ==> x <= n;
    }

    method GetLastScan() returns (block: nat)
      requires scans != {}
      ensures block == MaxOf(scans)
    {
      assert MaxOf(scans) in scans;
      block :| block in scans && forall x :: x in scans ==> x <= block;
    }

    /** Opening the database records zeros again; that changes nothing that is there. */
    method Init()
      requires Gapless()
      modifies this`scans, this`nonces
      ensures scans == old(scans) && nonces == old(nonces)
    {
      assert 0 in nonces && 0 in scans;
      nonces := nonces + {0};
      scans := scans + {0};
    }

    method HandleException(message: string) returns (control: Control)
      requires Gapless() && Synced(State())
      modifies this`nonces, this`nonce, this`retryN, this`acts
      ensures Gapless() && (State(), control) == Catch(old(State()), message)
    {
      if Find(message, TOO_LOW, 0) != 0 {
        acts := acts + [UsedUp(nonce)];
        nonce := nonce + 1;
        RecordNonce(nonce);
      }
      if Find(message, INVALID_SENDER, 0) != 0 {
        return Stop(Returned(-100));
      }
      retryN := retryN + 1;
      return Again;
    }

    method HandleLogEntry(e: Entry, index: nat) returns (control: Control)
      requires Gapless() && Synced(State())
      modifies this`nonces, this`nonce, this`retryN, this`acts, this`skipped
      ensures Gapless() && (State(), control) == HandleEntry(old(State()), e, index)
    {
      if e.KilledBefore? {
        return Stop(Killed);
      }
      if e.Malformed? {
        control := HandleException(e.message);
        return;
      }
      assert 0 in nonces;
      nonce := GetLastNonce();
      if e.Refused? {
        retryN := retryN + 1;
        skipped := skipped + {(nextWanted, index)};
        return Next;
      }
      if e.SendRaises? {
        control := HandleException(e.message);
        return;
      }
      if e.SendFails? {
        return Stop(Returned(-1));
      }
      acts := acts + [Sent(nextWanted, index, nonce, e.Accepted?)];
      if e.KilledAfterSend? {
        return Stop(KilledUnrecorded);
      }
      nonce := nonce + 1;
      RecordNonce(nonce);
      return Next;
    }

    method HandleLogs(entries: seq<Entry>) returns (control: Control)
      requires Gapless() && Synced(State())
      modifies this`nonces, this`nonce, this`retryN, this`acts, this`skipped
      ensures Gapless() && (State(), control) == HandleEntries(old(State()), entries, 0)
    {
      ghost var start := State();
      for i := 0 to |entries|
        invariant Gapless() && Synced(State())
        invariant HandleEntries(State(), entries, i) == HandleEntries(start, entries, 0)
      {
        ghost var before := State();
        control := HandleLogEntry(entries[i], i);
        EntryKeeps(before, entries[i], i, State(), control);
        if control != Next {
          return;
        }
      }
      return Next;
    }

    /** Fetches and handles the next block. */
    method ScanNext(fetch: Fetch) returns (control: Control)
      requires Gapless() && Synced(State())
      modifies this
      ensures Gapless() && (State(), control) == ScanBlock(old(State()), fetch)
    {
      if fetch.FilterRaises? {
        retryN := retryN + 1;
        return Again;
      }
      retryN := 0;
      match fetch
      case FilterFails =>
        return Stop(Returned(-1));
      case LogsFail =>
        retryN := retryN + 1;
        return Again;
      case LogsRaise(message) =>
        control := HandleException(message);
      case Logs(entries) =>
        control := ScanLogs(entries);
    }

    method ScanLogs(entries: seq<Entry>) returns (control: Control)
      requires Gapless() && Synced(State())
      modifies this
      ensures Gapless() && (State(), control) == ScanEntries(old(State()), entries)
    {
      ghost var before := State();
      control := HandleLogs(entries);
      EntriesKeep(before, entries, 0, State(), control);
      if control == Next {
        RecordScan(nextWanted, |entries|);
        nextWanted := nextWanted + 1;
        retryN := 0;
      }
    }

    /** Fetches up to the latest block. */
    method ScanUpTo(highest: nat, fetches: seq<Fetch>) returns (control: Control)
      requires Gapless() && Synced(State())
      modifies this
      ensures Gapless() && (State(), control) == ScanBlocks(old(State()), highest, fetches, 0)
    {
      ghost var start := State();
      var i := 0;
      while nextWanted <= highest
        invariant i <= |fetches| && Gapless() && Synced(State())
        invariant ScanBlocks(State(), highest, fetches, i) == ScanBlocks(start, highest, fetches, 0)
        decreases |fetches| - i
      {
        if i == |fetches| {
          return Stop(Killed);
        }
        ghost var before := State();
        control := ScanNext(fetches[i]);
        BlockKeeps(before, fetches[i], State(), control);
        if control.Stop? {
          return;
        }
        i := i + 1;
      }
      return Next;
    }

    /** Asks for the number of blocks and scans those that are new. */
    method ScanRound(round: Round) returns (control: Control)
      requires Gapless() && Synced(State())
      modifies this
      ensures Gapless() && (State(), control) == OneRound(old(State()), round)
    {
      if round.NoBlockNumber? {
        retryN := retryN + 1;
        return Again;
      }
      retryN := 0;
      control := ScanUpTo(round.block, round.fetches);
    }

    /** A process from its start to its end. */
    method MonitorLoop(rounds: seq<Round>) returns (exit: Exit)
      requires Gapless() && Lawful(Db())
      modifies this
      ensures Gapless() && Synced(State())
      ensures (Db(), exit) == Process(old(Db()), rounds)
    {
      Init();
      assert 0 in scans;
      nextWanted := GetLastScan();
      nextWanted := nextWanted + 1;
      nonce, retryN := 0, 0;
      ghost var start := State();
      var i := 0;
      while true
        invariant i <= |rounds| && Gapless() && Synced(State())
        invariant Loop(State(), rounds, i) == Loop(start, rounds, 0)
        decreases |rounds| - i
      {
        if retryN >= 5 {
          return Returned(-1);
        }
        if i == |rounds| {
          return Killed;
        }
        ghost var before := State();
        var control := ScanRound(rounds[i]);
        RoundKeeps(before, rounds[i], State(), control);
        if control.Stop? {
          return control.exit;
        }
        i := i + 1;
      }
    }
  }
}
