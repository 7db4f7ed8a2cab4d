/** The two background passes that advance order status. Each pass reads
    the clock once (`now` is a parameter), queries the eligible orders,
    rewrites their status one by one in its session while counting them, and
    commits only when the count is positive; a storage error rolls the whole
    pass back. */
module OrderProcessor {
  import opened OrderModel
  import Orders

  /** Minimum dwell, in seconds, before a pending order is picked up. */
  const ProcessingDwell: int := 60
  /** Minimum dwell, in seconds, before a processing order is completed. */
  const CompletionDwell: int := 120

  /** The two passes: pending to processing, processing to completed. */
  datatype Pass = ProcessPass | CompletePass

  /** The status a pass selects on. */
  function Source(p: Pass): (s: string) {
    match p
    case ProcessPass => Pending
    case CompletePass => Processing
  }

  /** The status a pass writes. */
  function Target(p: Pass): (s: string) {
    match p
    case ProcessPass => Processing
    case CompletePass => Completed
  }

  /** The query filter of a pass: the first pass takes pending orders created
      at least a minute ago, the second processing orders last updated at
      least two minutes ago. */
  predicate Eligible(p: Pass, o: Order, now: int) {
    match p
    case ProcessPass => o.status == Pending && o.createdAt <= now - ProcessingDwell
    case CompletePass => o.status == Processing && o.updatedAt <= now - CompletionDwell
  }

  /** How a pass ended: committed that many changes, found nothing (no
      commit), or rolled back after a storage error. */
  datatype JobRun = Committed(count: nat) | NothingToDo | RolledBack

  /** The ids a pass's query matches. */
  function DueIds(t: Table, p: Pass, now: int): (ids: set<int>) {
    set id | id in t && Eligible(p, t[id], now)
  }

  /** The ids below `n` a pass's query matches. */
  function DueIdsBelow(t: Table, p: Pass, now: int, n: int): (ids: set<int>) {
    set id | id in t && id < n && Eligible(p, t[id], now)
  }

  /** The query result: the matching ids in [0, n), ascending. */
  function QueryIds(t: Table, p: Pass, now: int, n: int): (ids: seq<int>)
    decreases n
  {
    if n <= 0 then []
    else
      QueryIds(t, p, now, n - 1)
      + (if n - 1 in t && Eligible(p, t[n - 1], now) then [n - 1] else [])
  }

  /** The table after a committed pass. */
  function AfterPass(t: Table, p: Pass, now: int): (r: Table) {
    map id | id in t :: if Eligible(p, t[id], now) then t[id].(status := Target(p)) else t[id]
  }

  /** The ids of the orders with status `s`. */
  function IdsWithStatus(t: Table, s: string): (ids: set<int>) {
    set id | id in t && t[id].status == s
  }

  /** The query result holds exactly the matching ids in [0, n). */
  lemma {:induction false} QueryIdsExactly(t: Table, p: Pass, now: int, n: int)
    ensures forall id :: id in QueryIds(t, p, now, n) <==>
                         id in t && 0 <= id < n && Eligible(p, t[id], now)
  {
    if n > 0 {
      QueryIdsExactly(t, p, now, n - 1);
    }
  }

  /** The query result is as long as the number of matches below `n`. */
  lemma {:induction false} QueryIdsCount(t: Table, p: Pass, now: int, n: int)
    requires forall id | id in t :: 0 <= id
    ensures |QueryIds(t, p, now, n)| == |DueIdsBelow(t, p, now, n)|
  {
    if n > 0 {
      QueryIdsCount(t, p, now, n - 1);
      var below := DueIdsBelow(t, p, now, n - 1);
      var extra := if n - 1 in t && Eligible(p, t[n - 1], now) then {n - 1} else {};
      forall id ensures id in DueIdsBelow(t, p, now, n) <==> id in below + extra {
      }
      assert DueIdsBelow(t, p, now, n) == below + extra;
      assert below !! extra;
    } else {
      forall id | id in DueIdsBelow(t, p, now, n) ensures false {
      }
      assert DueIdsBelow(t, p, now, n) == {};
    }
  }

  /** Moves every due pending order to processing and reports how many it
      moved. */
  method ProcessPendingOrders(store: Orders.OrderStore, now: int, storageFails: bool)
    returns (run: JobRun)
    requires store.Valid()
    modifies store
    ensures store.Valid() && store.nextId == old(store.nextId)
    ensures storageFails ==> run == RolledBack && store.orders == old(store.orders)
    ensures !storageFails ==> store.orders == AfterPass(old(store.orders), ProcessPass, now)
    ensures !storageFails ==>
              run == if |DueIds(old(store.orders), ProcessPass, now)| > 0
                     then Committed(|DueIds(old(store.orders), ProcessPass, now)|)
                     else NothingToDo
    ensures run == NothingToDo ==> store.orders == old(store.orders)
  {
    // The session: the query's result and the status writes staged on it.
    var snapshot := store.orders;
    var due := QueryIds(snapshot, ProcessPass, now, store.nextId);
    QueryIdsExactly(snapshot, ProcessPass, now, store.nextId);
    QueryIdsCount(snapshot, ProcessPass, now, store.nextId);
    var staged := snapshot;
    var count: nat := 0;
    for i := 0 to |due|
      invariant count == i
      invariant staged.Keys == snapshot.Keys
      invariant forall id | id in snapshot ::
                  staged[id] == if id in due[..i]
                                then snapshot[id].(status := Processing)
                                else snapshot[id]
    {
      var id := due[i];
      assert due[..i + 1] == due[..i] + [id];
      staged := staged[id := staged[id].(status := Processing)];
      count := count + 1;
    }
    SettlePass(snapshot, ProcessPass, now, store.nextId, due, staged);
    if storageFails {
      // The error handler rolls the session back: nothing staged is kept.
      run := RolledBack;
    } else if count > 0 {
      store.orders := staged;
      run := Committed(count);
    } else {
      run := NothingToDo;
    }
  }

  /** Moves every due processing order to completed and reports how many it
      moved. */
  method CompleteProcessingOrders(store: Orders.OrderStore, now: int, storageFails: bool)
    returns (run: JobRun)
    requires store.Valid()
    modifies store
    ensures store.Valid() && store.nextId == old(store.nextId)
    ensures storageFails ==> run == RolledBack && store.orders == old(store.orders)
    ensures !storageFails ==> store.orders == AfterPass(old(store.orders), CompletePass, now)
    ensures !storageFails ==>
              run == if |DueIds(old(store.orders), CompletePass, now)| > 0
                     then Committed(|DueIds(old(store.orders), CompletePass, now)|)
                     else NothingToDo
    ensures run == NothingToDo ==> store.orders == old(store.orders)
  {
    // The session: the query's result and the status writes staged on it.
    var snapshot := store.orders;
    var due := QueryIds(snapshot, CompletePass, now, store.nextId);
    QueryIdsExactly(snapshot, CompletePass, now, store.nextId);
    QueryIdsCount(snapshot, CompletePass, now, store.nextId);
    var staged := snapshot;
    var count: nat := 0;
    for i := 0 to |due|
      invariant count == i
      invariant staged.Keys == snapshot.Keys
      invariant forall id | id in snapshot ::
                  staged[id] == if id in due[..i]
                                then snapshot[id].(status := Completed)
                                else snapshot[id]
    {
      var id := due[i];
      assert due[..i + 1] == due[..i] + [id];
      staged := staged[id := staged[id].(status := Completed)];
      count := count + 1;
    }
    SettlePass(snapshot, CompletePass, now, store.nextId, due, staged);
    if storageFails {
      // The error handler rolls the session back: nothing staged is kept.
      run := RolledBack;
    } else if count > 0 {
      store.orders := staged;
      run := Committed(count);
    } else {
      run := NothingToDo;
    }
  }

  /** What a finished loop over the whole query result amounts to: the
      table after the pass, and a count equal to the number of matches. */
  lemma SettlePass(t: Table, p: Pass, now: int, n: int, due: seq<int>, t1: Table)
    requires WellKeyed(t) && forall id | id in t :: 0 < id < n
    requires due == QueryIds(t, p, now, n)
    requires forall id :: id in due <==> id in t && 0 <= id < n && Eligible(p, t[id], now)
    requires |due| == |DueIdsBelow(t, p, now, n)|
    requires t1.Keys == t.Keys
    requires forall id | id in t :: t1[id] == if id in due[..|due|] then t[id].(status := Target(p)) else t[id]
    ensures t1 == AfterPass(t, p, now)
    ensures |due| == |DueIds(t, p, now)|
    ensures WellKeyed(t1) && forall id | id in t1 :: 0 < id < n
    ensures |due| == 0 ==> t1 == t
  {
    assert due[..|due|] == due;
    forall id | id in t ensures t1[id] == AfterPass(t, p, now)[id] {
    }
    assert t1 == AfterPass(t, p, now);
    forall id | id in DueIdsBelow(t, p, now, n) ensures id in DueIds(t, p, now) {
    }
    forall id | id in DueIds(t, p, now) ensures id in DueIdsBelow(t, p, now, n) {
    }
    assert DueIdsBelow(t, p, now, n) == DueIds(t, p, now);
    if |due| == 0 {
      forall id | id in t ensures t1[id] == t[id] {
        assert id !in due;
      }
    }
  }

  /** A pass writes only the status of the orders it selects, leaves every
      other order alone, and never touches a completed or cancelled order. */
  lemma PassFrame(t: Table, p: Pass, now: int)
    ensures AfterPass(t, p, now).Keys == t.Keys
    ensures forall id | id in t ::
              AfterPass(t, p, now)[id] == t[id].(status := AfterPass(t, p, now)[id].status)
    ensures forall id | id in t :: AfterPass(t, p, now)[id] != t[id] <==> id in DueIds(t, p, now)
    ensures forall id | id in t && IsTerminal(t[id].status) :: AfterPass(t, p, now)[id] == t[id]
  {
  }

  /** Running a pass a second time with the same clock matches nothing and
      changes nothing. */
  lemma PassIdempotent(t: Table, p: Pass, now: int)
    ensures DueIds(AfterPass(t, p, now), p, now) == {}
    ensures AfterPass(AfterPass(t, p, now), p, now) == AfterPass(t, p, now)
  {
    var t1 := AfterPass(t, p, now);
    forall id | id in DueIds(t1, p, now) ensures false {
    }
  }

  /** A pass moves exactly its count of orders out of its source status and
      into its target status; no other status gains or loses an order. */
  lemma PassMovesCount(t: Table, p: Pass, now: int)
    ensures |IdsWithStatus(AfterPass(t, p, now), Source(p))|
            == |IdsWithStatus(t, Source(p))| - |DueIds(t, p, now)|
    ensures |IdsWithStatus(AfterPass(t, p, now), Target(p))|
            == |IdsWithStatus(t, Target(p))| + |DueIds(t, p, now)|
    ensures forall s | s != Source(p) && s != Target(p) ::
              IdsWithStatus(AfterPass(t, p, now), s) == IdsWithStatus(t, s)
  {
    var t1 := AfterPass(t, p, now);
    var due := DueIds(t, p, now);
    var src, dst := IdsWithStatus(t, Source(p)), IdsWithStatus(t, Target(p));
    forall id | id in due ensures id in src && id !in dst {
    }
    forall id ensures id in IdsWithStatus(t1, Source(p)) <==> id in src - due {
    }
    forall id ensures id in IdsWithStatus(t1, Target(p)) <==> id in dst + due {
    }
    assert IdsWithStatus(t1, Source(p)) == src - due;
    assert IdsWithStatus(t1, Target(p)) == dst + due;
    assert src == (src - due) + due;
    forall s | s != Source(p) && s != Target(p)
      ensures IdsWithStatus(t1, s) == IdsWithStatus(t, s)
    {
      forall id ensures id in IdsWithStatus(t1, s) <==> id in IdsWithStatus(t, s) {
      }
    }
  }

  /** The update writes a status with no transition check, so a completed or
      cancelled order set back to pending leaves the terminal states: it can
      be cancelled again, and the first pass picks it up once it is a minute
      old. */
  lemma PatchReopensTerminalOrder(o: Order, now: int)
    requires IsTerminal(o.status)
    requires o.createdAt <= now - ProcessingDwell
    ensures var r := Patched(o, OrderPatch(None, None, None, Some(Pending)));
            !IsTerminal(r.status) && Eligible(ProcessPass, r, now)
  {
  }
}
