/**
 The Frontier type itself: a handle of one worker on the shared table, whose
 methods run their statements one after the other. What happens between two
 statements of different workers is the subject of FrontierSystem.
 */
module Frontier {
  import opened Basics
  import opened FrontierTable
  import FrontierSystem
  import EnqueueRaces

  datatype Outcome = Applied | LeaseLost | NotFound

  datatype EnqueueResult = Added(added: bool) | EmptyKey

  /** The rows a database connection sees. */
  class Database {
    var rows: Table

    constructor ()
      ensures rows == []
    {
      rows := [];
    }
  }

  /** ORDER BY priority DESC, id ASC. */
  predicate Before(t: Table, a: nat, b: nat)
    requires a < |t| && b < |t|
  {
    t[a].priority > t[b].priority || (t[a].priority == t[b].priority && a < b)
  }

  /** ids is what the SELECT of Dequeue returns: the first n eligible rows in order. */
  ghost predicate IsSelection(t: Table, ids: seq<nat>, n: int, count: nat, index: nat) {
    && (forall k :: 0 <= k < |ids| ==> ids[k] < |t| && Eligible(t[ids[k]], count, index))
    && (forall j, k :: 0 <= j < k < |ids| ==> Before(t, ids[j], ids[k]))
    && |ids| <= Max(n, 0)
    && (forall i :: 0 <= i < |t| && Eligible(t[i], count, index) && i !in ids ==>
          |ids| == Max(n, 0) && forall k :: 0 <= k < |ids| ==> Before(t, ids[k], i))
  }

  /** The row at place k precedes every eligible row not selected before it. */
  lemma NextInOrder(t: Table, ids: seq<nat>, n: int, count: nat, index: nat, k: nat, x: nat)
    requires IsSelection(t, ids, n, count, index) && k < |ids|
    requires x < |t| && Eligible(t[x], count, index) && x !in ids[..k]
    ensures x == ids[k] || Before(t, ids[k], x)
  {
    assert forall m :: 0 <= m < k ==> ids[m] in ids[..k];
  }

  lemma {:induction false} SelectionsAgree(t: Table, a: seq<nat>, b: seq<nat>, n: int, count: nat, index: nat, k: nat)
    requires IsSelection(t, a, n, count, index) && IsSelection(t, b, n, count, index)
    requires k <= |a|
    ensures k <= |b| && a[..k] == b[..k]
  {
    if k > 0 {
      SelectionsAgree(t, a, b, n, count, index, k - 1);
      assert a[k - 1] !in a[..k - 1] by {
        assert forall m :: 0 <= m < k - 1 ==> Before(t, a[m], a[k - 1]);
      }
      assert b == b[..|b|];
      if k - 1 < |b| {
        assert b[k - 1] !in b[..k - 1] by {
          assert forall m :: 0 <= m < k - 1 ==> Before(t, b[m], b[k - 1]);
        }
        NextInOrder(t, a, n, count, index, k - 1, b[k - 1]);
        NextInOrder(t, b, n, count, index, k - 1, a[k - 1]);
      }
      assert a[..k] == a[..k - 1] + [a[k - 1]] && b[..k] == b[..k - 1] + [b[k - 1]];
    }
  }

  /** The order and the limit determine the selection, and it is a step any worker of FrontierSystem may take. */
  lemma SelectionUnique(t: Table, a: seq<nat>, b: seq<nat>, n: int, count: nat, index: nat)
    requires IsSelection(t, a, n, count, index) && IsSelection(t, b, n, count, index)
    ensures a == b
  {
    SelectionsAgree(t, a, b, n, count, index, |a|);
    SelectionsAgree(t, b, a, n, count, index, |b|);
  }

  lemma SelectionIsEnabled(s: FrontierSystem.State, ids: seq<nat>, n: int, worker: string, until: int, count: nat, index: nat)
    requires IsSelection(s.t, ids, n, count, index)
    ensures FrontierSystem.Enabled(s, FrontierSystem.Dequeue(worker, until, ids, count, index))
  {
    forall j, k | 0 <= j < k < |ids| ensures ids[j] != ids[k] {
      assert Before(s.t, ids[j], ids[k]);
    }
  }

  function IsExpired(now: int): Row -> nat {
    (r: Row) => if Expired(r, now) then 1 else 0
  }

  /** An undisturbed call: an empty key is refused, any other call has the effect of its mode. */
  ghost predicate Did(before: Table, item: Item, budget: int, reDone: bool, reFailed: bool, after: Table, r: EnqueueResult) {
    if item.key == "" then r == EmptyKey && after == before
    else r.Added? && EnqueueRaces.Effect(before, item, budget, reDone, reFailed, after, r.added)
  }

  /**
   A guarded statement that lets a row go: the row of this worker gets its new status
   and no lease, and with a cause one more attempt and that error; nothing else changes.
   */
  predicate Freed(before: Table, id: nat, worker: string, status: Status, cause: Option<string>, after: Table) {
    if id < |before| && before[id].status == InFlight && before[id].worker == worker then
      var r := before[id].(status := status, lease := None, worker := "");
      after == before[id := match cause case None => r case Some(e) => r.(attempts := r.attempts + 1, lastError := e)]
    else after == before
  }

  /** A pending row and the same row leased. */
  predicate TakenBy(worker: string, until: int, was: Row, r: Row) {
    was.status == Pending && r == was.(status := InFlight, lease := Some(until), worker := worker)
  }

  predicate LeaseOver(r: Row, now: int) {
    r.status == InFlight && r.lease.Some? && r.lease.value < now
  }

  /** The rows at these places are pending again, with the attempts they had. */
  predicate TakenBack(before: Table, ids: set<nat>, after: Table) {
    && |after| == |before|
    && forall i :: 0 <= i < |before| ==>
         after[i] == if i in ids then before[i].(status := Pending, lease := None, worker := "") else before[i]
  }

  lemma StatusCounted(t: Table, s: Status)
    ensures CountStatus(t, s) == |set i: nat | i < |t| && t[i].status == s|
  {
    SumCounts(t, HasStatus(s));
    assert Places(t, HasStatus(s)) == set i: nat | i < |t| && t[i].status == s;
  }

  lemma ExpiredCounted(t: Table, now: int)
    ensures Sum(t, IsExpired(now)) == |set i: nat | i < |t| && LeaseOver(t[i], now)|
  {
    SumCounts(t, IsExpired(now));
    assert Places(t, IsExpired(now)) == set i: nat | i < |t| && LeaseOver(t[i], now);
  }

  class Frontier {
    const db: Database
    const hostname: string -> string
    const leaseDuration: int
    const workerId: string
    const shardCount: nat
    const shardIndex: nat

    constructor (db: Database, hostname: string -> string, leaseDuration: int, workerId: string, shardCount: nat, shardIndex: nat)
      ensures this.db == db && this.hostname == hostname && this.leaseDuration == leaseDuration
      ensures this.workerId == workerId && this.shardCount == shardCount && this.shardIndex == shardIndex
    {
      this.db, this.hostname, this.leaseDuration := db, hostname, leaseDuration;
      this.workerId, this.shardCount, this.shardIndex := workerId, shardCount, shardIndex;
    }

    method Enqueue(item: Item) returns (r: EnqueueResult)
      modifies db
      ensures Did(old(db.rows), item, -1, true, true, db.rows, r)
    {
      r := Run(EnqueueCall(item));
    }

    method Ensure(item: Item) returns (r: EnqueueResult)
      modifies db
      ensures Did(old(db.rows), item, -1, false, false, db.rows, r)
    {
      r := Run(EnsureCall(item));
    }

    method Resume(item: Item) returns (r: EnqueueResult)
      modifies db
      ensures Did(old(db.rows), item, -1, false, true, db.rows, r)
    {
      r := Run(ResumeCall(item));
    }

    method EnqueueBudgeted(item: Item, maxRowsForHostKind: int) returns (r: EnqueueResult)
      modifies db
      ensures Did(old(db.rows), item, maxRowsForHostKind, true, true, db.rows, r)
    {
      r := Run(BudgetedCall(item, maxRowsForHostKind));
    }

    /** The shared enqueue: count, insert, and on a conflict read the row and re-activate it under a status guard. */
    method Run(c: Call) returns (r: EnqueueResult)
      modifies db
      ensures Did(old(db.rows), c.item, c.budget, c.reDone, c.reFailed, db.rows, r)
      ensures c.item.key != "" ==> (db.rows, r) == (EnqueueRaces.Enqueue(old(db.rows), c, hostname).0, Added(EnqueueRaces.Enqueue(old(db.rows), c, hostname).1))
    {
      hide EnqueueRaces.Effect, EnqueueRaces.Enqueue;
      if c.item.key == "" {
        return EmptyKey;
      }
      EnqueueRaces.EnqueueOutcome(db.rows, c, hostname);
      EnqueueRaces.EffectOfCall(db.rows, c, hostname);
      if c.budget >= 0 {
        var count := CountByHostKind(c.item.host, c.item.kind);
        if count >= c.budget && FindKey(db.rows, c.item.key).None? {
          return Added(false);
        }
      }
      var existing := FindKey(db.rows, c.item.key);
      if existing.None? {
        db.rows := db.rows + [NewRow(c.item, hostname)];
        return Added(true);
      }
      var id := existing.value;
      var seen := db.rows[id].status;
      if !Finished(seen) {
        return Added(false);
      }
      if seen.Done? && !c.reDone {
        return Added(false);
      }
      if seen.Failed? && !c.reFailed {
        return Added(false);
      }
      db.rows := db.rows[id := Reactivated(db.rows[id], c.item)];
      return Added(true);
    }

    method CountByHostKind(host: string, kind: Kind) returns (count: nat)
      ensures count == |set i: nat | i < |db.rows| && db.rows[i].host == host && db.rows[i].kind == kind|
      ensures count == CountHostKind(db.rows, host, kind)
    {
      count := 0;
      for i := |db.rows| downto 0
        invariant count == CountHostKind(db.rows[i..], host, kind)
      {
        if db.rows[i].host == host && db.rows[i].kind == kind {
          count := count + 1;
        }
        assert db.rows[i..][0] == db.rows[i] && db.rows[i..][1..] == db.rows[i + 1..];
      }
      assert db.rows[0..] == db.rows;
      EnqueueRaces.CountIsSize(db.rows, host, kind);
    }

    /** Leases the first n eligible rows for this worker and returns them as leased. */
    method Dequeue(n: int, now: int) returns (ids: seq<nat>, items: seq<Row>)
      modifies db
      ensures IsSelection(old(db.rows), ids, n, shardCount, shardIndex)
      ensures db.rows == LeaseAll(old(db.rows), ids, workerId, now + leaseDuration)
      ensures shardCount > 1 ==> forall k :: 0 <= k < |ids| ==> old(db.rows)[ids[k]].shard % shardCount == shardIndex
      ensures |db.rows| == |old(db.rows)|
      ensures forall i :: 0 <= i < |db.rows| && i !in ids ==> db.rows[i] == old(db.rows[i])
      ensures forall k :: 0 <= k < |ids| ==> TakenBy(workerId, now + leaseDuration, old(db.rows)[ids[k]], db.rows[ids[k]])
      ensures |items| == |ids| && forall k :: 0 <= k < |ids| ==> items[k] == db.rows[ids[k]]
    {
      ids := Select(n);
      db.rows := LeaseAll(db.rows, ids, workerId, now + leaseDuration);
      var rows := db.rows;
      items := seq(|ids|, k requires 0 <= k < |ids| => rows[ids[k]]);
    }

    method Select(n: int) returns (ids: seq<nat>)
      ensures IsSelection(db.rows, ids, n, shardCount, shardIndex)
    {
      var t := db.rows;
      ids := [];
      while |ids| < n
        invariant forall k :: 0 <= k < |ids| ==> ids[k] < |t| && Eligible(t[ids[k]], shardCount, shardIndex)
        invariant forall j, k :: 0 <= j < k < |ids| ==> Before(t, ids[j], ids[k])
        invariant |ids| <= Max(n, 0)
        invariant forall i, k :: 0 <= i < |t| && 0 <= k < |ids| && Eligible(t[i], shardCount, shardIndex) && i !in ids ==>
          Before(t, ids[k], i)
        decreases n - |ids|
      {
        var best := NextBest(ids);
        if best.None? {
          break;
        }
        ids := ids + [best.value];
      }
    }

    /** The eligible row outside `taken` that precedes all others. */
    method NextBest(taken: seq<nat>) returns (best: Option<nat>)
      ensures best.None? ==> forall i :: 0 <= i < |db.rows| && Eligible(db.rows[i], shardCount, shardIndex) ==> i in taken
      ensures best.Some? ==>
        && best.value < |db.rows| && best.value !in taken
        && Eligible(db.rows[best.value], shardCount, shardIndex)
        && forall i :: 0 <= i < |db.rows| && Eligible(db.rows[i], shardCount, shardIndex) && i !in taken && i != best.value ==>
             Before(db.rows, best.value, i)
    {
      best := None;
      for i := 0 to |db.rows|
        invariant best.None? ==> forall j :: 0 <= j < i && Eligible(db.rows[j], shardCount, shardIndex) ==> j in taken
        invariant best.Some? ==>
          && best.value < i && best.value !in taken
          && Eligible(db.rows[best.value], shardCount, shardIndex)
          && forall j :: 0 <= j < i && Eligible(db.rows[j], shardCount, shardIndex) && j !in taken && j != best.value ==>
               Before(db.rows, best.value, j)
      {
        if Eligible(db.rows[i], shardCount, shardIndex) && i !in taken {
          if best.None? || db.rows[i].priority > db.rows[best.value].priority {
            best := Some(i);
          }
        }
      }
    }

    /** Why a guarded update matched nothing: the row is gone, or it is no longer ours. */
    function OwnershipLost(t: Table, id: nat): Outcome {
      if id >= |t| then NotFound else LeaseLost
    }

    method Complete(id: nat) returns (r: Outcome)
      modifies db
      ensures db.rows == CompleteRow(old(db.rows), id, workerId)
      ensures Freed(old(db.rows), id, workerId, Done, None, db.rows)
      ensures r == if Owns(old(db.rows), id, workerId) then Applied else OwnershipLost(old(db.rows), id)
    {
      if Owns(db.rows, id, workerId) {
        db.rows := db.rows[id := Released(db.rows[id], Done)];
        return Applied;
      }
      return OwnershipLost(db.rows, id);
    }

    method Requeue(id: nat) returns (r: Outcome)
      modifies db
      ensures db.rows == RequeueRow(old(db.rows), id, workerId)
      ensures Freed(old(db.rows), id, workerId, Pending, None, db.rows)
      ensures r == if Owns(old(db.rows), id, workerId) then Applied else OwnershipLost(old(db.rows), id)
    {
      if Owns(db.rows, id, workerId) {
        db.rows := db.rows[id := Released(db.rows[id], Pending)];
        return Applied;
      }
      return OwnershipLost(db.rows, id);
    }

    method Fail(id: nat, cause: string, maxAttempts: int) returns (r: Outcome, permanent: bool)
      modifies db
      ensures id < |old(db.rows)| ==>
        db.rows == FailRow(old(db.rows), id, workerId, old(db.rows)[id].attempts + 1, maxAttempts, cause)
      ensures Freed(old(db.rows), id, workerId,
                    if id < |old(db.rows)| && old(db.rows[id]).attempts + 1 >= maxAttempts then Failed else Pending, Some(cause), db.rows)
      ensures r == if Owns(old(db.rows), id, workerId) then Applied else OwnershipLost(old(db.rows), id)
      ensures permanent <==> r.Applied? && db.rows[id].status.Failed?
    {
      if id >= |db.rows| {
        return NotFound, false;
      }
      var attempts := db.rows[id].attempts + 1;
      var status := Pending;
      if attempts >= maxAttempts {
        status := Failed;
      }
      if !Owns(db.rows, id, workerId) {
        return OwnershipLost(db.rows, id), false;
      }
      db.rows := db.rows[id := Released(db.rows[id], status).(attempts := attempts, lastError := cause)];
      return Applied, status.Failed?;
    }

    method ReclaimExpiredLeases(now: int) returns (n: nat)
      modifies db
      ensures db.rows == ReclaimExpired(old(db.rows), now)
      ensures TakenBack(old(db.rows), (set i: nat | i < |old(db.rows)| && LeaseOver(old(db.rows[i]), now)), db.rows)
      ensures n == |set i: nat | i < |old(db.rows)| && LeaseOver(old(db.rows[i]), now)|
    {
      ghost var t := db.rows;
      n := 0;
      for i := |db.rows| downto 0
        invariant |db.rows| == |t|
        invariant forall j :: 0 <= j < i ==> db.rows[j] == t[j]
        invariant forall j :: i <= j < |t| ==> db.rows[j] == ReclaimExpired(t, now)[j]
        invariant n == Sum(t[i..], IsExpired(now))
      {
        if Expired(db.rows[i], now) {
          db.rows := db.rows[i := Released(db.rows[i], Pending)];
          n := n + 1;
        }
        assert t[i..][0] == t[i] && t[i..][1..] == t[i + 1..];
      }
      assert t[0..] == t;
      ExpiredCounted(t, now);
    }

    method ReclaimAll() returns (n: nat)
      modifies db
      ensures db.rows == ReclaimInFlight(old(db.rows))
      ensures TakenBack(old(db.rows), (set i: nat | i < |old(db.rows)| && old(db.rows[i]).status == InFlight), db.rows)
      ensures n == |set i: nat | i < |old(db.rows)| && old(db.rows[i]).status == InFlight|
    {
      ghost var t := db.rows;
      n := 0;
      for i := |db.rows| downto 0
        invariant |db.rows| == |t|
        invariant forall j :: 0 <= j < i ==> db.rows[j] == t[j]
        invariant forall j :: i <= j < |t| ==> db.rows[j] == ReclaimInFlight(t)[j]
        invariant n == CountStatus(t[i..], InFlight)
      {
        if db.rows[i].status.InFlight? {
          db.rows := db.rows[i := Released(db.rows[i], Pending)];
          n := n + 1;
        }
        assert t[i..][0] == t[i] && t[i..][1..] == t[i + 1..];
      }
      assert t[0..] == t;
      StatusCounted(t, InFlight);
    }

    /** One pass, one snapshot. */
    method Counts() returns (pending: nat, inFlight: nat)
      ensures pending == |set i: nat | i < |db.rows| && db.rows[i].status == Pending|
      ensures inFlight == |set i: nat | i < |db.rows| && db.rows[i].status == InFlight|
      ensures pending == 0 && inFlight == 0 <==> Drained(db.rows)
    {
      pending, inFlight := 0, 0;
      for i := |db.rows| downto 0
        invariant pending == CountStatus(db.rows[i..], Pending)
        invariant inFlight == CountStatus(db.rows[i..], InFlight)
      {
        match db.rows[i].status {
          case Pending => pending := pending + 1;
          case InFlight => inFlight := inFlight + 1;
          case _ =>
        }
        assert db.rows[i..][0] == db.rows[i] && db.rows[i..][1..] == db.rows[i + 1..];
      }
      assert db.rows[0..] == db.rows;
      CountsReadDrained(db.rows);
      StatusCounted(db.rows, Pending);
      StatusCounted(db.rows, InFlight);
    }
  }
}
