/**
 The frontier_items table and the single SQL statements that
 internal/frontier/frontier.go runs against it. A row's id is its position:
 no statement of the frontier deletes a row.

 Each function below is one statement, hence atomic. Calls that consist of
 several statements (enqueue and Fail) are given statement by statement, so
 that other workers can be put in between.
 */
module FrontierTable {
  import opened Basics

  datatype Status = Pending | InFlight | Done | Failed

  datatype Kind = PageFetch | HostProbe | CatalogFetch | ArtifactFetch | RegistryHarvest

  datatype Provenance = Provenance(
    parentCatalog: Option<nat>,
    artifactEntry: Option<nat>,
    registryEntry: Option<nat>,
    registryCatalog: Option<nat>,
    registryRow: Option<nat>,
    probeMethod: string)

  /** What a caller hands to enqueue. */
  datatype Item = Item(kind: Kind, url: string, host: string, depth: nat, priority: int,
                       key: string, runId: nat, prov: Provenance)

  datatype Row = Row(kind: Kind, url: string, host: string, depth: nat, priority: int,
                     key: string, runId: nat, prov: Provenance,
                     shard: nat, status: Status, attempts: nat, lastError: string,
                     lease: Option<int>, worker: string)

  type Table = seq<Row>

  predicate Finished(s: Status) { s.Done? || s.Failed? }

  // -- Host sharding ---------------------------------------------------------

  const HostShardCount: nat := 8192

  /** Exclusive or, bit by bit. */
  function Xor(a: nat, b: nat): nat {
    if a == 0 && b == 0 then 0 else (if a % 2 == b % 2 then 0 else 1) + 2 * Xor(a / 2, b / 2)
  }

  /** 32-bit FNV-1a over the bytes of s; each char stands for one byte. */
  function Fnv1a(s: string): nat {
    if s == "" then 2166136261
    else Xor(Fnv1a(s[..|s| - 1]), s[|s| - 1] as int) * 16777619 % 0x1_0000_0000
  }

  function HostShard(host: string): (n: nat)
    ensures n < HostShardCount
  {
    Fnv1a(host) % HostShardCount
  }

  /** hostname gives the hostname of a URL, and "" when it does not parse or has none. */
  function FetchHost(url: string, host: string, hostname: string -> string): string {
    if url != "" && hostname(url) != "" then hostname(url) else host
  }

  // -- Rows --------------------------------------------------------------------

  function NewRow(item: Item, hostname: string -> string): Row {
    Row(item.kind, item.url, item.host, item.depth, item.priority, item.key, item.runId, item.prov,
        HostShard(FetchHost(item.url, item.host, hostname)), Pending, 0, "", None, "")
  }

  /** leaseReleaseUpdates: every statement that takes a row out of in_flight uses it. */
  function Released(r: Row, s: Status): Row {
    r.(status := s, lease := None, worker := "")
  }

  /** Re-activation adopts the new depth, run and provenance; url, host and shard stay. */
  function Reactivated(r: Row, item: Item): Row {
    Released(r, Pending).(attempts := 0, lastError := "", runId := item.runId,
                          depth := item.depth, prov := item.prov)
  }

  predicate RowOk(r: Row, hostname: string -> string) {
    && (r.lease.Some? <==> r.status.InFlight?)
    && (!r.status.InFlight? ==> r.worker == "")
    && r.shard == HostShard(FetchHost(r.url, r.host, hostname))
  }

  ghost predicate KeysUnique(t: Table) {
    forall i, j :: 0 <= i < j < |t| ==> t[i].key != t[j].key
  }

  /** The unique index on dedup_key, the lease fields and the shard of every row. */
  ghost predicate TableOk(t: Table, hostname: string -> string) {
    && KeysUnique(t)
    && forall i :: 0 <= i < |t| ==> RowOk(t[i], hostname)
  }

  predicate KeyIn(t: Table, key: string) {
    exists i :: 0 <= i < |t| && t[i].key == key
  }

  /** Rows keep their place and their key whatever the others do. */
  ghost predicate KeysKept(t: Table, u: Table) {
    |t| <= |u| && forall i :: 0 <= i < |t| ==> u[i].key == t[i].key
  }

  function FindKey(t: Table, key: string): (r: Option<nat>)
    ensures r.None? <==> !KeyIn(t, key)
    ensures r.Some? ==> r.value < |t| && t[r.value].key == key
  {
    if t == [] then None
    else if t[0].key == key then assert KeyIn(t, key); Some(0)
    else
      var rest := FindKey(t[1..], key);
      assert forall i :: 0 <= i < |t| - 1 ==> t[1..][i] == t[i + 1];
      assert KeyIn(t, key) ==> KeyIn(t[1..], key) by {
        if KeyIn(t, key) {
          var i :| 0 <= i < |t| && t[i].key == key;
          assert t[1..][i - 1].key == key;
        }
      }
      if rest.Some? then Some(rest.value + 1) else None
  }

  function IsHostKind(host: string, kind: Kind): Row -> nat {
    (r: Row) => if r.host == host && r.kind == kind then 1 else 0
  }

  function CountHostKind(t: Table, host: string, kind: Kind): nat {
    Sum(t, IsHostKind(host, kind))
  }

  // -- enqueue, statement by statement -------------------------------------------

  /** One call of enqueue; budget < 0 means no budget. */
  datatype Call = Call(item: Item, budget: int, reDone: bool, reFailed: bool)

  function EnqueueCall(item: Item): Call { Call(item, -1, true, true) }
  function EnsureCall(item: Item): Call { Call(item, -1, false, false) }
  function ResumeCall(item: Item): Call { Call(item, -1, false, true) }
  function BudgetedCall(item: Item, budget: int): Call { Call(item, budget, true, true) }

  /** The statement a call is about to run. */
  datatype At = Count | Probe | Create | Lookup | Update(id: nat, seen: Status)

  datatype Next = Continue(at: At) | Return(added: bool)

  function FirstStatement(c: Call): At {
    if c.budget >= 0 then Count else Create
  }

  /** One statement of enqueue: the new table, and what the call does next. */
  function EnqueueStep(t: Table, c: Call, at: At, hostname: string -> string): (Table, Next) {
    match at
    case Count =>
      (t, Continue(if CountHostKind(t, c.item.host, c.item.kind) >= c.budget then Probe else Create))
    case Probe =>
      (t, if FindKey(t, c.item.key).Some? then Continue(Create) else Return(false))
    case Create =>
      if FindKey(t, c.item.key).Some? then (t, Continue(Lookup))
      else (t + [NewRow(c.item, hostname)], Return(true))
    case Lookup =>
      (match FindKey(t, c.item.key)
       case None => (t, Return(false))
       case Some(id) =>
         var seen := t[id].status;
         if (seen.Done? && c.reDone) || (seen.Failed? && c.reFailed)
         then (t, Continue(Update(id, seen)))
         else (t, Return(false)))
    case Update(id, seen) =>
      if id < |t| && t[id].status == seen
      then (t[id := Reactivated(t[id], c.item)], Return(true))
      else (t, Return(false))
  }

  /** What is known of a call that waits at a statement, whatever the others do. */
  ghost predicate CallOk(t: Table, c: Call, at: At) {
    && (at.Update? ==>
          && at.id < |t|
          && t[at.id].key == c.item.key
          && ((at.seen.Done? && c.reDone) || (at.seen.Failed? && c.reFailed)))
    && ((at.Probe? || at.Count?) ==> c.budget >= 0)
  }

  // -- The other statements -------------------------------------------------------

  predicate Owns(t: Table, id: nat, worker: string) {
    id < |t| && t[id].status.InFlight? && t[id].worker == worker
  }

  function LeaseRow(r: Row, worker: string, until: int): Row {
    r.(status := InFlight, lease := Some(until), worker := worker)
  }

  predicate Eligible(r: Row, count: nat, index: nat) {
    r.status.Pending? && (count > 1 ==> r.shard % count == index)
  }

  /** Dequeue's UPDATE for the ids its SELECT returned. */
  function LeaseAll(t: Table, ids: seq<nat>, worker: string, until: int): (r: Table)
    requires forall k :: 0 <= k < |ids| ==> ids[k] < |t|
    ensures |r| == |t|
    ensures forall i :: 0 <= i < |t| ==> r[i] == if i in ids then LeaseRow(t[i], worker, until) else t[i]
    decreases |ids|
  {
    if ids == [] then t
    else
      var t1 := LeaseAll(t[ids[0] := LeaseRow(t[ids[0]], worker, until)], ids[1..], worker, until);
      assert forall i :: 0 <= i < |t| ==> (i in ids <==> i == ids[0] || i in ids[1..]);
      t1
  }

  function CompleteRow(t: Table, id: nat, worker: string): Table {
    if Owns(t, id, worker) then t[id := Released(t[id], Done)] else t
  }

  function RequeueRow(t: Table, id: nat, worker: string): Table {
    if Owns(t, id, worker) then t[id := Released(t[id], Pending)] else t
  }

  /** Fail's guarded write; attempts is one more than what its earlier read saw. */
  function FailRow(t: Table, id: nat, worker: string, attempts: nat, maxAttempts: int, message: string): Table {
    if Owns(t, id, worker)
    then t[id := Released(t[id], FailStatus(attempts, maxAttempts)).(attempts := attempts, lastError := message)]
    else t
  }

  function FailStatus(attempts: nat, maxAttempts: int): Status {
    if attempts >= maxAttempts then Failed else Pending
  }

  predicate Expired(r: Row, now: int) {
    r.status.InFlight? && r.lease.Some? && r.lease.value < now
  }

  function ReclaimExpired(t: Table, now: int): (r: Table)
    ensures |r| == |t|
    ensures forall i :: 0 <= i < |t| ==> r[i] == if Expired(t[i], now) then Released(t[i], Pending) else t[i]
  {
    seq(|t|, i requires 0 <= i < |t| => if Expired(t[i], now) then Released(t[i], Pending) else t[i])
  }

  function ReclaimInFlight(t: Table): (r: Table)
    ensures |r| == |t|
    ensures forall i :: 0 <= i < |t| ==> r[i] == if t[i].status.InFlight? then Released(t[i], Pending) else t[i]
  {
    seq(|t|, i requires 0 <= i < |t| => if t[i].status.InFlight? then Released(t[i], Pending) else t[i])
  }

  function HasStatus(s: Status): Row -> nat {
    (r: Row) => if r.status == s then 1 else 0
  }

  function CountStatus(t: Table, s: Status): nat {
    Sum(t, HasStatus(s))
  }

  /** Nothing pending and nothing in flight. */
  ghost predicate Drained(t: Table) {
    forall i :: 0 <= i < |t| ==> Finished(t[i].status)
  }

  lemma {:induction false} CountZero(t: Table, s: Status)
    ensures CountStatus(t, s) == 0 <==> forall i :: 0 <= i < |t| ==> t[i].status != s
  {
    if t != [] {
      CountZero(t[1..], s);
      assert forall i :: 1 <= i < |t| ==> t[i] == t[1..][i - 1];
    }
  }

  /** The single-statement snapshot of Counts reads (0, 0) exactly on a drained table. */
  lemma CountsReadDrained(t: Table)
    ensures CountStatus(t, Pending) == 0 && CountStatus(t, InFlight) == 0 <==> Drained(t)
  {
    CountZero(t, Pending);
    CountZero(t, InFlight);
  }
}
