/**
 Many workers over one frontier table, as a transition system: any number of
 goroutines, each stopped between two SQL statements, and one step for every
 statement any of them (or a reclaimer) can run next.
 */
module FrontierSystem {
  import opened Basics
  import opened FrontierTable

  /** The item copy a handler works on, as Dequeue returned it. */
  datatype Held = Held(id: nat, kind: Kind, depth: nat)

  /** What a goroutine is in the middle of. */
  datatype Doing =
    | Working                                                     // handler code, no frontier call open
    | Calling(call: Call, at: At)                                 // inside enqueue
    | Failing(attempts: nat, maxAttempts: int, message: string)   // inside Fail, after its read
    | Gone                                                        // returned, or its process died

  /** held is None for a goroutine that seeds from outside; begun counts its enqueue calls. */
  datatype Proc = Proc(worker: string, held: Option<Held>, doing: Doing, begun: nat)

  datatype State = State(t: Table, procs: seq<Proc>)

  datatype Step =
    | Dequeue(worker: string, until: int, ids: seq<nat>, count: nat, index: nat)
    | Seed(worker: string)
    | Begin(p: nat, call: Call)
    | Advance(p: nat)
    | Complete(p: nat)
    | Requeue(p: nat)
    | FailRead(p: nat, maxAttempts: int, message: string)
    | FailWrite(p: nat)
    | Crash(p: nat)
    | Reclaim(clock: string, now: int)

  predicate Alive(s: State, p: nat) {
    p < |s.procs| && !s.procs[p].doing.Gone?
  }

  predicate Idle(s: State, p: nat) {
    p < |s.procs| && s.procs[p].doing.Working?
  }

  /** An idle handler, with the item it holds. */
  predicate Handling(s: State, p: nat) {
    Idle(s, p) && s.procs[p].held.Some?
  }

  ghost predicate Distinct(ids: seq<nat>) {
    forall i, j :: 0 <= i < j < |ids| ==> ids[i] != ids[j]
  }

  ghost predicate Enabled(s: State, step: Step) {
    match step
    case Dequeue(_, _, ids, count, index) =>
      && Distinct(ids)
      && forall k :: 0 <= k < |ids| ==> ids[k] < |s.t| && Eligible(s.t[ids[k]], count, index)
    case Seed(_) => true
    case Begin(p, call) => Idle(s, p) && call.item.key != ""
    case Advance(p) => Alive(s, p) && s.procs[p].doing.Calling?
    case Complete(p) => Handling(s, p)
    case Requeue(p) => Handling(s, p)
    case FailRead(p, _, _) => Handling(s, p) && s.procs[p].held.value.id < |s.t|
    case FailWrite(p) => Alive(s, p) && s.procs[p].doing.Failing? && s.procs[p].held.Some?
    case Crash(p) => Alive(s, p)
    case Reclaim(_, _) => true
  }

  function Handlers(t: Table, ids: seq<nat>, w: string): (r: seq<Proc>)
    requires forall k :: 0 <= k < |ids| ==> ids[k] < |t|
    ensures |r| == |ids|
    ensures forall k :: 0 <= k < |ids| ==>
      r[k] == Proc(w, Some(Held(ids[k], t[ids[k]].kind, t[ids[k]].depth)), Working, 0)
  {
    seq(|ids|, k requires 0 <= k < |ids| =>
      Proc(w, Some(Held(ids[k], t[ids[k]].kind, t[ids[k]].depth)), Working, 0))
  }

  function Set(s: State, p: nat, doing: Doing): seq<Proc>
    requires p < |s.procs|
  {
    s.procs[p := s.procs[p].(doing := doing)]
  }

  /** The table after a step. */
  ghost function TableAfter(s: State, step: Step, hostname: string -> string): Table
    requires Enabled(s, step)
  {
    match step
    case Dequeue(w, until, ids, _, _) => LeaseAll(s.t, ids, w, until)
    case Advance(p) => EnqueueStep(s.t, s.procs[p].doing.call, s.procs[p].doing.at, hostname).0
    case Complete(p) => CompleteRow(s.t, s.procs[p].held.value.id, s.procs[p].worker)
    case Requeue(p) => RequeueRow(s.t, s.procs[p].held.value.id, s.procs[p].worker)
    case FailWrite(p) =>
      var q := s.procs[p];
      FailRow(s.t, q.held.value.id, q.worker, q.doing.attempts, q.doing.maxAttempts, q.doing.message)
    case Reclaim(_, now) => ReclaimExpired(s.t, now)
    case _ => s.t
  }

  /** The goroutines after a step. */
  ghost function ProcsAfter(s: State, step: Step, hostname: string -> string): seq<Proc>
    requires Enabled(s, step)
  {
    match step
    case Dequeue(w, _, ids, _, _) => s.procs + Handlers(s.t, ids, w)
    case Seed(w) => s.procs + [Proc(w, None, Working, 0)]
    case Begin(p, call) =>
      var q := s.procs[p];
      s.procs[p := q.(doing := Calling(call, FirstStatement(call)), begun := q.begun + 1)]
    case Advance(p) =>
      var q := s.procs[p];
      var next := EnqueueStep(s.t, q.doing.call, q.doing.at, hostname).1;
      Set(s, p, if next.Continue? then Calling(q.doing.call, next.at) else Working)
    case FailRead(p, m, msg) =>
      Set(s, p, Failing(s.t[s.procs[p].held.value.id].attempts + 1, m, msg))
    case Reclaim(_, _) => s.procs
    case Complete(p) => Set(s, p, Gone)
    case Requeue(p) => Set(s, p, Gone)
    case FailWrite(p) => Set(s, p, Gone)
    case Crash(p) => Set(s, p, Gone)
  }

  ghost function Apply(s: State, step: Step, hostname: string -> string): State
    requires Enabled(s, step)
  {
    State(TableAfter(s, step, hostname), ProcsAfter(s, step, hostname))
  }

  /** What an enqueue call returns in this step, if it returns. */
  ghost function Returned(s: State, step: Step, hostname: string -> string): Option<bool>
    requires Enabled(s, step)
  {
    if !step.Advance? then None
    else
      var d := s.procs[step.p].doing;
      var next := EnqueueStep(s.t, d.call, d.at, hostname).1;
      if next.Return? then Some(next.added) else None
  }

  // -- Runs ----------------------------------------------------------------------

  lemma DequeueTakesPending(s: State, step: Step, i: nat)
    requires Enabled(s, step) && step.Dequeue? && i in step.ids
    ensures i < |s.t| && Eligible(s.t[i], step.count, step.index)
  {
    var k :| 0 <= k < |step.ids| && step.ids[k] == i;
    assert step.ids[k] < |s.t| && Eligible(s.t[step.ids[k]], step.count, step.index);
  }

  /** run[k] is the state before steps[k]; the last state follows the last step. */
  ghost predicate IsRun(run: seq<State>, steps: seq<Step>, hostname: string -> string) {
    && |run| == |steps| + 1
    && forall k {:trigger steps[k]} :: 0 <= k < |steps| ==> Enabled(run[k], steps[k]) && run[k + 1] == Apply(run[k], steps[k], hostname)
  }

  ghost predicate StateOk(s: State, hostname: string -> string) {
    && TableOk(s.t, hostname)
    && forall p :: 0 <= p < |s.procs| && s.procs[p].doing.Calling? ==>
         CallOk(s.t, s.procs[p].doing.call, s.procs[p].doing.at)
  }

  // -- One statement ---------------------------------------------------------------

  /** The only ways a row may go. */
  predicate Moves(a: Status, b: Status) {
    || a == b
    || (a.Pending? && b.InFlight?)
    || (a.InFlight? && !b.InFlight?)
    || (Finished(a) && b.Pending?)
  }

  /** Columns no statement writes stay, and the status moves along Moves. */
  predicate RowEvolves(r: Row, r': Row) {
    && r'.key == r.key && r'.kind == r.kind
    && r'.url == r.url && r'.host == r.host && r'.shard == r.shard
    && Moves(r.status, r'.status)
  }

  /** Rows are never deleted, keep key, kind, url, host and shard, and move only along Moves. */
  ghost predicate Evolves(t: Table, u: Table) {
    |t| <= |u| && forall i :: 0 <= i < |t| ==> RowEvolves(t[i], u[i])
  }

  lemma SameRowsOk(t: Table, u: Table, hostname: string -> string)
    requires TableOk(t, hostname) && |u| == |t|
    requires forall i :: 0 <= i < |t| ==> RowEvolves(t[i], u[i])
    requires forall i :: 0 <= i < |t| ==> u[i] == t[i] || RowOk(u[i], hostname)
    ensures TableOk(u, hostname) && Evolves(t, u)
  {
    forall i | 0 <= i < |t| ensures RowOk(u[i], hostname) && u[i].key == t[i].key {
      assert RowEvolves(t[i], u[i]) && RowOk(t[i], hostname);
    }
  }

  lemma NewRowOk(t: Table, c: Item, hostname: string -> string)
    requires TableOk(t, hostname) && !KeyIn(t, c.key)
    ensures TableOk(t + [NewRow(c, hostname)], hostname) && Evolves(t, t + [NewRow(c, hostname)])
  {
    var u := t + [NewRow(c, hostname)];
    forall i, j | 0 <= i < j < |u| ensures u[i].key != u[j].key {
      assert u[i] == t[i];
      assert j == |t| ==> t[i].key != c.key;
    }
    assert forall i :: 0 <= i < |t| ==> RowEvolves(t[i], u[i]);
  }

  /** Every statement of enqueue keeps the table, and touches no row that is pending or in flight. */
  lemma EnqueueStepOk(t: Table, c: Call, at: At, hostname: string -> string)
    requires TableOk(t, hostname) && CallOk(t, c, at)
    ensures var (u, next) := EnqueueStep(t, c, at, hostname);
      && TableOk(u, hostname)
      && Evolves(t, u)
      && (forall i :: 0 <= i < |t| && !Finished(t[i].status) ==> u[i] == t[i])
      && (next.Continue? ==> u == t && CallOk(u, c, next.at))
  {
    var (u, next) := EnqueueStep(t, c, at, hostname);
    if at.Create? && FindKey(t, c.item.key).None? {
      NewRowOk(t, c.item, hostname);
    } else {
      SameRowsOk(t, u, hostname);
    }
  }

  lemma CallStaysOk(t: Table, u: Table, c: Call, at: At)
    requires Evolves(t, u) && CallOk(t, c, at)
    ensures CallOk(u, c, at)
  {
  }

  lemma OtherTableOk(s: State, step: Step, hostname: string -> string)
    requires TableOk(s.t, hostname) && Enabled(s, step) && !step.Advance?
    ensures var u := TableAfter(s, step, hostname); |u| == |s.t| && TableOk(u, hostname) && Evolves(s.t, u)
  {
    var u := TableAfter(s, step, hostname);
    forall i | 0 <= i < |s.t| ensures RowEvolves(s.t[i], u[i]) && (u[i] == s.t[i] || RowOk(u[i], hostname)) {
      assert RowOk(s.t[i], hostname);
      if step.Dequeue? && i in step.ids {
        DequeueTakesPending(s, step, i);
      }
    }
    SameRowsOk(s.t, u, hostname);
  }

  lemma StepOk(s: State, step: Step, hostname: string -> string)
    requires StateOk(s, hostname) && Enabled(s, step)
    ensures StateOk(Apply(s, step, hostname), hostname)
    ensures Evolves(s.t, Apply(s, step, hostname).t)
  {
    var s' := Apply(s, step, hostname);
    if step.Advance? {
      var d := s.procs[step.p].doing;
      EnqueueStepOk(s.t, d.call, d.at, hostname);
    } else {
      OtherTableOk(s, step, hostname);
    }
    forall p | 0 <= p < |s'.procs| && s'.procs[p].doing.Calling?
      ensures CallOk(s'.t, s'.procs[p].doing.call, s'.procs[p].doing.at)
    {
      if p < |s.procs| && s.procs[p].doing == s'.procs[p].doing {
        CallStaysOk(s.t, s'.t, s.procs[p].doing.call, s.procs[p].doing.at);
      }
    }
  }

  lemma {:induction false} RunOk(run: seq<State>, steps: seq<Step>, hostname: string -> string, k: nat)
    requires IsRun(run, steps, hostname) && StateOk(run[0], hostname) && k < |run|
    ensures StateOk(run[k], hostname)
  {
    if k > 0 {
      RunOk(run, steps, hostname, k - 1);
      StepOk(run[k - 1], steps[k - 1], hostname);
    }
  }
}
