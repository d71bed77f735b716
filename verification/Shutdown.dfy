/**
 Engine.Run as a whole, with other workers around it: the frontier's transition
 system, the worker pool and the cancellation of the context in one machine.
 What becomes of each item this worker dequeues, and when the dispatcher may leave
 its loop, in every interleaving.
 */
module Shutdown {
  import opened Basics
  import opened FrontierTable
  import opened FrontierSystem
  import opened LeaseSafety
  import opened Quiescence
  import D = Dispatcher
  import opened Engine

  /** What a handler came back with, and whether the context was cancelled by then. */
  datatype Answer = Answer(result: HandlerResult, cancelled: bool)

  datatype Setup = Setup(worker: string, maxAttempts: int, hostname: string -> string)

  /** The pool's items are goroutine numbers of the frontier system; answers holds what the handlers came back with. */
  datatype World = World(sys: State, pool: D.Pool, cancelled: bool, answers: map<nat, Answer>)

  /** Why the dispatcher leaves: cancelled, idle with an empty snapshot of Counts, or after a failed query. */
  datatype Reason = Stopped | Emptied | Broken

  datatype Move =
    | Others(step: Step)           // a statement of anybody else, a reclaim, a crash, a seed
    | Fetch(step: Step)            // this worker's Dequeue, when it returns items
    | Schedule(turn: D.Step)       // counter, channel, returning
    | Leave(reason: Reason)        // the dispatcher leaves its loop and closes the channel
    | Calls(g: nat, step: Step)    // the handler that goroutine g runs is inside enqueue
    | Comes(g: nat, result: HandlerResult)   // it comes back, and process looks at the context
    | Read(g: nat)                 // Fail's read
    | Settle(g: nat, step: Step)   // Complete, Requeue or Fail's write, and process returns
    | Cancel

  function Actor(step: Step): Option<nat> {
    match step
    case Begin(p, _) => Some(p)
    case Advance(p) => Some(p)
    case Complete(p) => Some(p)
    case Requeue(p) => Some(p)
    case FailRead(p, _, _) => Some(p)
    case FailWrite(p) => Some(p)
    case Crash(p) => Some(p)
    case _ => None
  }

  /** The goroutines a Dequeue starts. */
  function Fresh(s: State, step: Step): seq<nat>
    requires step.Dequeue?
  {
    seq(|step.ids|, k requires 0 <= k < |step.ids| => |s.procs| + k)
  }

  predicate Runs(w: World, g: nat) { g < |w.pool.workers| && w.pool.workers[g].Processing? }

  function ReadStep(su: Setup, p: nat, ending: Ending): Step
    requires ending.Recorded?
  {
    FailRead(p, if ending.transient then su.maxAttempts else 1, ending.message)
  }

  /** How process goes on with goroutine p, once its handler has come back. */
  function Way(w: World, p: nat): Option<Ending> {
    if p in w.answers then Some(EndingOf(w.answers[p].result, w.answers[p].cancelled)) else None
  }

  predicate Records(w: World, p: nat) { Way(w, p).Some? && Way(w, p).value.Recorded? }

  /** The statement belongs to that way. */
  predicate Fits(step: Step, way: Option<Ending>) {
    match way
    case None => false
    case Some(Completed) => step.Complete?
    case Some(Requeued) => step.Requeue?
    case Some(Recorded(_, _)) => step.FailWrite?
  }

  predicate Scheduling(step: D.Step) { !step.Dequeue? && !step.Process? && !step.Close? }

  predicate MayLeave(w: World, reason: Reason) {
    match reason
    case Stopped => w.cancelled
    case Emptied => w.pool.inFlight == 0 && CountStatus(w.sys.t, Pending) == 0 && CountStatus(w.sys.t, InFlight) == 0
    case Broken => true
  }

  ghost predicate Possible(su: Setup, w: World, move: Move) {
    match move
    case Others(step) =>
      Enabled(w.sys, step) && (Actor(step).Some? ==> Actor(step).value !in w.pool.dequeued)
    case Fetch(step) =>
      && step.Dequeue? && step.worker == su.worker && Enabled(w.sys, step)
      && D.Enabled(w.pool, D.Dequeue(Fresh(w.sys, step)))
    case Schedule(step) => Scheduling(step) && D.Enabled(w.pool, step)
    case Leave(reason) => MayLeave(w, reason) && D.Enabled(w.pool, D.Close)
    case Calls(g, step) =>
      && Runs(w, g) && (step.Begin? || step.Advance?) && Enabled(w.sys, step)
      && step.p == w.pool.workers[g].item && step.p !in w.answers
    case Comes(g, _) =>
      Runs(w, g) && w.pool.workers[g].item !in w.answers && Handling(w.sys, w.pool.workers[g].item)
    case Read(g) =>
      && Runs(w, g) && Records(w, w.pool.workers[g].item)
      && Enabled(w.sys, ReadStep(su, w.pool.workers[g].item, Way(w, w.pool.workers[g].item).value))
    case Settle(g, step) =>
      && Runs(w, g) && Finishes(step) && Enabled(w.sys, step)
      && step.p == w.pool.workers[g].item && Fits(step, Way(w, step.p))
    case Cancel => true
  }

  /** The statement a move runs against the table, if any. */
  ghost function Statement(su: Setup, w: World, move: Move): (r: Option<Step>)
    requires Possible(su, w, move)
    ensures r.Some? ==> Enabled(w.sys, r.value)
  {
    match move
    case Others(step) => Some(step)
    case Fetch(step) => Some(step)
    case Calls(_, step) => Some(step)
    case Read(g) => Some(ReadStep(su, w.pool.workers[g].item, Way(w, w.pool.workers[g].item).value))
    case Settle(_, step) => Some(step)
    case _ => None
  }

  ghost function SysAfter(su: Setup, w: World, move: Move): State
    requires Possible(su, w, move)
  {
    var step := Statement(su, w, move);
    if step.Some? then Apply(w.sys, step.value, su.hostname) else w.sys
  }

  function PoolStep(s: State, move: Move): Option<D.Step>
    requires move.Fetch? ==> move.step.Dequeue?
  {
    match move
    case Fetch(step) => Some(D.Dequeue(Fresh(s, step)))
    case Schedule(step) => Some(step)
    case Leave(_) => Some(D.Close)
    case Settle(g, _) => Some(D.Process(g))
    case _ => None
  }

  ghost function PoolAfter(su: Setup, w: World, move: Move): D.Pool
    requires Possible(su, w, move)
  {
    var step := PoolStep(w.sys, move);
    if step.Some? then D.Apply(w.pool, step.value) else w.pool
  }

  ghost function After(su: Setup, w: World, move: Move): World
    requires Possible(su, w, move)
  {
    World(SysAfter(su, w, move), PoolAfter(su, w, move), w.cancelled || move.Cancel?,
          if move.Comes? then w.answers[w.pool.workers[move.g].item := Answer(move.result, w.cancelled)] else w.answers)
  }

  ghost predicate IsHistory(su: Setup, run: seq<World>, moves: seq<Move>) {
    && |run| == |moves| + 1
    && forall k {:trigger moves[k]} :: 0 <= k < |moves| ==> Possible(su, run[k], moves[k]) && run[k + 1] == After(su, run[k], moves[k])
  }

  /** Run starts: the table and the other goroutines are in any state. */
  ghost predicate Starts(su: Setup, w: World, size: nat) {
    StateOk(w.sys, su.hostname) && D.Starts(w.pool, size) && w.answers == map[]
  }

  // -- What a statement does to the goroutines ------------------------------------------------

  /** Only its own statements move a goroutine; what it holds stays; gone is gone. */
  lemma ProcsStay(s: State, step: Step, hostname: string -> string, p: nat)
    requires Enabled(s, step) && p < |s.procs|
    ensures var s' := Apply(s, step, hostname);
      && p < |s'.procs|
      && s'.procs[p].held == s.procs[p].held && s'.procs[p].worker == s.procs[p].worker
      && (Actor(step) != Some(p) ==> s'.procs[p] == s.procs[p])
      && (s.procs[p].doing.Gone? ==> s'.procs[p].doing.Gone?)
  {
  }

  /** This worker's goroutines: what is known of them between two moves. */
  ghost predicate MineOk(su: Setup, w: World, p: nat) {
    && p < |w.sys.procs|
    && (w.sys.procs[p].doing.Failing? ==>
          && Records(w, p)
          && w.sys.procs[p].doing.maxAttempts == ReadStep(su, p, Way(w, p).value).maxAttempts
          && w.sys.procs[p].doing.message == Way(w, p).value.message)
  }

  ghost predicate WorldOk(su: Setup, w: World) {
    && StateOk(w.sys, su.hostname)
    && D.PoolOk(w.pool)
    && (forall p :: p in w.pool.dequeued ==> MineOk(su, w, p))
    && (forall p :: p in w.pool.processed ==> p < |w.sys.procs| && w.sys.procs[p].doing.Gone?)
  }

  lemma FreshOk(su: Setup, w: World, move: Move, p: nat)
    requires Possible(su, w, move) && move.Fetch? && p in Fresh(w.sys, move.step)
    ensures MineOk(su, After(su, w, move), p)
  {
  }

  lemma MineStays(su: Setup, w: World, move: Move, p: nat)
    requires Possible(su, w, move) && p in w.pool.dequeued && MineOk(su, w, p)
    ensures MineOk(su, After(su, w, move), p)
  {
    hide D.Apply, D.Enabled, StateOk;
    var step := Statement(su, w, move);
    if step.Some? {
      ProcsStay(w.sys, step.value, su.hostname, p);
    }
  }

  lemma GoneStays(su: Setup, w: World, move: Move, p: nat)
    requires Possible(su, w, move) && p < |w.sys.procs|
    ensures var w' := After(su, w, move);
      && p < |w'.sys.procs|
      && w'.sys.procs[p].held == w.sys.procs[p].held && w'.sys.procs[p].worker == w.sys.procs[p].worker
      && (w.sys.procs[p].doing.Gone? ==> w'.sys.procs[p].doing.Gone?)
  {
    hide Apply, Enabled, D.Apply, D.Enabled;
    var step := Statement(su, w, move);
    if step.Some? {
      ProcsStay(w.sys, step.value, su.hostname, p);
    }
  }

  lemma MoveOk(su: Setup, w: World, move: Move)
    requires WorldOk(su, w) && Possible(su, w, move)
    ensures WorldOk(su, After(su, w, move))
  {
    hide MineOk, StateOk, D.PoolOk;
    var w' := After(su, w, move);
    StatementOk(su, w, move);
    forall p | p in w'.pool.dequeued ensures MineOk(su, w', p) {
      if p in w.pool.dequeued {
        MineStays(su, w, move, p);
      } else {
        FreshOk(su, w, move, p);
      }
    }
    forall p | p in w'.pool.processed ensures p < |w'.sys.procs| && w'.sys.procs[p].doing.Gone? {
      if p in w.pool.processed {
        GoneStays(su, w, move, p);
      }
    }
  }

  lemma StatementOk(su: Setup, w: World, move: Move)
    requires StateOk(w.sys, su.hostname) && D.PoolOk(w.pool) && Possible(su, w, move)
    ensures StateOk(After(su, w, move).sys, su.hostname) && D.PoolOk(After(su, w, move).pool)
  {
    hide Apply, Enabled, StateOk, D.PoolOk, D.Apply;
    var step, scheduled := Statement(su, w, move), PoolStep(w.sys, move);
    if step.Some? {
      StepOk(w.sys, step.value, su.hostname);
    }
    if scheduled.Some? {
      D.StepOk(w.pool, scheduled.value);
    }
  }

  lemma HistoryOk(su: Setup, run: seq<World>, moves: seq<Move>, size: nat, k: nat)
    requires IsHistory(su, run, moves) && Starts(su, run[0], size) && k < |run|
    ensures WorldOk(su, run[k])
  {
    hide After, Possible;
    var ok := (w: World) => WorldOk(su, w);
    D.StartsOk(run[0].pool, size);
    assert ok(run[0]);
    forall m | 0 <= m && m + 1 < |run| && ok(run[m]) ensures ok(run[m + 1]) {
      assert Possible(su, run[m], moves[m]) && run[m + 1] == After(su, run[m], moves[m]);
      MoveOk(su, run[m], moves[m]);
    }
    KeptAlongRun(run, ok, k);
  }

  // -- One item from its Dequeue to its end -----------------------------------------------------

  /** Move d dequeues row i for the handler that becomes goroutine p. */
  ghost predicate Dequeues(run: seq<World>, moves: seq<Move>, d: nat, p: nat, i: nat) {
    && d < |moves| < |run| && moves[d].Fetch? && moves[d].step.Dequeue?
    && |run[d].sys.procs| <= p < |run[d].sys.procs| + |moves[d].step.ids|
    && i == moves[d].step.ids[p - |run[d].sys.procs|]
  }

  ghost predicate HeldBy(su: Setup, w: World, p: nat, i: nat) {
    && p < |w.sys.procs| && p in w.pool.dequeued
    && w.sys.procs[p].worker == su.worker
    && w.sys.procs[p].held.Some? && w.sys.procs[p].held.value.id == i
  }

  lemma FreshHandler(s: State, step: Step, hostname: string -> string, p: nat)
    requires Enabled(s, step) && step.Dequeue? && |s.procs| <= p < |s.procs| + |step.ids|
    ensures var (s', i) := (Apply(s, step, hostname), step.ids[p - |s.procs|]);
      && i < |s.t| <= |s'.t| && s'.t[i] == LeaseRow(s.t[i], step.worker, step.until)
      && p < |s'.procs| && s'.procs[p] == Proc(step.worker, Some(Held(i, s.t[i].kind, s.t[i].depth)), Working, 0)
  {
    var i := step.ids[p - |s.procs|];
    assert i in step.ids;
    FreshLease(s, step, hostname, i);
  }

  lemma JustDequeued(su: Setup, run: seq<World>, moves: seq<Move>, d: nat, p: nat, i: nat)
    requires IsHistory(su, run, moves) && Dequeues(run, moves, d, p, i)
    ensures HeldBy(su, run[d + 1], p, i) && run[d + 1].sys.procs[p].doing.Working?
    ensures i < |run[d].sys.t| <= |run[d + 1].sys.t|
    ensures run[d + 1].sys.t[i] == LeaseRow(run[d].sys.t[i], su.worker, moves[d].step.until)
  {
    hide Apply, Enabled, D.Enabled;
    assert Possible(su, run[d], moves[d]) && run[d + 1] == After(su, run[d], moves[d]);
    FreshHandler(run[d].sys, moves[d].step, su.hostname, p);
    assert p in run[d + 1].pool.dequeued by {
      assert Fresh(run[d].sys, moves[d].step)[p - |run[d].sys.procs|] == p;
    }
  }

  lemma DequeuedGrows(su: Setup, w: World, move: Move, p: nat)
    requires Possible(su, w, move) && p in w.pool.dequeued
    ensures p in After(su, w, move).pool.dequeued
  {
    hide Apply, Enabled;
  }

  lemma StillHeld(su: Setup, run: seq<World>, moves: seq<Move>, d: nat, p: nat, i: nat, x: nat)
    requires IsHistory(su, run, moves) && Dequeues(run, moves, d, p, i) && d < x < |run|
    ensures HeldBy(su, run[x], p, i)
  {
    hide After, Possible;
    var rest := run[d + 1..];
    var ok := (w: World) => HeldBy(su, w, p, i);
    assert ok(rest[0]) by { JustDequeued(su, run, moves, d, p, i); }
    forall m | 0 <= m && m + 1 < |rest| && ok(rest[m]) ensures ok(rest[m + 1]) {
      var w, move := run[d + 1 + m], moves[d + 1 + m];
      assert rest[m] == w && rest[m + 1] == run[d + 2 + m] == After(su, w, move);
      DequeuedGrows(su, w, move, p);
      GoneStays(su, w, move, p);
    }
    KeptAlongRun(rest, ok, x - d - 1);
  }

  function Ended(p: nat): World -> bool {
    (w: World) => p < |w.sys.procs| && w.sys.procs[p].doing.Gone?
  }

  /** Only Settle ends one of this worker's goroutines. */
  lemma OnlySettleEnds(su: Setup, w: World, move: Move, p: nat, i: nat)
    requires Possible(su, w, move) && HeldBy(su, w, p, i)
    requires !Ended(p)(w) && Ended(p)(After(su, w, move))
    ensures move.Settle? && move.step.p == p
  {
    hide D.Apply, D.Enabled, StateOk;
    var step := Statement(su, w, move);
    if step.Some? {
      ProcsStay(w.sys, step.value, su.hostname, p);
    }
  }

  /** When Run has returned, the item has been settled: by one statement, at one point. */
  lemma SettledByReturn(su: Setup, run: seq<World>, moves: seq<Move>, size: nat, d: nat, p: nat, i: nat, k: nat)
      returns (m: nat)
    requires IsHistory(su, run, moves) && Starts(su, run[0], size) && Dequeues(run, moves, d, p, i)
    requires d < k < |run| && run[k].pool.phase.Returned?
    ensures d < m < k && moves[m].Settle? && moves[m].step.p == p
    ensures forall x :: d < x <= m ==> !Ended(p)(run[x])
  {
    hide After, Possible;
    JustDequeued(su, run, moves, d, p, i);
    StillHeld(su, run, moves, d, p, i, k);
    HistoryOk(su, run, moves, size, k);
    D.ReturnedBalances(run[k].pool, p);
    D.TimesIn(run[k].pool.dequeued, p);
    D.TimesIn(run[k].pool.processed, p);
    m := FirstChange(run, Ended(p), d + 1, k);
    StillHeld(su, run, moves, d, p, i, m);
    assert Possible(su, run[m], moves[m]) && run[m + 1] == After(su, run[m], moves[m]);
    OnlySettleEnds(su, run[m], moves[m], p, i);
  }

  // -- Cancellation -----------------------------------------------------------------------------

  /** The handler of goroutine p has come back with an error, no cancellation, before the context was cancelled. */
  predicate MetError(w: World, p: nat) {
    && p in w.answers && !w.answers[p].cancelled
    && w.answers[p].result.Errored? && !w.answers[p].result.canceled
  }

  /** Once the context is cancelled no further errors are met. */
  lemma {:induction false} NoErrorsAfterCancel(su: Setup, run: seq<World>, moves: seq<Move>, c: nat, m: nat)
    requires IsHistory(su, run, moves) && c <= m < |run| && run[c].cancelled
    ensures run[m].cancelled && forall p :: MetError(run[m], p) <==> MetError(run[c], p)
    decreases m
  {
    hide SysAfter, PoolAfter, Enabled, D.Enabled;
    if c < m {
      NoErrorsAfterCancel(su, run, moves, c, m - 1);
      assert Possible(su, run[m - 1], moves[m - 1]) && run[(m - 1) + 1] == After(su, run[m - 1], moves[m - 1]);
    }
  }

  /** An item is failed after cancellation exactly if its handler's error was met before. */
  lemma FailsExactly(su: Setup, run: seq<World>, moves: seq<Move>, c: nat, m: nat)
    requires IsHistory(su, run, moves) && c <= m < |moves| && run[c].cancelled && moves[m].Settle?
    ensures Finishes(moves[m].step) && (moves[m].step.FailWrite? <==> MetError(run[c], moves[m].step.p))
  {
    hide After, Enabled;
    assert Possible(su, run[m], moves[m]);
    NoErrorsAfterCancel(su, run, moves, c, m);
  }

  lemma EndedStays(su: Setup, run: seq<World>, moves: seq<Move>, p: nat, m: nat, x: nat)
    requires IsHistory(su, run, moves) && m <= x < |run| && Ended(p)(run[m])
    ensures Ended(p)(run[x])
  {
    hide After, Possible;
    var rest := run[m..];
    forall j | 0 <= j && j + 1 < |rest| && Ended(p)(rest[j]) ensures Ended(p)(rest[j + 1]) {
      assert rest[j] == run[m + j] && rest[j + 1] == run[m + j + 1] == After(su, run[m + j], moves[m + j]);
      GoneStays(su, run[m + j], moves[m + j], p);
    }
    KeptAlongRun(rest, Ended(p), x - m);
  }

  // -- What becomes of the row ---------------------------------------------------------------------

  /** Row i is from state a to state m as it is in state a. */
  ghost predicate Untouched(run: seq<World>, i: nat, a: nat, m: nat)
    requires a <= m < |run|
  {
    && i < |run[a].sys.t|
    && forall x :: a <= x <= m ==> i < |run[x].sys.t| && run[x].sys.t[i] == run[a].sys.t[i]
  }

  /** The move takes the lease of row i back or, for another goroutine of the same worker, finishes the row. */
  ghost predicate LosesLease(su: Setup, w: World, move: Move, p: nat, i: nat) {
    && Possible(su, w, move) && i < |w.sys.t|
    && var step := Statement(su, w, move);
       && step.Some?
       && (TakenBack(w.sys, step.value, i) || (ReleasedByHolder(w.sys, step.value, i) && step.value.p != p))
  }

  /** Fail's read counts from the attempts the row was leased with. */
  ghost predicate ReadSaw(w: World, p: nat, attempts: nat) {
    && p < |w.sys.procs|
    && (w.sys.procs[p].doing.Failing? ==> w.sys.procs[p].doing.attempts == attempts + 1)
  }

  lemma ReadSees(su: Setup, w: World, move: Move, p: nat, i: nat)
    requires Possible(su, w, move) && HeldBy(su, w, p, i) && i < |w.sys.t| && ReadSaw(w, p, w.sys.t[i].attempts)
    ensures ReadSaw(After(su, w, move), p, w.sys.t[i].attempts)
  {
    hide D.Apply, D.Enabled, StateOk;
    var step := Statement(su, w, move);
    if step.Some? {
      ProcsStay(w.sys, step.value, su.hostname, p);
    }
  }

  lemma {:induction false} ReadSawLease(su: Setup, run: seq<World>, moves: seq<Move>, d: nat, p: nat, i: nat, x: nat)
    requires IsHistory(su, run, moves) && Dequeues(run, moves, d, p, i) && d < x < |run| && Untouched(run, i, d + 1, x)
    ensures ReadSaw(run[x], p, run[d + 1].sys.t[i].attempts)
    decreases x
  {
    hide After, Possible;
    if x == d + 1 {
      JustDequeued(su, run, moves, d, p, i);
    } else {
      ReadSawLease(su, run, moves, d, p, i, x - 1);
      StillHeld(su, run, moves, d, p, i, x - 1);
      assert Possible(su, run[x - 1], moves[x - 1]) && run[(x - 1) + 1] == After(su, run[x - 1], moves[x - 1]);
      ReadSees(su, run[x - 1], moves[x - 1], p, i);
    }
  }

  lemma SettlesRow(su: Setup, w: World, move: Move, p: nat, i: nat)
    requires Possible(su, w, move) && move.Settle? && move.step.p == p && HeldBy(su, w, p, i) && MineOk(su, w, p)
    requires Owns(w.sys.t, i, su.worker) && ReadSaw(w, p, w.sys.t[i].attempts)
    ensures i < |After(su, w, move).sys.t| && p in w.answers
    ensures Settled(w.sys.t[i], w.answers[p].result, w.answers[p].cancelled, su.maxAttempts, After(su, w, move).sys.t[i])
  {
    hide D.Apply, D.Enabled, StateOk;
  }

  /** The first move that touches the leased row before its holder settles it loses the lease. */
  lemma FirstTouch(su: Setup, run: seq<World>, moves: seq<Move>, size: nat, d: nat, p: nat, i: nat, m: nat) returns (x: nat)
    requires IsHistory(su, run, moves) && Starts(su, run[0], size) && Dequeues(run, moves, d, p, i)
    requires d < m < |moves| && !Untouched(run, i, d + 1, m)
    requires forall y :: d < y <= m ==> !Ended(p)(run[y])
    ensures d < x < m && Untouched(run, i, d + 1, x) && LosesLease(su, run[x], moves[x], p, i)
  {
    hide After, Possible, StateOk;
    JustDequeued(su, run, moves, d, p, i);
    var leased := run[d + 1].sys.t[i];
    var touched := (w: World) => !(i < |w.sys.t| && w.sys.t[i] == leased);
    var y :| d + 1 <= y <= m && touched(run[y]);
    x := FirstChange(run, touched, d + 1, y);
    assert Untouched(run, i, d + 1, x) by {
      assert forall z :: d + 1 <= z <= x ==> !touched(run[z]);
    }
    HistoryOk(su, run, moves, size, x);
    StillHeld(su, run, moves, d, p, i, x);
    assert Possible(su, run[x], moves[x]) && run[x + 1] == After(su, run[x], moves[x]);
    TouchLoses(su, run[x], moves[x], p, i);
  }

  lemma TouchLoses(su: Setup, w: World, move: Move, p: nat, i: nat)
    requires StateOk(w.sys, su.hostname) && Possible(su, w, move) && HeldBy(su, w, p, i)
    requires i < |w.sys.t| && w.sys.t[i].status.InFlight?
    requires !(i < |After(su, w, move).sys.t| && After(su, w, move).sys.t[i] == w.sys.t[i])
    requires !Ended(p)(After(su, w, move))
    ensures LosesLease(su, w, move, p, i)
  {
    hide D.Apply, D.Enabled, StateOk;
    var step := Statement(su, w, move);
    if step.Some? {
      HeldRowStep(w.sys, step.value, su.hostname, i);
      ProcsStay(w.sys, step.value, su.hostname, p);
    }
  }

  /**
   The whole-run statement. When Run returns, every item this worker dequeued was
   settled by exactly one statement. If nothing touched its row until then, the
   row is what its handler's result makes of it: done, pending with the attempts it
   was leased with, or one attempt older with the error, and failed if that error is
   permanent or the cap is reached; otherwise the lease was lost first. And after
   cancellation Fail's write runs exactly for an error that was met before.
   */
  lemma EveryItemSettles(su: Setup, run: seq<World>, moves: seq<Move>, size: nat, d: nat, p: nat, i: nat, k: nat)
      returns (m: nat)
    requires IsHistory(su, run, moves) && Starts(su, run[0], size) && Dequeues(run, moves, d, p, i)
    requires d < k < |run| && run[k].pool.phase.Returned?
    ensures d < m < k && moves[m].Settle? && moves[m].step.p == p && p in run[m].answers
    ensures forall x :: d < x < |run| ==> (Ended(p)(run[x]) <==> m < x)
    ensures if Untouched(run, i, d + 1, m)
      then
        && i < |run[m + 1].sys.t|
        && Settled(run[d + 1].sys.t[i], run[m].answers[p].result, run[m].answers[p].cancelled, su.maxAttempts, run[m + 1].sys.t[i])
      else exists x :: d < x < m && Untouched(run, i, d + 1, x) && LosesLease(su, run[x], moves[x], p, i)
    ensures forall c :: 0 <= c <= m && run[c].cancelled ==> (moves[m].step.FailWrite? <==> MetError(run[c], p))
  {
    hide After, Possible;
    m := SettledByReturn(su, run, moves, size, d, p, i, k);
    assert Possible(su, run[m], moves[m]) && run[m + 1] == After(su, run[m], moves[m]);
    StillHeld(su, run, moves, d, p, i, m);
    SettleEnds(su, run[m], moves[m], p);
    forall x | m < x < |run| ensures Ended(p)(run[x]) {
      EndedStays(su, run, moves, p, m + 1, x);
    }
    forall c | 0 <= c <= m && run[c].cancelled ensures moves[m].step.FailWrite? <==> MetError(run[c], p) {
      FailsExactly(su, run, moves, c, m);
    }
    if Untouched(run, i, d + 1, m) {
      JustDequeued(su, run, moves, d, p, i);
      HistoryOk(su, run, moves, size, m);
      ReadSawLease(su, run, moves, d, p, i, m);
      SettlesRow(su, run[m], moves[m], p, i);
    } else {
      var x := FirstTouch(su, run, moves, size, d, p, i, m);
    }
  }

  lemma SettleEnds(su: Setup, w: World, move: Move, p: nat)
    requires Possible(su, w, move) && move.Settle? && move.step.p == p && p < |w.sys.procs|
    ensures Ended(p)(After(su, w, move)) && p in w.answers
  {
    hide D.Apply, D.Enabled, StateOk;
  }

  /**
   Graceful shutdown: an item whose handler has met no error when the context is
   cancelled is done or pending with the attempts it had before this worker leased
   it, never failed, unless its lease was lost.
   */
  lemma CancelledNeverFails(su: Setup, run: seq<World>, moves: seq<Move>, size: nat, d: nat, p: nat, i: nat, c: nat, k: nat)
      returns (m: nat)
    requires IsHistory(su, run, moves) && Starts(su, run[0], size) && Dequeues(run, moves, d, p, i)
    requires d < k < |run| && run[k].pool.phase.Returned?
    requires c < |run| && run[c].cancelled && !MetError(run[c], p) && (d < c ==> !Ended(p)(run[c]))
    ensures c <= m && d < m < k && moves[m].Settle? && moves[m].step.p == p && !moves[m].step.FailWrite?
    ensures p in run[m].answers
    ensures i < |run[d].sys.t|
    ensures if Untouched(run, i, d + 1, m)
      then
        && i < |run[m + 1].sys.t|
        && var status := if run[m].answers[p].result.Handled? then Done else Pending;
           run[m + 1].sys.t[i] == run[d].sys.t[i].(status := status, lease := None, worker := "")
      else exists x :: d < x < m && Untouched(run, i, d + 1, x) && LosesLease(su, run[x], moves[x], p, i)
  {
    hide After, Possible, Starts, Dequeues, Untouched, LosesLease, WorldOk;
    m := EveryItemSettles(su, run, moves, size, d, p, i, k);
    assert d < c ==> (Ended(p)(run[c]) <==> m < c);
    JustDequeued(su, run, moves, d, p, i);
    FailsExactly(su, run, moves, c, m);
    NoErrorsAfterCancel(su, run, moves, c, m);
  }

  // -- Leaving on an empty snapshot -----------------------------------------------------------------

  /** Nobody seeds from outside, and handlers finish within their lease. */
  ghost predicate ClosedHistory(su: Setup, run: seq<World>, moves: seq<Move>)
    requires IsHistory(su, run, moves)
  {
    forall k {:trigger moves[k]} :: 0 <= k < |moves| ==>
      Possible(su, run[k], moves[k])
      && (Statement(su, run[k], moves[k]).Some? ==> Closed(run[k].sys, Statement(su, run[k], moves[k]).value))
  }

  lemma MoveHolds(su: Setup, w: World, move: Move)
    requires WorldOk(su, w) && HandlersHold(w.sys) && Possible(su, w, move)
    requires var step := Statement(su, w, move); step.Some? ==> Closed(w.sys, step.value)
    ensures WorldOk(su, After(su, w, move)) && HandlersHold(After(su, w, move).sys)
    ensures Drained(w.sys.t) ==> After(su, w, move).sys.t == w.sys.t
  {
    MoveOk(su, w, move);
    hide Apply, Enabled, StateOk, D.Apply, D.Enabled, HandlersHold, Closed, Drained;
    var step := Statement(su, w, move);
    if step.Some? {
      StepHolds(w.sys, step.value, su.hostname);
      if Drained(w.sys.t) {
        DrainedStep(w.sys, step.value, su.hostname);
      }
    }
  }

  lemma NobodyLeft(s: State)
    requires HandlersHold(s) && Drained(s.t)
    ensures forall p :: 0 <= p < |s.procs| ==> !Alive(s, p)
  {
    forall p | 0 <= p < |s.procs| ensures !Alive(s, p) {
      assert Alive(s, p) ==> Holds(s, p);
    }
  }

  /**
   No Run leaves on an empty snapshot while work remains or is still to come: from
   that move on no row changes, none is pending or in flight, and no handler of any
   worker is alive.
   */
  lemma LeavesNoWork(su: Setup, run: seq<World>, moves: seq<Move>, size: nat, j: nat, k: nat)
    requires IsHistory(su, run, moves) && Starts(su, run[0], size) && ClosedHistory(su, run, moves) && HandlersHold(run[0].sys)
    requires j < |moves| && j <= k < |run| && moves[j] == Leave(Emptied)
    ensures run[k].sys.t == run[j].sys.t && Drained(run[k].sys.t)
    ensures forall p :: 0 <= p < |run[k].sys.procs| ==> !Alive(run[k].sys, p)
  {
    assert Drained(run[j].sys.t) by {
      assert Possible(su, run[j], moves[j]);
      CountsReadDrained(run[j].sys.t);
    }
    HistoryOk(su, run, moves, size, 0);
    hide WorldOk, HandlersHold, After, Drained, Possible, Starts;
    var ok := (w: World) => WorldOk(su, w) && HandlersHold(w.sys);
    forall m | 0 <= m && m + 1 < |run| && ok(run[m]) ensures ok(run[m + 1]) {
      assert run[m + 1] == After(su, run[m], moves[m]);
      MoveHolds(su, run[m], moves[m]);
    }
    KeptAlongRun(run, ok, k);
    var quiet := (w: World) => ok(w) && w.sys.t == run[j].sys.t;
    var rest := run[j..];
    assert quiet(rest[0]) by { KeptAlongRun(run, ok, j); }
    forall m | 0 <= m && m + 1 < |rest| && quiet(rest[m]) ensures quiet(rest[m + 1]) {
      assert rest[m + 1] == run[j + m + 1] == After(su, run[j + m], moves[j + m]);
      MoveHolds(su, run[j + m], moves[j + m]);
    }
    KeptAlongRun(rest, quiet, k - j);
    NobodyLeft(run[k].sys);
  }

  // -- An error met before cancellation ---------------------------------------------------------------

  lemma Then(su: Setup, run: seq<World>, moves: seq<Move>, move: Move) returns (run': seq<World>, moves': seq<Move>)
    requires IsHistory(su, run, moves) && Possible(su, run[|run| - 1], move)
    ensures IsHistory(su, run', moves') && |run'| == |run| + 1 && run' == run + [run'[|run|]]
    ensures run'[|run|] == After(su, run[|run| - 1], move)
  {
    run', moves' := run + [After(su, run[|run| - 1], move)], moves + [move];
  }

  /** The frontier and its one handler behind the Dequeue. */
  function Working1(su: Setup, r: Row): State {
    State([LeaseRow(r, su.worker, 0)], [Proc(su.worker, Some(Held(0, r.kind, r.depth)), Working, 0)])
  }

  lemma FirstLease(su: Setup, item: Item)
    ensures var r, step := NewRow(item, su.hostname), Dequeue(su.worker, 0, [0], 1, 0);
      && StateOk(State([r], []), su.hostname) && Enabled(State([r], []), step)
      && Apply(State([r], []), step, su.hostname) == Working1(su, r) && Fresh(State([r], []), step) == [0]
  {
  }

  /** One pending item and one goroutine, which gets the item. */
  lemma OneItem(su: Setup, item: Item) returns (run: seq<World>, moves: seq<Move>)
    ensures IsHistory(su, run, moves) && |run| == 4 && Starts(su, run[0], 1)
    ensures run[0].sys == State([NewRow(item, su.hostname)], [])
    ensures run[3] == World(Working1(su, NewRow(item, su.hostname)), D.Pool(D.Polling, [D.Processing(0)], 1, [0], []), false, map[])
  {
    FirstLease(su, item);
    hide Apply, Enabled, StateOk, Working1, NewRow;
    var s := State([NewRow(item, su.hostname)], []);
    run, moves := [World(s, D.Pool(D.Polling, [D.Receiving], 0, [], []), false, map[])], [];
    run, moves := Then(su, run, moves, Fetch(Dequeue(su.worker, 0, [0], 1, 0)));
    run, moves := Then(su, run, moves, Schedule(D.Count));
    run, moves := Then(su, run, moves, Schedule(D.Send(0)));
  }

  /** The error is met, and the context is cancelled before Fail runs. */
  lemma CancelledInBetween(su: Setup, item: Item, message: string) returns (run: seq<World>, moves: seq<Move>)
    ensures IsHistory(su, run, moves) && |run| == 6 && Starts(su, run[0], 1)
    ensures run[5] == World(Working1(su, NewRow(item, su.hostname)), D.Pool(D.Polling, [D.Processing(0)], 1, [0], []), true,
                            map[0 := Answer(Errored(false, false, message), false)])
  {
    run, moves := OneItem(su, item);
    hide IsHistory, D.Enabled, StateOk, NewRow;
    run, moves := Then(su, run, moves, Comes(0, Errored(false, false, message)));
    run, moves := Then(su, run, moves, Cancel);
  }

  /**
   Without the condition it does not hold. The handler's error is met, the context
   is cancelled before Fail runs (process may be asleep for the backoff), and Fail
   runs all the same: the item is failed after cancellation.
   */
  lemma FailOutlivesCancel(su: Setup, item: Item, message: string) returns (run: seq<World>, moves: seq<Move>)
    ensures IsHistory(su, run, moves) && |run| == 8 && Starts(su, run[0], 1)
    ensures run[5].cancelled && |run[5].sys.t| == 1 && run[5].sys.t[0].status.InFlight?
    ensures |run[7].sys.t| == 1 && run[7].sys.t[0].status.Failed?
  {
    run, moves := CancelledInBetween(su, item, message);
    hide IsHistory, D.Enabled, StateOk, NewRow;
    run, moves := Then(su, run, moves, Read(0));
    run, moves := Then(su, run, moves, Settle(0, FailWrite(0)));
  }
}
