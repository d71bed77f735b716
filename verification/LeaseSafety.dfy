/** Who may change a leased row, over every interleaving. */
module LeaseSafety {
  import opened Basics
  import opened FrontierTable
  import opened FrontierSystem

  /** A Complete, a Requeue or the write of a Fail. */
  predicate Finishes(step: Step) {
    step.Complete? || step.Requeue? || step.FailWrite?
  }

  /** The step is a finishing statement of a goroutine of the row's own worker, for this row. */
  ghost predicate ReleasedByHolder(s: State, step: Step, i: nat)
    requires Enabled(s, step) && i < |s.t|
  {
    Finishes(step) && s.procs[step.p].held.value.id == i && s.procs[step.p].worker == s.t[i].worker
  }

  ghost predicate TakenBack(s: State, step: Step, i: nat)
    requires i < |s.t|
  {
    step.Reclaim? && Expired(s.t[i], step.now)
  }

  lemma HeldRowStep(s: State, step: Step, hostname: string -> string, i: nat)
    requires StateOk(s, hostname) && Enabled(s, step) && i < |s.t| && s.t[i].status.InFlight?
    ensures var t' := Apply(s, step, hostname).t;
      i < |t'| && (t'[i] == s.t[i] || ReleasedByHolder(s, step, i) || TakenBack(s, step, i))
  {
    StepOk(s, step, hostname);
    if step.Advance? {
      var d := s.procs[step.p].doing;
      EnqueueStepOk(s.t, d.call, d.at, hostname);
    } else if step.Dequeue? && i in step.ids {
      DequeueTakesPending(s, step, i);
    }
  }

  /** A finishing statement of p changes nothing but the row p holds, and that only while p's worker owns it. */
  lemma FinishTouchesOwnRowOnly(s: State, step: Step, hostname: string -> string, i: nat)
    requires Enabled(s, step) && Finishes(step) && i < |s.t|
    ensures |Apply(s, step, hostname).t| == |s.t|
    ensures Apply(s, step, hostname).t[i] != s.t[i] ==>
      s.procs[step.p].held.value.id == i && Owns(s.t, i, s.procs[step.p].worker)
  {
  }

  /**
   The whole-run statement: before and after every step of every run, a row has
   a lease time exactly when it is in flight and an empty worker id otherwise,
   it moves only along Moves, and while one worker holds it nothing changes it
   but that worker's own finishing statement or the expiry of the lease.
   */
  lemma LeasesAreSafe(run: seq<State>, steps: seq<Step>, hostname: string -> string, k: nat, i: nat)
    requires IsRun(run, steps, hostname) && StateOk(run[0], hostname)
    requires k < |steps| && i < |run[k].t|
    ensures i < |run[k + 1].t|
    ensures var r, r' := run[k].t[i], run[k + 1].t[i];
      && (r.lease.Some? <==> r.status.InFlight?)
      && (!r.status.InFlight? ==> r.worker == "")
      && Moves(r.status, r'.status)
      && (r.status.InFlight? && r' != r ==> ReleasedByHolder(run[k], steps[k], i) || TakenBack(run[k], steps[k], i))
      && (Finishes(steps[k]) && r' != r ==> ReleasedByHolder(run[k], steps[k], i))
  {
    RunOk(run, steps, hostname, k);
    StepOk(run[k], steps[k], hostname);
    assert RowOk(run[k].t[i], hostname);
    if run[k].t[i].status.InFlight? {
      HeldRowStep(run[k], steps[k], hostname, i);
    }
    if Finishes(steps[k]) {
      FinishTouchesOwnRowOnly(run[k], steps[k], hostname, i);
    }
  }

  // -- Clocks ------------------------------------------------------------------------

  /** Any two clocks read at most d apart at every step. */
  ghost predicate ClocksWithin(clocks: seq<string -> int>, d: nat) {
    forall k, a, b :: 0 <= k < |clocks| ==> clocks[k](a) <= clocks[k](b) + d
  }

  /** A reclaimer compares leases with a reading of its own clock, taken no later than the statement runs. */
  ghost predicate ReclaimsByClock(steps: seq<Step>, clocks: seq<string -> int>)
    requires |clocks| == |steps|
  {
    forall k :: 0 <= k < |steps| && steps[k].Reclaim? ==> steps[k].now <= clocks[k](steps[k].clock)
  }

  /**
   A lease that runs until `until` (taken at local time until - L) cannot be
   taken away while its holder's own clock reads no more than until - d: from
   state j to state k the row stays with its holder, unless the holder itself
   finished it.
   */
  lemma {:induction false} LeaseSurvivesSkew(
      run: seq<State>, steps: seq<Step>, hostname: string -> string,
      clocks: seq<string -> int>, d: nat, i: nat, j: nat, k: nat)
    requires IsRun(run, steps, hostname) && StateOk(run[0], hostname)
    requires |clocks| == |steps| && ClocksWithin(clocks, d) && ReclaimsByClock(steps, clocks)
    requires j <= k < |run| && i < |run[j].t| && run[j].t[i].status.InFlight? && run[j].t[i].lease.Some?
    requires forall m :: j <= m < k ==> clocks[m](run[j].t[i].worker) <= run[j].t[i].lease.value - d
    requires forall m :: j <= m < k && i < |run[m].t| ==> !ReleasedByHolder(run[m], steps[m], i)
    ensures i < |run[k].t| && run[k].t[i] == run[j].t[i]
    decreases k - j
  {
    hide Apply, Enabled, StateOk;
    if j < k {
      LeaseSurvivesSkew(run, steps, hostname, clocks, d, i, j, k - 1);
      RunOk(run, steps, hostname, k - 1);
      HeldRowStep(run[k - 1], steps[k - 1], hostname, i);
      assert steps[k - 1].Reclaim? ==>
        steps[k - 1].now <= clocks[k - 1](steps[k - 1].clock) <= clocks[k - 1](run[j].t[i].worker) + d;
    }
  }

  /** Hence within that bound no Dequeue, by whatever worker, returns the row again. */
  lemma NoSecondHolderWithinSkew(
      run: seq<State>, steps: seq<Step>, hostname: string -> string,
      clocks: seq<string -> int>, d: nat, i: nat, j: nat, k: nat)
    requires IsRun(run, steps, hostname) && StateOk(run[0], hostname)
    requires |clocks| == |steps| && ClocksWithin(clocks, d) && ReclaimsByClock(steps, clocks)
    requires j < k < |steps| && steps[j].Dequeue? && i in steps[j].ids
    requires forall m :: j < m < k ==> clocks[m](steps[j].worker) <= steps[j].until - d
    requires forall m :: j < m < k && i < |run[m].t| ==> !ReleasedByHolder(run[m], steps[m], i)
    ensures steps[k].Dequeue? ==> i !in steps[k].ids
  {
    hide StateOk;
    FreshLease(run[j], steps[j], hostname, i);
    LeaseSurvivesSkew(run, steps, hostname, clocks, d, i, j + 1, k);
    if steps[k].Dequeue? && i in steps[k].ids {
      DequeueTakesPending(run[k], steps[k], i);
    }
  }

  lemma FreshLease(s: State, step: Step, hostname: string -> string, i: nat)
    requires Enabled(s, step) && step.Dequeue? && i in step.ids
    ensures i < |s.t| && Apply(s, step, hostname).t[i] == LeaseRow(s.t[i], step.worker, step.until)
  {
    DequeueTakesPending(s, step, i);
  }
}
