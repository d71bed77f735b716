/** The exit test of Run: what one snapshot of Counts proves, and what two would not. */
module Quiescence {
  import opened Basics
  import opened FrontierTable
  import opened FrontierSystem

  /** Goroutine p is alive and its row is leased to its worker. */
  ghost predicate Holds(s: State, p: nat)
    requires p < |s.procs|
  {
    var q := s.procs[p];
    && q.held.Some?
    && q.held.value.id < |s.t|
    && s.t[q.held.value.id].status.InFlight?
    && s.t[q.held.value.id].worker == q.worker
    && s.t[q.held.value.id].kind == q.held.value.kind
    && s.t[q.held.value.id].depth == q.held.value.depth
  }

  /**
   Nobody seeds from outside: every live goroutine is a handler that holds its
   own leased row, and no two handle one row.
   */
  ghost predicate HandlersHold(s: State) {
    && (forall p :: 0 <= p < |s.procs| && Alive(s, p) ==> Holds(s, p))
    && (forall p, q :: 0 <= p < q < |s.procs| && Alive(s, p) && Alive(s, q) ==>
          s.procs[p].held.value.id != s.procs[q].held.value.id)
  }

  /**
   A step of a closed crawl: no seeding from outside, and handlers finish within
   their lease, so no reclaim finds the lease of a live one expired. Crashes are allowed.
   */
  ghost predicate Closed(s: State, step: Step) {
    && !step.Seed?
    && (step.Reclaim? ==> forall p :: 0 <= p < |s.procs| && Alive(s, p) && Holds(s, p) ==>
          !Expired(s.t[s.procs[p].held.value.id], step.now))
  }

  /** A fresh handler holds a row that was pending; the others still hold theirs. */
  lemma DequeuedHolds(s: State, step: Step, hostname: string -> string, p: nat)
    requires Enabled(s, step) && step.Dequeue? && HandlersHold(s)
    requires Alive(Apply(s, step, hostname), p)
    ensures Holds(Apply(s, step, hostname), p)
    ensures var id := Apply(s, step, hostname).procs[p].held.value.id;
      if p < |s.procs| then Alive(s, p) && id == s.procs[p].held.value.id && s.t[id].status.InFlight?
      else id == step.ids[p - |s.procs|] && s.t[id].status.Pending?
  {
    if p < |s.procs| {
      assert Alive(s, p) && Holds(s, p);
      forall j | j in step.ids ensures s.t[j].status.Pending? {
        DequeueTakesPending(s, step, j);
      }
    } else {
      DequeueTakesPending(s, step, step.ids[p - |s.procs|]);
    }
  }

  lemma DequeueHolds(s: State, step: Step, hostname: string -> string)
    requires Enabled(s, step) && step.Dequeue? && HandlersHold(s)
    ensures HandlersHold(Apply(s, step, hostname))
  {
    var s' := Apply(s, step, hostname);
    forall p | 0 <= p < |s'.procs| && Alive(s', p) ensures Holds(s', p) {
      DequeuedHolds(s, step, hostname, p);
    }
    forall p, q | 0 <= p < q < |s'.procs| && Alive(s', p) && Alive(s', q)
      ensures s'.procs[p].held.value.id != s'.procs[q].held.value.id
    {
      DequeuedHolds(s, step, hostname, p);
      DequeuedHolds(s, step, hostname, q);
      assert q < |s.procs| ==> Alive(s, p) && Alive(s, q);
    }
  }

  /** A goroutine that lives through a step keeps what it holds, and its row is not touched. */
  lemma LiveRowKept(s: State, step: Step, hostname: string -> string, p: nat)
    requires StateOk(s, hostname) && Enabled(s, step) && HandlersHold(s) && Closed(s, step) && !step.Dequeue?
    requires Alive(Apply(s, step, hostname), p)
    ensures Alive(s, p)
    ensures Apply(s, step, hostname).procs[p].held == s.procs[p].held
    ensures Apply(s, step, hostname).procs[p].worker == s.procs[p].worker
    ensures s.procs[p].held.Some? && s.procs[p].held.value.id < |Apply(s, step, hostname).t|
    ensures Apply(s, step, hostname).t[s.procs[p].held.value.id] == s.t[s.procs[p].held.value.id]
  {
    assert Alive(s, p) && Holds(s, p);
    if step.Advance? {
      EnqueueStepOk(s.t, s.procs[step.p].doing.call, s.procs[step.p].doing.at, hostname);
    } else if !step.Reclaim? {
      assert step.p != p ==> Alive(s, step.p);
    }
  }

  /** Handlers keep holding their rows through every step of a closed crawl. */
  lemma StepHolds(s: State, step: Step, hostname: string -> string)
    requires StateOk(s, hostname) && Enabled(s, step) && HandlersHold(s) && Closed(s, step)
    ensures HandlersHold(Apply(s, step, hostname))
  {
    if step.Dequeue? {
      DequeueHolds(s, step, hostname);
    } else {
      OtherStepHolds(s, step, Apply(s, step, hostname), hostname);
    }
  }

  lemma OtherStepHolds(s: State, step: Step, s': State, hostname: string -> string)
    requires StateOk(s, hostname) && Enabled(s, step) && HandlersHold(s) && Closed(s, step) && !step.Dequeue?
    requires s' == Apply(s, step, hostname)
    ensures HandlersHold(s')
  {
    forall p | 0 <= p < |s'.procs| && Alive(s', p) ensures Holds(s', p) {
      LiveRowKept(s, step, hostname, p);
      assert Holds(s, p);
    }
    forall p, q | 0 <= p < q < |s'.procs| && Alive(s', p) && Alive(s', q)
      ensures s'.procs[p].held.value.id != s'.procs[q].held.value.id
    {
      LiveRowKept(s, step, hostname, p);
      LiveRowKept(s, step, hostname, q);
    }
  }

  ghost predicate ClosedRun(run: seq<State>, steps: seq<Step>, hostname: string -> string) {
    && IsRun(run, steps, hostname)
    && forall k :: 0 <= k < |steps| ==> Closed(run[k], steps[k])
  }

  lemma RunHolds(run: seq<State>, steps: seq<Step>, hostname: string -> string, k: nat)
    requires ClosedRun(run, steps, hostname) && StateOk(run[0], hostname) && HandlersHold(run[0])
    requires k < |run|
    ensures HandlersHold(run[k])
  {
    var ok := (s: State) => StateOk(s, hostname) && HandlersHold(s);
    forall m | 0 <= m && m + 1 < |run| && ok(run[m]) ensures ok(run[m + 1]) {
      StepOk(run[m], steps[m], hostname);
      StepHolds(run[m], steps[m], hostname);
    }
    KeptAlongRun(run, ok, k);
  }

  /** On a drained table with all handlers accounted for, no step can change the table. */
  lemma DrainedStep(s: State, step: Step, hostname: string -> string)
    requires Enabled(s, step) && HandlersHold(s) && Closed(s, step) && Drained(s.t)
    ensures Apply(s, step, hostname).t == s.t
  {
    assert forall p :: 0 <= p < |s.procs| && Alive(s, p) ==> Holds(s, p);
    if step.Dequeue? {
      forall j | j in step.ids ensures false {
        DequeueTakesPending(s, step, j);
      }
    }
  }

  lemma DrainedAt(run: seq<State>, steps: seq<Step>, hostname: string -> string, k: nat)
    requires ClosedRun(run, steps, hostname) && StateOk(run[0], hostname) && HandlersHold(run[0])
    requires k < |steps| && Drained(run[k].t)
    ensures run[k + 1].t == run[k].t
  {
    RunHolds(run, steps, hostname, k);
    DrainedStep(run[k], steps[k], hostname);
  }

  lemma {:induction false} DrainedStays(run: seq<State>, j: nat, k: nat)
    requires j <= k < |run| && Drained(run[j].t)
    requires forall m :: j <= m < k && Drained(run[m].t) ==> run[m + 1].t == run[m].t
    ensures run[k].t == run[j].t
    decreases k
  {
    if j < k {
      DrainedStays(run, j, k - 1);
    }
  }

  /**
   Global quiescence: once one snapshot of Counts reads (0, 0), the frontier has
   no pending and no in-flight row in any continuation, crashed peers included.
   */
  lemma SnapshotMeansQuiet(run: seq<State>, steps: seq<Step>, hostname: string -> string, j: nat, k: nat)
    requires ClosedRun(run, steps, hostname) && StateOk(run[0], hostname) && HandlersHold(run[0])
    requires j <= k < |run|
    requires CountStatus(run[j].t, Pending) == 0 && CountStatus(run[j].t, InFlight) == 0
    ensures run[k].t == run[j].t
    ensures CountStatus(run[k].t, Pending) == 0 && CountStatus(run[k].t, InFlight) == 0
  {
    CountsReadDrained(run[j].t);
    forall m | j <= m < k && Drained(run[m].t) ensures run[m + 1].t == run[m].t {
      DrainedAt(run, steps, hostname, m);
    }
    DrainedStays(run, j, k);
  }

  // -- Two separate counts ---------------------------------------------------------

  function Plain(key: string, host: string, status: Status, worker: string): Row {
    Row(HostProbe, "", host, 0, 0, key, 0, Provenance(None, None, None, None, None, ""),
        HostShard(host), status, 0, "", if status.InFlight? then Some(0) else None, worker)
  }

  function PlainItem(key: string, host: string): Item {
    Item(HostProbe, "", host, 0, 0, key, 0, Provenance(None, None, None, None, None, ""))
  }

  lemma ChildThenComplete(host: string, hostname: string -> string, s0: State, s1: State, s2: State, s3: State, call: Call)
    requires call == EnqueueCall(PlainItem("child", host))
    requires s0 == State([Plain("parent", host, InFlight, "w")], [Proc("w", Some(Held(0, HostProbe, 0)), Working, 0)])
    requires s1 == State(s0.t, [s0.procs[0].(doing := Calling(call, Create), begun := 1)])
    requires s2 == State(s0.t + [NewRow(call.item, hostname)], [s0.procs[0].(begun := 1)])
    requires s3 == State([Plain("parent", host, Done, ""), NewRow(call.item, hostname)], [s0.procs[0].(doing := Gone, begun := 1)])
    ensures StateOk(s0, hostname) && HandlersHold(s0)
    ensures Enabled(s0, Begin(0, call)) && s1 == Apply(s0, Begin(0, call), hostname)
    ensures Enabled(s1, Advance(0)) && s2 == Apply(s1, Advance(0), hostname)
    ensures Enabled(s2, Complete(0)) && s3 == Apply(s2, Complete(0), hostname)
  {
    assert FindKey(s1.t, "child").None? by {
      assert s1.t[0].key == "parent";
    }
    assert s2.t[0] == s0.t[0];
  }

  /** Pending read 0 in the first state and in_flight in the last, yet work remains. */
  ghost predicate Missed(run: seq<State>, steps: seq<Step>, hostname: string -> string) {
    && ClosedRun(run, steps, hostname) && |run| == 4
    && StateOk(run[0], hostname) && HandlersHold(run[0])
    && CountStatus(run[0].t, Pending) == 0
    && CountStatus(run[3].t, InFlight) == 0
    && !Drained(run[3].t)
  }

  /**
   Two separate COUNT queries would not do: here pending reads 0 in the first
   state and in_flight reads 0 in the last, with a handler's "enqueue child,
   complete parent" in between, and yet a row is pending.
   */
  lemma TwoCountsCanMiss(host: string, hostname: string -> string)
    ensures exists run, steps :: Missed(run, steps, hostname)
  {
    var q := Proc("w", Some(Held(0, HostProbe, 0)), Working, 0);
    var call := EnqueueCall(PlainItem("child", host));
    var s0 := State([Plain("parent", host, InFlight, "w")], [q]);
    var s1 := State(s0.t, [q.(doing := Calling(call, Create), begun := 1)]);
    var s2 := State(s0.t + [NewRow(call.item, hostname)], [q.(begun := 1)]);
    var s3 := State([Plain("parent", host, Done, ""), NewRow(call.item, hostname)], [q.(doing := Gone, begun := 1)]);
    ChildThenComplete(host, hostname, s0, s1, s2, s3, call);
    MissedBy(s0, s1, s2, s3, call, hostname);
  }

  lemma MissedBy(s0: State, s1: State, s2: State, s3: State, call: Call, hostname: string -> string)
    requires StateOk(s0, hostname) && HandlersHold(s0)
    requires Enabled(s0, Begin(0, call)) && s1 == Apply(s0, Begin(0, call), hostname)
    requires Enabled(s1, Advance(0)) && s2 == Apply(s1, Advance(0), hostname)
    requires Enabled(s2, Complete(0)) && s3 == Apply(s2, Complete(0), hostname)
    requires forall i :: 0 <= i < |s0.t| ==> !s0.t[i].status.Pending?
    requires forall i :: 0 <= i < |s3.t| ==> !s3.t[i].status.InFlight?
    requires |s3.t| > 1 && s3.t[1].status.Pending?
    ensures exists run, steps :: Missed(run, steps, hostname)
  {
    hide Apply, Enabled, StateOk, HandlersHold;
    var run, steps := [s0, s1, s2, s3], [Begin(0, call), Advance(0), Complete(0)];
    CountZero(s0.t, Pending);
    CountZero(s3.t, InFlight);
    assert Missed(run, steps, hostname);
  }
}
