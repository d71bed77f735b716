/** How far concurrent budgeted enqueues can overshoot the per-(host, kind) row budget. */
module PageBudget {
  import opened Basics
  import opened FrontierTable
  import opened FrontierSystem
  import opened EnqueueRaces

  /** q is inside a budgeted enqueue for (host, kind). */
  predicate Budgeted(q: Proc, host: string, kind: Kind) {
    && q.doing.Calling? && q.doing.call.budget >= 0
    && q.doing.call.item.host == host && q.doing.call.item.kind == kind
  }

  function InBudgetedCall(host: string, kind: Kind): Proc -> nat {
    (q: Proc) => if Budgeted(q, host, kind) then 1 else 0
  }

  /** q has passed the count and its Create would still insert. */
  function AboutToInsert(t: Table, host: string, kind: Kind): Proc -> nat {
    (q: Proc) =>
      if Budgeted(q, host, kind) && q.doing.at.Create? && !KeyIn(t, q.doing.call.item.key) then 1 else 0
  }

  ghost predicate InsertsUnbudgeted(s: State, step: Step, hostname: string -> string, host: string, kind: Kind)
    requires Enabled(s, step)
  {
    && step.Advance?
    && s.procs[step.p].doing.call.budget < 0
    && s.procs[step.p].doing.call.item.host == host
    && s.procs[step.p].doing.call.item.kind == kind
    && |Apply(s, step, hostname).t| > |s.t|
  }

  /** The rows of (host, kind) that calls without a budget inserted in the first n steps. */
  ghost function UnbudgetedInserts(
      run: seq<State>, steps: seq<Step>, hostname: string -> string, host: string, kind: Kind, n: nat): nat
    requires IsRun(run, steps, hostname) && n <= |steps|
  {
    if n == 0 then 0
    else UnbudgetedInserts(run, steps, hostname, host, kind, n - 1) +
         if InsertsUnbudgeted(run[n - 1], steps[n - 1], hostname, host, kind) then 1 else 0
  }

  /** At most `width` budgeted enqueues for (host, kind) are open at once, all with the same budget. */
  ghost predicate Throttled(s: State, host: string, kind: Kind, budget: nat, width: nat) {
    && Sum(s.procs, InBudgetedCall(host, kind)) <= width
    && forall p :: 0 <= p < |s.procs| && Budgeted(s.procs[p], host, kind) ==> s.procs[p].doing.call.budget == budget
  }

  lemma CountKept(t: Table, u: Table, host: string, kind: Kind)
    requires Evolves(t, u) && |u| == |t|
    ensures CountHostKind(u, host, kind) == CountHostKind(t, host, kind)
  {
    SumCongruent(t, u, IsHostKind(host, kind));
  }

  /** Once its key is in the table a waiting Create can insert no more, so the waiting ones only get fewer. */
  lemma WaitingShrinks(procs: seq<Proc>, t: Table, u: Table, host: string, kind: Kind)
    requires Evolves(t, u)
    ensures Sum(procs, AboutToInsert(u, host, kind)) <= Sum(procs, AboutToInsert(t, host, kind))
  {
    forall key | KeyIn(t, key) ensures KeyIn(u, key) {
      var i :| 0 <= i < |t| && t[i].key == key;
      assert u[i].key == key;
    }
    SumMonotone(procs, AboutToInsert(u, host, kind), AboutToInsert(t, host, kind));
  }

  lemma WaitingAtMostOpen(s: State, host: string, kind: Kind)
    ensures Sum(s.procs, AboutToInsert(s.t, host, kind)) <= Sum(s.procs, InBudgetedCall(host, kind))
  {
    SumMonotone(s.procs, AboutToInsert(s.t, host, kind), InBudgetedCall(host, kind));
  }

  /** A statement that inserts nothing: beyond the budget it makes no further Create wait. */
  lemma QuietStatement(t: Table, q: Proc, next: Next, hostname: string -> string, host: string, kind: Kind, budget: nat)
    requires q.doing.Calling? && next == EnqueueStep(t, q.doing.call, q.doing.at, hostname).1
    requires Budgeted(q, host, kind) ==> q.doing.call.budget == budget
    requires CountHostKind(t, host, kind) >= budget && CallOk(t, q.doing.call, q.doing.at)
    ensures var q' := q.(doing := if next.Continue? then Calling(q.doing.call, next.at) else Working);
      AboutToInsert(t, host, kind)(q') <= AboutToInsert(t, host, kind)(q)
  {
  }

  /** A step that inserts no row makes no further Create wait once the budget is reached. */
  lemma QuietProcs(s: State, step: Step, hostname: string -> string, host: string, kind: Kind, budget: nat, width: nat)
    requires StateOk(s, hostname) && Enabled(s, step) && Throttled(s, host, kind, budget, width)
    requires CountHostKind(s.t, host, kind) >= budget
    ensures Sum(ProcsAfter(s, step, hostname), AboutToInsert(s.t, host, kind)) <= Sum(s.procs, AboutToInsert(s.t, host, kind))
  {
    hide EnqueueStep;
    var f := AboutToInsert(s.t, host, kind);
    var procs' := ProcsAfter(s, step, hostname);
    if step.Dequeue? {
      SumAppend(s.procs, Handlers(s.t, step.ids, step.worker), f);
      NoneWaiting(Handlers(s.t, step.ids, step.worker), f);
    } else if step.Seed? {
      SumAppend(s.procs, [Proc(step.worker, None, Working, 0)], f);
      SumOne(Proc(step.worker, None, Working, 0), f);
    } else if step.Advance? {
      var q := s.procs[step.p];
      QuietStatement(s.t, q, EnqueueStep(s.t, q.doing.call, q.doing.at, hostname).1, hostname, host, kind, budget);
      SumUpdate(s.procs, step.p, procs'[step.p], f);
    } else if !step.Reclaim? {
      SumUpdate(s.procs, step.p, procs'[step.p], f);
    }
  }

  /** A step that inserts no row: the count stays, and no more Creates wait once the budget is reached. */
  lemma QuietStep(s: State, step: Step, hostname: string -> string, host: string, kind: Kind, budget: nat, width: nat)
    requires StateOk(s, hostname) && Enabled(s, step) && Throttled(s, host, kind, budget, width)
    requires |Apply(s, step, hostname).t| == |s.t|
    ensures var s' := Apply(s, step, hostname);
      && CountHostKind(s'.t, host, kind) == CountHostKind(s.t, host, kind)
      && (CountHostKind(s.t, host, kind) >= budget ==>
            Sum(s'.procs, AboutToInsert(s'.t, host, kind)) <= Sum(s.procs, AboutToInsert(s.t, host, kind)))
  {
    hide TableAfter, ProcsAfter;
    var s' := Apply(s, step, hostname);
    StepOk(s, step, hostname);
    CountKept(s.t, s'.t, host, kind);
    WaitingShrinks(s'.procs, s.t, s'.t, host, kind);
    if CountHostKind(s.t, host, kind) >= budget {
      QuietProcs(s, step, hostname, host, kind, budget, width);
    }
  }

  lemma {:induction false} NoneWaiting(procs: seq<Proc>, f: Proc -> nat)
    requires forall k :: 0 <= k < |procs| ==> f(procs[k]) == 0
    ensures Sum(procs, f) == 0
  {
    if procs != [] {
      assert f(procs[0]) == 0;
      assert forall k :: 0 <= k < |procs[1..]| ==> procs[1..][k] == procs[k + 1];
      NoneWaiting(procs[1..], f);
    }
  }

  lemma OnlyCreateInserts(s: State, step: Step, hostname: string -> string)
    requires Enabled(s, step) && |Apply(s, step, hostname).t| > |s.t|
    ensures step.Advance?
    ensures var d := s.procs[step.p].doing; var s' := Apply(s, step, hostname);
      && d.at.Create? && !KeyIn(s.t, d.call.item.key)
      && s'.t == s.t + [NewRow(d.call.item, hostname)]
      && s'.procs == Set(s, step.p, Working)
  {
  }

  /** A step that inserts a row: the Create that waited is used up. */
  lemma InsertStep(s: State, step: Step, hostname: string -> string, host: string, kind: Kind)
    requires StateOk(s, hostname) && Enabled(s, step)
    requires |Apply(s, step, hostname).t| > |s.t|
    ensures step.Advance?
    ensures var s' := Apply(s, step, hostname);
      var hit := s.procs[step.p].doing.call.item.host == host && s.procs[step.p].doing.call.item.kind == kind;
      && CountHostKind(s'.t, host, kind) == CountHostKind(s.t, host, kind) + (if hit then 1 else 0)
      && Sum(s'.procs, AboutToInsert(s'.t, host, kind)) +
           (if hit && s.procs[step.p].doing.call.budget >= 0 then 1 else 0)
         <= Sum(s.procs, AboutToInsert(s.t, host, kind))
  {
    OnlyCreateInserts(s, step, hostname);
    StepOk(s, step, hostname);
    var p, t' := step.p, Apply(s, step, hostname).t;
    var row := NewRow(s.procs[p].doing.call.item, hostname);
    SumAppend(s.t, [row], IsHostKind(host, kind));
    SumOne(row, IsHostKind(host, kind));
    WaitingShrinks(Set(s, p, Working), s.t, t', host, kind);
    SumUpdate(s.procs, p, s.procs[p].(doing := Working), AboutToInsert(s.t, host, kind));
  }

  /** The invariant of the overshoot argument. */
  ghost predicate Bounded(s: State, host: string, kind: Kind, budget: nat, limit: int) {
    || CountHostKind(s.t, host, kind) < budget
    || CountHostKind(s.t, host, kind) + Sum(s.procs, AboutToInsert(s.t, host, kind)) <= limit
  }

  lemma {:induction false} BoundedAlong(
      run: seq<State>, steps: seq<Step>, hostname: string -> string,
      host: string, kind: Kind, budget: nat, width: nat, n: nat)
    requires IsRun(run, steps, hostname) && StateOk(run[0], hostname) && n <= |steps| && width >= 1
    requires forall m :: 0 <= m < |run| ==> Throttled(run[m], host, kind, budget, width)
    requires forall p :: 0 <= p < |run[0].procs| ==> !run[0].procs[p].doing.Calling?
    ensures Bounded(run[n], host, kind, budget,
              Max(CountHostKind(run[0].t, host, kind), budget) + width - 1
                + UnbudgetedInserts(run, steps, hostname, host, kind, n))
  {
    hide Apply, StateOk, Enabled;
    if n == 0 {
      NoneWaiting(run[0].procs, AboutToInsert(run[0].t, host, kind));
    } else {
      BoundedAlong(run, steps, hostname, host, kind, budget, width, n - 1);
      RunOk(run, steps, hostname, n - 1);
      StepOk(run[n - 1], steps[n - 1], hostname);
      WaitingAtMostOpen(run[n - 1], host, kind);
      assert Throttled(run[n - 1], host, kind, budget, width);
      if |run[n].t| == |run[n - 1].t| {
        QuietStep(run[n - 1], steps[n - 1], hostname, host, kind, budget, width);
      } else {
        InsertStep(run[n - 1], steps[n - 1], hostname, host, kind);
      }
    }
  }

  /**
   With at most `width` budgeted enqueues open at once, the rows of (host, kind)
   never exceed the budget (or what was there at the start) by more than
   width - 1 plus the rows that calls without a budget inserted.
   */
  lemma OvershootBound(
      run: seq<State>, steps: seq<Step>, hostname: string -> string,
      host: string, kind: Kind, budget: nat, width: nat, n: nat)
    requires IsRun(run, steps, hostname) && StateOk(run[0], hostname) && n <= |steps| && width >= 1
    requires forall m :: 0 <= m < |run| ==> Throttled(run[m], host, kind, budget, width)
    requires forall p :: 0 <= p < |run[0].procs| ==> !run[0].procs[p].doing.Calling?
    ensures CountHostKind(run[n].t, host, kind)
         <= Max(CountHostKind(run[0].t, host, kind), budget) + width - 1
            + UnbudgetedInserts(run, steps, hostname, host, kind, n)
  {
    hide Apply, StateOk, Enabled, Throttled;
    BoundedAlong(run, steps, hostname, host, kind, budget, width, n);
  }

  /** Re-activating a finished row succeeds whatever the count, and adds no row. */
  lemma RevivalIgnoresBudget(t: Table, item: Item, budget: nat, hostname: string -> string, id: nat)
    requires FindKey(t, item.key) == Some(id) && Finished(t[id].status)
    ensures var (u, added) := Enqueue(t, BudgetedCall(item, budget), hostname);
      added && |u| == |t| && u[id].status.Pending? && u[id].depth == item.depth
      && CountHostKind(u, item.host, item.kind) == CountHostKind(t, item.host, item.kind)
  {
    EnqueueOutcome(t, BudgetedCall(item, budget), hostname);
    var u := Enqueue(t, BudgetedCall(item, budget), hostname).0;
    SumCongruent(t, u, IsHostKind(item.host, item.kind));
  }
}
