/** What enqueue, Ensure and Resume do under races, and the uninterrupted call. */
module EnqueueRaces {
  import opened Basics
  import opened FrontierTable
  import opened FrontierSystem

  ghost predicate Born(t: Table, u: Table, key: string) {
    !KeyIn(t, key) && KeyIn(u, key)
  }

  /** The row with this key went from done or failed back to pending. */
  ghost predicate Revived(t: Table, u: Table, key: string) {
    exists i :: 0 <= i < |t| && i < |u| && t[i].key == key && Finished(t[i].status) && u[i].status.Pending?
  }

  /** An enqueue call for this key returns true in this step. */
  ghost predicate ReturnsTrue(s: State, step: Step, hostname: string -> string, key: string)
    requires Enabled(s, step)
  {
    Returned(s, step, hostname) == Some(true) && s.procs[step.p].doing.call.item.key == key
  }

  lemma StatementTrueMeansChange(t: Table, c: Call, at: At, hostname: string -> string, key: string)
    requires TableOk(t, hostname) && CallOk(t, c, at)
    ensures var (u, next) := EnqueueStep(t, c, at, hostname);
      && (next == Return(true) && c.item.key == key <==> Born(t, u, key) || Revived(t, u, key))
      && !(Born(t, u, key) && Revived(t, u, key))
  {
    var (u, next) := EnqueueStep(t, c, at, hostname);
    if at.Create? && next == Return(true) {
      assert u[|t|].key == c.item.key;
      assert forall i :: 0 <= i < |t| ==> u[i] == t[i];
    } else if at.Update? && next == Return(true) {
      assert u[at.id].status.Pending? && t[at.id].key == c.item.key;
    }
  }

  lemma OthersNeitherInsertNorRevive(s: State, step: Step, hostname: string -> string, key: string)
    requires StateOk(s, hostname) && Enabled(s, step) && !step.Advance?
    ensures var t' := Apply(s, step, hostname).t; !Born(s.t, t', key) && !Revived(s.t, t', key)
  {
    var t' := Apply(s, step, hostname).t;
    StepOk(s, step, hostname);
    assert |t'| == |s.t|;
    forall i | 0 <= i < |s.t| && Finished(s.t[i].status) ensures t'[i].status == s.t[i].status {
      forall j | step.Dequeue? && j in step.ids { DequeueTakesPending(s, step, j); }
    }
  }

  /** One step: a call returns true exactly when the step inserts or revives the row of its key. */
  lemma TrueMeansChange(s: State, step: Step, hostname: string -> string, key: string)
    requires StateOk(s, hostname) && Enabled(s, step)
    ensures var t' := Apply(s, step, hostname).t;
      && (ReturnsTrue(s, step, hostname, key) <==> Born(s.t, t', key) || Revived(s.t, t', key))
      && !(Born(s.t, t', key) && Revived(s.t, t', key))
  {
    if step.Advance? {
      var d := s.procs[step.p].doing;
      StatementTrueMeansChange(s.t, d.call, d.at, hostname, key);
    } else {
      OthersNeitherInsertNorRevive(s, step, hostname, key);
    }
  }

  function One(b: bool): nat { if b then 1 else 0 }

  ghost function TrueReturns(run: seq<State>, steps: seq<Step>, hostname: string -> string, key: string, k: nat): nat
    requires IsRun(run, steps, hostname) && k <= |steps|
  {
    if k == 0 then 0
    else TrueReturns(run, steps, hostname, key, k - 1) + One(ReturnsTrue(run[k - 1], steps[k - 1], hostname, key))
  }

  ghost function Revivals(run: seq<State>, key: string, k: nat): nat
    requires k < |run|
  {
    if k == 0 then 0
    else Revivals(run, key, k - 1) + One(Revived(run[k - 1].t, run[k].t, key))
  }

  /** In the k-th step of a run. */
  lemma CountedStep(run: seq<State>, steps: seq<Step>, hostname: string -> string, key: string, k: nat)
    requires IsRun(run, steps, hostname) && StateOk(run[0], hostname) && k < |steps|
    ensures One(ReturnsTrue(run[k], steps[k], hostname, key))
         == One(Born(run[k].t, run[k + 1].t, key)) + One(Revived(run[k].t, run[k + 1].t, key))
    ensures KeyIn(run[k].t, key) ==> KeyIn(run[k + 1].t, key)
  {
    RunOk(run, steps, hostname, k);
    StepOk(run[k], steps[k], hostname);
    TrueMeansChange(run[k], steps[k], hostname, key);
    var t, u := run[k].t, run[k + 1].t;
    if KeyIn(t, key) {
      var i :| 0 <= i < |t| && t[i].key == key;
      assert u[i].key == key;
    }
  }

  /**
   Over every run: one row per key, and the calls that returned true for a key
   number its one insert (if it was inserted in this run) plus its moves from
   done or failed back to pending.
   */
  lemma {:induction false} TrueReturnsCounted(
      run: seq<State>, steps: seq<Step>, hostname: string -> string, key: string, k: nat)
    requires IsRun(run, steps, hostname) && StateOk(run[0], hostname) && k <= |steps|
    ensures KeysUnique(run[k].t)
    ensures KeyIn(run[0].t, key) ==> KeyIn(run[k].t, key)
    ensures TrueReturns(run, steps, hostname, key, k) == Revivals(run, key, k) + One(Born(run[0].t, run[k].t, key))
  {
    RunOk(run, steps, hostname, k);
    hide ReturnsTrue, Revived, Enabled, Apply, TableOk;
    if k > 0 {
      TrueReturnsCounted(run, steps, hostname, key, k - 1);
      CountedStep(run, steps, hostname, key, k - 1);
    }
  }

  /** No statement of an Ensure call ever changes a row that exists, whatever happened since its read. */
  lemma EnsureNeverChangesRows(run: seq<State>, steps: seq<Step>, hostname: string -> string, k: nat)
    requires IsRun(run, steps, hostname) && StateOk(run[0], hostname) && k < |steps|
    requires steps[k].Advance?
    requires !run[k].procs[steps[k].p].doing.call.reDone && !run[k].procs[steps[k].p].doing.call.reFailed
    ensures run[k].t <= run[k + 1].t
  {
    RunOk(run, steps, hostname, k);
    var d := run[k].procs[steps[k].p].doing;
    assert CallOk(run[k].t, d.call, d.at);
  }

  /** No statement of a Resume call ever changes a done row. */
  lemma ResumeNeverMovesDone(run: seq<State>, steps: seq<Step>, hostname: string -> string, k: nat, i: nat)
    requires IsRun(run, steps, hostname) && StateOk(run[0], hostname) && k < |steps|
    requires steps[k].Advance? && !run[k].procs[steps[k].p].doing.call.reDone
    requires i < |run[k].t| && run[k].t[i].status.Done?
    ensures i < |run[k + 1].t| && run[k + 1].t[i] == run[k].t[i]
  {
    RunOk(run, steps, hostname, k);
    var d := run[k].procs[steps[k].p].doing;
    assert CallOk(run[k].t, d.call, d.at);
  }

  // -- The columns that are written --------------------------------------------------------

  /** An inserted row, column by column. */
  predicate Inserted(r: Row, item: Item) {
    && r.kind == item.kind && r.url == item.url && r.host == item.host && r.depth == item.depth
    && r.priority == item.priority && r.key == item.key && r.runId == item.runId
    && r.prov.parentCatalog == item.prov.parentCatalog && r.prov.artifactEntry == item.prov.artifactEntry
    && r.prov.registryEntry == item.prov.registryEntry && r.prov.registryCatalog == item.prov.registryCatalog
    && r.prov.registryRow == item.prov.registryRow && r.prov.probeMethod == item.prov.probeMethod
    && r.status == Pending && r.attempts == 0 && r.lastError == "" && r.lease == None && r.worker == ""
  }

  /** A row that is revived for this item: what it keeps, what it adopts, and what starts afresh. */
  predicate RevivedFor(r: Row, was: Row, item: Item) {
    && r.kind == was.kind && r.url == was.url && r.host == was.host
    && r.priority == was.priority && r.key == was.key && r.shard == was.shard
    && r.depth == item.depth && r.runId == item.runId
    && r.prov.parentCatalog == item.prov.parentCatalog && r.prov.artifactEntry == item.prov.artifactEntry
    && r.prov.registryEntry == item.prov.registryEntry && r.prov.registryCatalog == item.prov.registryCatalog
    && r.prov.registryRow == item.prov.registryRow && r.prov.probeMethod == item.prov.probeMethod
    && r.status == Pending && r.attempts == 0 && r.lastError == "" && r.lease == None && r.worker == ""
  }

  /**
   In every interleaving, a step adds or changes rows on behalf of a call only in
   these two ways, and only when the call returns true.
   */
  lemma CallsWriteColumns(run: seq<State>, steps: seq<Step>, hostname: string -> string, k: nat, i: nat)
    requires IsRun(run, steps, hostname) && StateOk(run[0], hostname) && k < |steps| && steps[k].Advance?
    requires i < |run[k + 1].t|
    ensures var t, u, item := run[k].t, run[k + 1].t, run[k].procs[steps[k].p].doing.call.item;
      if i >= |t| then i == |t| && Inserted(u[i], item) && Returned(run[k], steps[k], hostname) == Some(true)
      else u[i] == t[i] || (Finished(t[i].status) && t[i].key == item.key && RevivedFor(u[i], t[i], item)
                            && Returned(run[k], steps[k], hostname) == Some(true))
  {
    RunOk(run, steps, hostname, k);
    var d := run[k].procs[steps[k].p].doing;
    assert CallOk(run[k].t, d.call, d.at);
  }

  // -- The uninterrupted call ---------------------------------------------------------

  function Fuel(at: At): nat {
    match at
    case Count => 5
    case Probe => 4
    case Create => 3
    case Lookup => 2
    case Update(_, _) => 1
  }

  /** The statements of a call from `at` on, with nobody in between. */
  function RunCall(t: Table, c: Call, at: At, hostname: string -> string): (Table, bool)
    decreases Fuel(at)
  {
    var (u, next) := EnqueueStep(t, c, at, hostname);
    match next
    case Return(added) => (u, added)
    case Continue(at') => RunCall(u, c, at', hostname)
  }

  function Enqueue(t: Table, c: Call, hostname: string -> string): (Table, bool) {
    RunCall(t, c, FirstStatement(c), hostname)
  }

  predicate MayRevive(c: Call, s: Status) {
    (s.Done? && c.reDone) || (s.Failed? && c.reFailed)
  }

  /**
   The outcome of an undisturbed call in terms of rows and columns: the row with the
   item's key, if there is one, or else the number of rows of its host and kind decide.
   */
  ghost predicate Effect(t: Table, item: Item, budget: int, reDone: bool, reFailed: bool, u: Table, added: bool) {
    if i :| 0 <= i < |t| && t[i].key == item.key && forall j :: 0 <= j < i ==> t[j].key != item.key then
      if (t[i].status.Done? && reDone) || (t[i].status.Failed? && reFailed)
      then added && |u| == |t| && RevivedFor(u[i], t[i], item) && forall j :: 0 <= j < |t| && j != i ==> u[j] == t[j]
      else !added && u == t
    else
      if 0 <= budget <= |set i: nat | i < |t| && t[i].host == item.host && t[i].kind == item.kind|
      then !added && u == t
      else added && |u| == |t| + 1 && Inserted(u[|t|], item) && forall j :: 0 <= j < |t| ==> u[j] == t[j]
  }

  /**
   What one undisturbed call does. A new key is inserted unless the (host, kind)
   count has reached the budget; a key that exists is revived when its row has
   finished in a state the call may revive, at any count, and nothing else changes.
   */
  lemma EnqueueOutcome(t: Table, c: Call, hostname: string -> string)
    ensures var (u, added) := Enqueue(t, c, hostname);
      match FindKey(t, c.item.key)
      case None =>
        if c.budget < 0 || CountHostKind(t, c.item.host, c.item.kind) < c.budget
        then added && u == t + [NewRow(c.item, hostname)]
        else !added && u == t
      case Some(id) =>
        if MayRevive(c, t[id].status)
        then added && u == t[id := Reactivated(t[id], c.item)]
        else !added && u == t
  {
    var found := FindKey(t, c.item.key);
    if found.Some? && MayRevive(c, t[found.value].status) {
      var up := Update(found.value, t[found.value].status);
      assert RunCall(t, c, up, hostname) == (t[found.value := Reactivated(t[found.value], c.item)], true);
    }
    assert found.Some? ==> RunCall(t, c, Create, hostname) == RunCall(t, c, Lookup, hostname);
    if c.budget >= 0 {
      assert found.Some? ==> RunCall(t, c, Probe, hostname) == RunCall(t, c, Create, hostname);
      var first := if CountHostKind(t, c.item.host, c.item.kind) >= c.budget then Probe else Create;
      assert RunCall(t, c, Count, hostname) == RunCall(t, c, first, hostname);
    }
  }

  lemma CountIsSize(t: Table, host: string, kind: Kind)
    ensures CountHostKind(t, host, kind) == |set i: nat | i < |t| && t[i].host == host && t[i].kind == kind|
  {
    SumCounts(t, IsHostKind(host, kind));
    assert Places(t, IsHostKind(host, kind)) == set i: nat | i < |t| && t[i].host == host && t[i].kind == kind;
  }

  /** The first row with a key is the one FindKey finds. */
  lemma {:induction false} FirstWithKey(t: Table, key: string)
    ensures FindKey(t, key).Some? ==> forall j :: 0 <= j < FindKey(t, key).value ==> t[j].key != key
  {
    if t != [] && t[0].key != key {
      FirstWithKey(t[1..], key);
    }
  }

  lemma EffectOfCall(t: Table, c: Call, hostname: string -> string)
    ensures var (u, added) := Enqueue(t, c, hostname);
      Effect(t, c.item, c.budget, c.reDone, c.reFailed, u, added)
  {
    EnqueueOutcome(t, c, hostname);
    CountIsSize(t, c.item.host, c.item.kind);
    FirstWithKey(t, c.item.key);
    hide Enqueue, CountHostKind;
    var found := FindKey(t, c.item.key);
    if found.Some? {
      assert t[found.value].key == c.item.key;
    }
  }
}
