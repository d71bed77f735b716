/**
 Recovery of processCatalog with everybody else at work: between any two of its
 operations, and between a crash and the next attempt, other goroutines and
 processes append rows and move frontier rows as they like.
 */
module RecoveryAmongOthers {
  import opened Basics
  import opened CatalogStore
  import opened CatalogRecovery
  import opened CatalogCompleteness

  datatype Turn =
    | Own                 // the call's next operation
    | Crash               // the attempt is lost, or was over; the next one starts
    | Others(st: Store)   // what the others leave behind

  /**
   A catalog of the call: saved for its own domain, source and parent, or for an
   entry embedded in such a catalog.
   */
  predicate Belongs(st: Store, host: string, root: Task, c: nat)
    requires root.Process?
    decreases c
  {
    && c < |st.catalogs|
    && var row := st.catalogs[c];
    && row.domain < |st.domains| && st.domains[row.domain] == host
    && ((row.source == root.source && row.parent == root.parent)
        || (&& row.parent.Some? && row.parent.value < c
            && Belongs(st, host, root, row.parent.value)
            && EmbedsSource(st.catalogs[row.parent.value], row.source)))
  }

  /** Every catalog has its domain. */
  predicate DomainsKnown(st: Store) {
    forall c :: 0 <= c < |st.catalogs| ==> st.catalogs[c].domain < |st.domains|
  }

  /**
   What the others leave alone: they save no catalog of this call and attach no rows to
   the ones there are. The same URL may well be saved under another parent.
   */
  ghost predicate LeavesAlone(host: string, root: Task, st: Store, st': Store)
    requires root.Process?
  {
    && Widened(st, st') && StoreOk(st') && DomainsKnown(st')
    && (forall c :: |st.catalogs| <= c < |st'.catalogs| ==> !Belongs(st', host, root, c))
    && forall c: nat :: Belongs(st, host, root, c) ==> EntryIds(st'.entries, c) == EntryIds(st.entries, c)
  }

  ghost predicate Possible(host: string, root: Task, job: Job, turn: Turn)
    requires root.Process?
  {
    match turn
    case Own => job.stack != []
    case Crash => true
    case Others(st) => LeavesAlone(host, root, job.store, st)
  }

  function After(cfg: Config, root: Task, job: Job, turn: Turn): Job {
    match turn
    case Own => Step(cfg, job)
    case Crash => Job(job.store, [root])
    case Others(st) => Job(st, job.stack)
  }

  ghost predicate IsHistory(cfg: Config, root: Task, run: seq<Job>, turns: seq<Turn>)
    requires root.Process?
  {
    && |run| == |turns| + 1
    && forall k {:trigger turns[k]} :: 0 <= k < |turns| ==>
         Possible(cfg.host, root, run[k], turns[k]) && run[k + 1] == After(cfg, root, run[k], turns[k])
  }

  /** Under this source and parent the call saves its catalogs. */
  predicate MineAt(st: Store, host: string, root: Task, source: string, parent: Option<nat>)
    requires root.Process?
  {
    || (source == root.source && parent == root.parent)
    || (parent.Some? && Belongs(st, host, root, parent.value) && EmbedsSource(st.catalogs[parent.value], source))
  }

  predicate TaskMine(st: Store, host: string, root: Task, t: Task)
    requires root.Process?
  {
    match t
    case Process(_, source, parent, _) => MineAt(st, host, root, source, parent)
    case Save(_, domain, source, parent, _) =>
      domain < |st.domains| && st.domains[domain] == host && MineAt(st, host, root, source, parent)
    case Follow(catalog, _, _, _, _) => Belongs(st, host, root, catalog)
    case Enlist(_, _, _, _) => true
  }

  predicate WholeMine(st: Store, host: string, root: Task)
    requires root.Process?
  {
    forall c: nat :: c < |st.catalogs| && Belongs(st, host, root, c) ==> |EntryIds(st.entries, c)| == |st.catalogs[c].doc.entries|
  }

  /** What holds of the call between any two turns. */
  ghost predicate CallOk(cfg: Config, root: Task, job: Job) {
    && JobOk(cfg, root, job)
    && DomainsKnown(job.store) && WholeMine(job.store, cfg.host, root)
    && forall k :: 0 <= k < |job.stack| ==> TaskMine(job.store, cfg.host, root, job.stack[k])
  }

  // -- One turn --------------------------------------------------------------------------

  /** Whether a catalog is one of the call's does not change. */
  lemma {:induction false} BelongsStays(st: Store, st': Store, host: string, root: Task, c: nat)
    requires root.Process? && Widened(st, st') && DomainsKnown(st) && c < |st.catalogs|
    ensures Belongs(st', host, root, c) <==> Belongs(st, host, root, c)
    decreases c
  {
    var row := st.catalogs[c];
    if row.parent.Some? && row.parent.value < c {
      BelongsStays(st, st', host, root, row.parent.value);
    }
  }

  lemma MineStays(st: Store, st': Store, host: string, root: Task, t: Task)
    requires root.Process? && Widened(st, st') && DomainsKnown(st) && TaskMine(st, host, root, t)
    ensures TaskMine(st', host, root, t)
  {
    if (t.Process? || t.Save?) && t.parent.Some? && t.parent.value < |st.catalogs| {
      BelongsStays(st, st', host, root, t.parent.value);
    }
    if t.Follow? {
      BelongsStays(st, st', host, root, t.catalog);
    }
  }

  /** What is saved, or found saved, under a source and parent of the call is a catalog of the call. */
  lemma SavedBelongs(st: Store, host: string, root: Task, domain: nat, source: string, parent: Option<nat>, c: nat)
    requires root.Process? && MineAt(st, host, root, source, parent)
    requires c < |st.catalogs| && Identifies(st.catalogs[c], domain, source, parent)
    requires domain < |st.domains| && st.domains[domain] == host && (parent.Some? ==> parent.value < c)
    ensures Belongs(st, host, root, c)
  {
  }

  lemma SaveLeavesMine(cfg: Config, st: Store, root: Task, t: Task)
    requires StoreOk(st) && RootOk(st, root) && DomainsKnown(st) && t.Save? && TaskMine(st, cfg.host, root, t)
    ensures var (st', left) := StepTask(cfg, st, t);
      DomainsKnown(st') && forall k :: 0 <= k < |left| ==> TaskMine(st', cfg.host, root, left[k])
  {
    var (st', left) := StepTask(cfg, st, t);
    if st' != st {
      MineStays(st, st', cfg.host, root, t);
    }
    if left != [] {
      SavedBelongs(st', cfg.host, root, t.domain, t.source, t.parent, left[0].catalog);
    }
  }

  lemma LeftMine(cfg: Config, st: Store, root: Task, t: Task)
    requires StoreOk(st) && RootOk(st, root) && DomainsKnown(st) && TaskOk(cfg, st, root, t) && TaskMine(st, cfg.host, root, t)
    ensures var (st', left) := StepTask(cfg, st, t);
      DomainsKnown(st') && forall k :: 0 <= k < |left| ==> TaskMine(st', cfg.host, root, left[k])
  {
    var (st', left) := StepTask(cfg, st, t);
    if t.Save? {
      SaveLeavesMine(cfg, st, root, t);
    } else {
      OnlySaveTouchesCatalogs(cfg, st, t);
      TaskGrows(cfg, st, t);
      MineStays(st, st', cfg.host, root, t);
      if t.Follow? && left != [] && Embedded(t.entries[0]) {
        var row := st.catalogs[t.catalog];
        assert row.doc.entries[|row.doc.entries| - |t.entries|] == t.entries[0];
        assert EmbedsSource(row, t.source + "#" + t.entries[0].identifier);
      }
    }
  }

  lemma TaskKeepsWholeMine(cfg: Config, st: Store, root: Task, t: Task)
    requires root.Process? && StoreOk(st) && DomainsKnown(st) && WholeMine(st, cfg.host, root)
    ensures WholeMine(StepTask(cfg, st, t).0, cfg.host, root)
  {
    var st' := StepTask(cfg, st, t).0;
    TaskGrows(cfg, st, t);
    if !t.Save? {
      OnlySaveTouchesCatalogs(cfg, st, t);
    } else if st' != st {
      var rows := RowsFor(|st.catalogs|, t.doc.entries);
      EntryIdsSaved(st.entries, rows, |st.catalogs|);
      forall c | 0 <= c < |st.catalogs| ensures EntryIds(st'.entries, c) == EntryIds(st.entries, c) {
        EntryIdsKept(st.entries, rows, c);
      }
    }
    forall c: nat | c < |st.catalogs| && Belongs(st', cfg.host, root, c) ensures Belongs(st, cfg.host, root, c) {
      BelongsStays(st, st', cfg.host, root, c);
    }
  }

  lemma OwnOk(cfg: Config, root: Task, job: Job)
    requires CallOk(cfg, root, job) && job.stack != []
    ensures CallOk(cfg, root, Step(cfg, job))
  {
    hide StepTask, JobOk, WholeMine, TaskOk, TaskMine, DomainsKnown;
    var t, job' := job.stack[0], Step(cfg, job);
    JobStoreOk(cfg, root, job);
    StepKeepsJob(cfg, root, job);
    TaskKeepsWholeMine(cfg, job.store, root, t);
    LeftMine(cfg, job.store, root, t);
    forall k | 0 <= k < |job'.stack| ensures TaskMine(job'.store, cfg.host, root, job'.stack[k]) {
      var n := |StepTask(cfg, job.store, t).1|;
      if k >= n {
        assert job'.stack[k] == job.stack[k - n + 1];
        MineStays(job.store, job'.store, cfg.host, root, job'.stack[k]);
      }
    }
  }

  lemma JobStoreOk(cfg: Config, root: Task, job: Job)
    requires JobOk(cfg, root, job)
    ensures StoreOk(job.store) && RootOk(job.store, root)
    ensures forall k :: 0 <= k < |job.stack| ==> TaskOk(cfg, job.store, root, job.stack[k])
  {
  }

  lemma OthersOk(cfg: Config, root: Task, job: Job, st: Store)
    requires CallOk(cfg, root, job) && LeavesAlone(cfg.host, root, job.store, st)
    ensures CallOk(cfg, root, Job(st, job.stack))
  {
    hide TaskOk, TaskMine;
    forall k | 0 <= k < |job.stack| ensures TaskOk(cfg, st, root, job.stack[k]) && TaskMine(st, cfg.host, root, job.stack[k]) {
      TaskOkGrows(cfg, job.store, st, root, job.stack[k]);
      MineStays(job.store, st, cfg.host, root, job.stack[k]);
    }
    forall c: nat | c < |st.catalogs| && Belongs(st, cfg.host, root, c) ensures Belongs(job.store, cfg.host, root, c) {
      if c < |job.store.catalogs| {
        BelongsStays(job.store, st, cfg.host, root, c);
      }
    }
  }

  lemma TurnOk(cfg: Config, root: Task, job: Job, turn: Turn)
    requires CallOk(cfg, root, job) && Possible(cfg.host, root, job, turn) && Consistent(root.doc, root.depth, cfg.maxDepth)
    ensures CallOk(cfg, root, After(cfg, root, job, turn))
  {
    match turn
    case Own => OwnOk(cfg, root, job);
    case Others(st) => OthersOk(cfg, root, job, st);
    case Crash =>
  }

  // -- What an operation did stays done ----------------------------------------------------

  ghost predicate Lasting(cfg: Config, root: Task, job: Job, t: Task, left: seq<Task>) {
    && CallOk(cfg, root, job) && TaskMine(job.store, cfg.host, root, t)
    && TaskOk(cfg, job.store, root, t) && Settled(cfg, job.store, t, left)
  }

  lemma LatestAmongOthers(catalogs: seq<CatalogRow>, catalogs': seq<CatalogRow>, domain: nat, source: string, parent: Option<nat>)
    requires catalogs <= catalogs' && Latest(catalogs, domain, source, parent).Some?
    requires forall c :: |catalogs| <= c < |catalogs'| ==> !Identifies(catalogs'[c], domain, source, parent)
    ensures Latest(catalogs', domain, source, parent) == Latest(catalogs, domain, source, parent)
  {
    var c, c' := Latest(catalogs, domain, source, parent).value, Latest(catalogs', domain, source, parent);
    assert Identifies(catalogs'[c], domain, source, parent);
    assert Identifies(catalogs[c'.value], domain, source, parent);
  }

  lemma SaveAmongOthers(cfg: Config, root: Task, st: Store, st': Store, t: Task, left: seq<Task>)
    requires root.Process? && StoreOk(st) && DomainsKnown(st) && t.Save? && Settled(cfg, st, t, left)
    requires TaskMine(st, cfg.host, root, t) && LeavesAlone(cfg.host, root, st, st')
    ensures Settled(cfg, st', t, left)
  {
    var prior := Latest(st.catalogs, t.domain, t.source, t.parent);
    assert prior.Some? && st.catalogs[prior.value].doc == t.doc by {
      assert |SaveCatalog(st, CatalogRow(t.domain, t.source, t.parent, t.doc)).catalogs| == |st.catalogs| + 1;
    }
    MineStays(st, st', cfg.host, root, t);
    SavedBelongs(st, cfg.host, root, t.domain, t.source, t.parent, prior.value);
    forall c | |st.catalogs| <= c < |st'.catalogs| ensures !Identifies(st'.catalogs[c], t.domain, t.source, t.parent) {
      if Identifies(st'.catalogs[c], t.domain, t.source, t.parent) {
        SavedBelongs(st', cfg.host, root, t.domain, t.source, t.parent, c);
      }
    }
    LatestAmongOthers(st.catalogs, st'.catalogs, t.domain, t.source, t.parent);
  }

  lemma LastingKept(cfg: Config, root: Task, job: Job, turn: Turn, t: Task, left: seq<Task>)
    requires Lasting(cfg, root, job, t, left) && Possible(cfg.host, root, job, turn) && Consistent(root.doc, root.depth, cfg.maxDepth)
    ensures Lasting(cfg, root, After(cfg, root, job, turn), t, left)
  {
    hide StepTask, Settled, TaskOk, TaskMine, WholeMine, DomainsKnown;
    JobStoreOk(cfg, root, job);
    TurnOk(cfg, root, job, turn);
    match turn
    case Crash =>
    case Own =>
      assert StillDone(cfg, root, job, t, left);
      StillDoneKept(cfg, root, job, t, left);
      StepKeepsJob(cfg, root, job);
      MineStays(job.store, Step(cfg, job).store, cfg.host, root, t);
    case Others(st) =>
      MineStays(job.store, st, cfg.host, root, t);
      TaskOkGrows(cfg, job.store, st, root, t);
      if t.Save? {
        SaveAmongOthers(cfg, root, job.store, st, t, left);
      } else {
        SettledAmongOthers(cfg, job.store, st, t, left);
      }
  }

  lemma SettledAmongOthers(cfg: Config, st: Store, st': Store, t: Task, left: seq<Task>)
    requires !t.Save? && Settled(cfg, st, t, left) && Widened(st, st')
    ensures Settled(cfg, st', t, left)
  {
    StaysSettled(cfg, st, st', t);
  }

  lemma DoneLasts(cfg: Config, root: Task, job: Job)
    requires CallOk(cfg, root, job) && job.stack != []
    ensures Lasting(cfg, root, Step(cfg, job), job.stack[0], StepTask(cfg, job.store, job.stack[0]).1)
  {
    hide StepTask, Settled, TaskOk, TaskMine, WholeMine, DomainsKnown;
    DoneOnce(cfg, root, job);
    OwnOk(cfg, root, job);
    StepKeepsJob(cfg, root, job);
    MineStays(job.store, Step(cfg, job).store, cfg.host, root, job.stack[0]);
  }

  lemma {:induction false} LastsFrom(cfg: Config, root: Task, run: seq<Job>, turns: seq<Turn>, x: nat, e: nat, t: Task, left: seq<Task>)
    requires root.Process? && IsHistory(cfg, root, run, turns) && Consistent(root.doc, root.depth, cfg.maxDepth)
    requires x <= e < |run| && Lasting(cfg, root, run[x], t, left)
    ensures Lasting(cfg, root, run[e], t, left)
    decreases e
  {
    hide Lasting, Possible, After, Consistent;
    if x < e {
      LastsFrom(cfg, root, run, turns, x, e - 1, t, left);
      assert Possible(cfg.host, root, run[e - 1], turns[e - 1]) && run[(e - 1) + 1] == After(cfg, root, run[e - 1], turns[e - 1]);
      LastingKept(cfg, root, run[e - 1], turns[e - 1], t, left);
    }
  }

  lemma LastingSettled(cfg: Config, root: Task, job: Job, t: Task, left: seq<Task>)
    requires Lasting(cfg, root, job, t, left)
    ensures Settled(cfg, job.store, t, left)
  {
  }

  /** The operation of turn x is done in every later state. */
  lemma OperationLasts(cfg: Config, root: Task, run: seq<Job>, turns: seq<Turn>, x: nat, e: nat)
    requires root.Process? && IsHistory(cfg, root, run, turns) && Consistent(root.doc, root.depth, cfg.maxDepth)
    requires x < e < |run| && turns[x].Own? && CallOk(cfg, root, run[x])
    ensures run[x].stack != [] && Settled(cfg, run[e].store, run[x].stack[0], StepTask(cfg, run[x].store, run[x].stack[0]).1)
  {
    assert Possible(cfg.host, root, run[x], turns[x]) && run[x + 1] == After(cfg, root, run[x], turns[x]);
    assert run[x + 1] == Step(cfg, run[x]);
    hide *;
    var t, left := run[x].stack[0], StepTask(cfg, run[x].store, run[x].stack[0]).1;
    DoneLasts(cfg, root, run[x]);
    LastsFrom(cfg, root, run, turns, x + 1, e, t, left);
    LastingSettled(cfg, root, run[e], t, left);
  }

  // -- From the last attempt to the store it leaves ------------------------------------------

  lemma HistoryOk(cfg: Config, root: Task, run: seq<Job>, turns: seq<Turn>, k: nat)
    requires root.Process? && IsHistory(cfg, root, run, turns) && k < |run|
    requires CallOk(cfg, root, run[0]) && Consistent(root.doc, root.depth, cfg.maxDepth)
    ensures CallOk(cfg, root, run[k])
  {
    hide CallOk, After, Possible;
    var ok := (job: Job) => CallOk(cfg, root, job);
    forall m | 0 <= m && m + 1 < |run| && ok(run[m]) ensures ok(run[m + 1]) {
      assert run[m + 1] == After(cfg, root, run[m], turns[m]);
      TurnOk(cfg, root, run[m], turns[m]);
    }
    KeptAlongRun(run, ok, k);
  }

  lemma AgainFixed(cfg: Config, job: Job, now: Store)
    requires job.stack != [] && Settled(cfg, now, job.stack[0], StepTask(cfg, job.store, job.stack[0]).1)
    requires Fixed(cfg, now, Step(cfg, job).stack)
    ensures Fixed(cfg, now, job.stack)
  {
    DrainStep(cfg, Job(now, job.stack));
    assert Step(cfg, Job(now, job.stack)) == Job(now, Step(cfg, job).stack);
  }

  /** Backwards through an attempt that ended at k: what it had left at x changes nothing in the store at e. */
  lemma {:induction false} LeftIsFixed(cfg: Config, root: Task, run: seq<Job>, turns: seq<Turn>, x: nat, k: nat, e: nat)
    requires root.Process? && IsHistory(cfg, root, run, turns) && Consistent(root.doc, root.depth, cfg.maxDepth)
    requires x <= k <= e < |run| && run[k].stack == [] && CallOk(cfg, root, run[0])
    requires forall m :: x <= m < k ==> !turns[m].Crash?
    ensures Fixed(cfg, run[e].store, run[x].stack)
    decreases k - x
  {
    hide Step, CallOk, StepTask, Drain;
    if x < k {
      LeftIsFixed(cfg, root, run, turns, x + 1, k, e);
      assert Possible(cfg.host, root, run[x], turns[x]) && run[x + 1] == After(cfg, root, run[x], turns[x]);
      if turns[x].Own? {
        HistoryOk(cfg, root, run, turns, x);
        OperationLasts(cfg, root, run, turns, x, e);
        AgainFixed(cfg, run[x], run[e].store);
      }
    } else {
      NothingLeft(cfg, run[e].store);
    }
  }

  lemma NothingLeft(cfg: Config, st: Store)
    ensures Fixed(cfg, st, [])
  {
  }

  /** The attempt that is at work in state k started at a. */
  lemma {:induction false} AttemptStart(cfg: Config, root: Task, run: seq<Job>, turns: seq<Turn>, k: nat) returns (a: nat)
    requires root.Process? && IsHistory(cfg, root, run, turns) && k < |run| && run[0].stack == [root]
    ensures a <= k && run[a].stack == [root] && forall m :: a <= m < k ==> !turns[m].Crash?
    decreases k
  {
    hide Step, Possible;
    if k == 0 || turns[k - 1].Crash? {
      a := k;
      assert k > 0 ==> run[(k - 1) + 1] == After(cfg, root, run[k - 1], turns[k - 1]);
    } else {
      a := AttemptStart(cfg, root, run, turns, k - 1);
    }
  }

  ghost function OwnCatalogs(st: Store, host: string, root: Task): set<nat>
    requires root.Process?
  {
    set c: nat | c < |st.catalogs| && Belongs(st, host, root, c)
  }

  /** A store that the call leaves as it is is complete, whatever else is in it. */
  lemma MineComplete(cfg: Config, root: Task, st: Store)
    requires root.Process? && StoreOk(st) && DomainsKnown(st) && WholeMine(st, cfg.host, root) && Fixed(cfg, st, [root])
    ensures Complete(cfg, st, root.doc, root.source, root.parent, root.depth)
  {
    hide Drain, Complete;
    FixedStep(cfg, st, [root]);
    var domain, own := IndexOf(st.domains, cfg.host), OwnCatalogs(st, cfg.host, root);
    assert domain < |st.domains|;
    assert root == Process(root.doc, root.source, root.parent, root.depth);
    OwnFixedMeansComplete(cfg, st, own, root.doc, root.source, root.parent, root.depth);
  }

  /**
   Recovery among others. Whatever crashes there were and whatever the others did in
   between, once one attempt has ended, every catalog of every level is saved and
   every entry has its follow-up row, then and in every later state.
   */
  lemma RecoveryAmongOthers(cfg: Config, root: Task, run: seq<Job>, turns: seq<Turn>, k: nat, e: nat)
    requires root.Process? && IsHistory(cfg, root, run, turns) && k <= e < |run|
    requires run[0].stack == [root] && Recoverable(cfg, run[0].store, root)
    requires DomainsKnown(run[0].store) && WholeMine(run[0].store, cfg.host, root)
    requires run[k].stack == []
    ensures Complete(cfg, run[e].store, root.doc, root.source, root.parent, root.depth)
  {
    assert CallOk(cfg, root, run[0]);
    hide IsHistory, Complete;
    var a := AttemptStart(cfg, root, run, turns, k);
    LeftIsFixed(cfg, root, run, turns, a, k, e);
    HistoryOk(cfg, root, run, turns, e);
    JobStoreOk(cfg, root, run[e]);
    MineComplete(cfg, root, run[e].store);
  }
}
