/**
 processCatalog as a stack of tasks, one store or frontier operation per step,
 so that a crash can fall between any two of them: the stack is lost, the store
 stays. Recovery runs the whole call again on the same bytes.
 */
module CatalogRecovery {
  import opened Basics
  import opened FrontierTable
  import opened DedupKey
  import opened CatalogStore

  /** host serves the outermost document, and with it every embedded one. */
  datatype Config = Config(maxDepth: nat, harvest: bool, fetchArtifacts: bool, runId: nat, host: string,
                           hostname: string -> string)

  datatype Task =
    | Process(doc: Doc, source: string, parent: Option<nat>, depth: nat)
    | Save(doc: Doc, domain: nat, source: string, parent: Option<nat>, depth: nat)
    | Follow(catalog: nat, ids: seq<nat>, entries: seq<Entry>, source: string, depth: nat)
    | Enlist(row: nat, url: string, entry: nat, catalog: nat)

  datatype Job = Job(store: Store, stack: seq<Task>)

  const NoProv := Provenance(None, None, None, None, None, "")

  function CatalogItem(cfg: Config, url: string, depth: nat, parent: nat): Item {
    BuildItem(CatalogFetch, url, cfg.host, depth, NoProv.(parentCatalog := Some(parent)), cfg.runId)
  }

  function ArtifactItem(cfg: Config, url: string, entry: nat): Item {
    BuildItem(ArtifactFetch, url, cfg.host, 0, NoProv.(artifactEntry := Some(entry)), cfg.runId)
  }

  function HarvestItem(cfg: Config, t: Task): Item
    requires t.Enlist?
  {
    BuildItem(RegistryHarvest, t.url, cfg.host, 0,
              NoProv.(registryEntry := Some(t.entry), registryCatalog := Some(t.catalog), registryRow := Some(t.row)),
              cfg.runId)
  }

  predicate Embedded(e: Entry) { e.kind.CatalogPointer? && e.url == "" && e.data.Some? }

  predicate Harvested(cfg: Config, e: Entry) { e.kind.RegistryPointer? && e.url != "" && cfg.harvest }

  predicate Fetched(cfg: Config, e: Entry) {
    !e.kind.CatalogPointer? && !Harvested(cfg, e) && e.url != "" && cfg.fetchArtifacts
  }

  /** One entry of enqueueEntryFollowups, up to its first store or frontier operation. */
  function FollowEntry(cfg: Config, st: Store, catalog: nat, id: nat, e: Entry, source: string, depth: nat): (Store, seq<Task>) {
    if e.kind.CatalogPointer? && e.url != "" then
      (EnsureItem(st, CatalogItem(cfg, e.url, depth + 1, catalog), cfg.hostname), [])
    else if Embedded(e) then
      (st, [Process(e.data.value, source + "#" + e.identifier, Some(catalog), depth + 1)])
    else if Harvested(cfg, e) then
      var (registries, row) := GetOrAdd(st.registries, RegistryRow.RegistryRow(id, e.url, None));
      (st.(registries := registries), [Enlist(row, e.url, id, catalog)])
    else if Fetched(cfg, e) then
      (EnsureItem(st, ArtifactItem(cfg, e.url, id), cfg.hostname), [])
    else (st, [])
  }

  /** What a task does to the store, and the tasks it leaves behind. */
  function StepTask(cfg: Config, st: Store, t: Task): (Store, seq<Task>) {
    match t
    case Process(doc, source, parent, depth) =>
      var (domains, domain) := GetOrAdd(st.domains, cfg.host);
      (st.(domains := domains), [Save(doc, domain, source, parent, depth)])
    case Save(doc, domain, source, parent, depth) =>
      var prior := Latest(st.catalogs, domain, source, parent);
      if prior.Some? && st.catalogs[prior.value].doc == doc then
        var ids := EntryIds(st.entries, prior.value);
        (st, if depth < cfg.maxDepth && |ids| == |doc.entries|
             then [Follow(prior.value, ids, doc.entries, source, depth)] else [])
      else
        (SaveCatalog(st, CatalogRow(domain, source, parent, doc)),
         if depth < cfg.maxDepth
         then [Follow(|st.catalogs|, Block(|st.entries|, |doc.entries|), doc.entries, source, depth)] else [])
    case Follow(catalog, ids, entries, source, depth) =>
      if entries == [] || ids == [] then (st, [])
      else
        var (st', left) := FollowEntry(cfg, st, catalog, ids[0], entries[0], source, depth);
        (st', left + [Follow(catalog, ids[1..], entries[1..], source, depth)])
    case Enlist(_, _, _, _) =>
      (EnsureItem(st, HarvestItem(cfg, t), cfg.hostname), [])
  }

  function Step(cfg: Config, job: Job): Job {
    if job.stack == [] then job
    else
      var (st, left) := StepTask(cfg, job.store, job.stack[0]);
      Job(st, left + job.stack[1..])
  }

  /** The first n operations of a call. */
  function Steps(cfg: Config, job: Job, n: nat): Job {
    Iterate(StepOf(cfg), job, n)
  }

  function StepOf(cfg: Config): Job -> Job { (job: Job) => Step(cfg, job) }

  // -- The whole call ------------------------------------------------------------------

  function EntryWeight(e: Entry): nat {
    4 + if e.data.Some? then 4 + EntriesWeight(e.data.value.entries) else 0
  }

  function EntriesWeight(entries: seq<Entry>): nat {
    if entries == [] then 0 else EntryWeight(entries[0]) + EntriesWeight(entries[1..])
  }

  function TaskWeight(t: Task): nat {
    match t
    case Process(doc, _, _, _) => 3 + EntriesWeight(doc.entries)
    case Save(doc, _, _, _, _) => 2 + EntriesWeight(doc.entries)
    case Follow(_, _, entries, _, _) => 1 + EntriesWeight(entries)
    case Enlist(_, _, _, _) => 1
  }

  function Weight(): Task -> nat { (t: Task) => TaskWeight(t) }

  lemma FollowFalls(cfg: Config, st: Store, catalog: nat, id: nat, e: Entry, source: string, depth: nat)
    ensures Sum(FollowEntry(cfg, st, catalog, id, e, source, depth).1, Weight()) < EntryWeight(e)
  {
    var left := FollowEntry(cfg, st, catalog, id, e, source, depth).1;
    if left != [] {
      SumOne(left[0], Weight());
    }
  }

  lemma TaskFalls(cfg: Config, st: Store, t: Task)
    ensures Sum(StepTask(cfg, st, t).1, Weight()) < TaskWeight(t)
  {
    var left := StepTask(cfg, st, t).1;
    if t.Follow? && t.entries != [] && t.ids != [] {
      var first := FollowEntry(cfg, st, t.catalog, t.ids[0], t.entries[0], t.source, t.depth).1;
      var rest := Follow(t.catalog, t.ids[1..], t.entries[1..], t.source, t.depth);
      FollowFalls(cfg, st, t.catalog, t.ids[0], t.entries[0], t.source, t.depth);
      SumAppend(first, [rest], Weight());
      SumOne(rest, Weight());
    } else if left != [] {
      SumOne(left[0], Weight());
    }
  }

  lemma JobFalls(cfg: Config, job: Job)
    requires job.stack != []
    ensures Sum(Step(cfg, job).stack, Weight()) < Sum(job.stack, Weight())
  {
    TaskFalls(cfg, job.store, job.stack[0]);
    SumAppend(StepTask(cfg, job.store, job.stack[0]).1, job.stack[1..], Weight());
  }

  /** The call run to its end. */
  function Drain(cfg: Config, job: Job): Store
    decreases Sum(job.stack, Weight())
  {
    if job.stack == [] then job.store
    else
      JobFalls(cfg, job);
      Drain(cfg, Step(cfg, job))
  }

  lemma DrainStep(cfg: Config, job: Job)
    ensures Drain(cfg, Step(cfg, job)) == Drain(cfg, job)
  {
  }

  lemma StepsDrainAlike(cfg: Config, job: Job, n: nat)
    ensures Drain(cfg, Steps(cfg, job, n)) == Drain(cfg, job)
  {
    var end := Drain(cfg, job);
    forall x | Drain(cfg, x) == end ensures Drain(cfg, StepOf(cfg)(x)) == end {
      DrainStep(cfg, x);
    }
    IterateKeeps(StepOf(cfg), x => Drain(cfg, x) == end, job, n);
  }

  function JobWeight(): Job -> nat { (job: Job) => Sum(job.stack, Weight()) }

  /** Every call ends: after enough operations the stack is empty and the store is Drain's. */
  lemma CallEnds(cfg: Config, job: Job) returns (n: nat)
    ensures Steps(cfg, job, n) == Job(Drain(cfg, job), [])
  {
    forall x | JobWeight()(x) > 0 ensures JobWeight()(StepOf(cfg)(x)) < JobWeight()(x) {
      JobFalls(cfg, x);
    }
    n := IterateEnds(StepOf(cfg), JobWeight(), job);
    StepsDrainAlike(cfg, job, n);
  }

  // -- Documents a call may meet ---------------------------------------------------------

  predicate Agree(a: Entry, b: Entry) {
    Embedded(a) && Embedded(b) && a.identifier == b.identifier ==> a.data == b.data
  }

  /** Embedded catalogs of one level that share an identifier share their bytes. */
  predicate SiblingsAgree(entries: seq<Entry>) {
    forall i, j :: 0 <= i < |entries| && 0 <= j < |entries| ==> Agree(entries[i], entries[j])
  }

  /** They do at every level that is followed. */
  predicate Consistent(doc: Doc, depth: nat, maxDepth: nat)
    decreases doc
  {
    depth < maxDepth ==>
      && SiblingsAgree(doc.entries)
      && forall i :: 0 <= i < |doc.entries| && Embedded(doc.entries[i])
           ==> Consistent(doc.entries[i].data.value, depth + 1, maxDepth)
  }

  /** Catalogs that give every entry its own identifier, at every level, are consistent. */
  predicate DistinctIdentifiers(doc: Doc) {
    && (forall i, j :: 0 <= i < j < |doc.entries| ==> doc.entries[i].identifier != doc.entries[j].identifier)
    && forall i :: 0 <= i < |doc.entries| && Embedded(doc.entries[i]) ==> DistinctIdentifiers(doc.entries[i].data.value)
  }

  lemma {:induction false} DistinctIsConsistent(doc: Doc, depth: nat, maxDepth: nat)
    requires DistinctIdentifiers(doc)
    ensures Consistent(doc, depth, maxDepth)
    decreases doc
  {
    forall i | 0 <= i < |doc.entries| && Embedded(doc.entries[i])
      ensures Consistent(doc.entries[i].data.value, depth + 1, maxDepth)
    {
      DistinctIsConsistent(doc.entries[i].data.value, depth + 1, maxDepth);
    }
  }

  // -- Where the tasks of a call come from -----------------------------------------------

  predicate Above(parent: Option<nat>, c: nat) { parent.Some? ==> parent.value < c }

  predicate EmbeddedIn(row: CatalogRow, i: nat, source: string, doc: Doc) {
    && i < |row.doc.entries|
    && Embedded(row.doc.entries[i])
    && row.doc.entries[i].data.value == doc
    && source == row.source + "#" + row.doc.entries[i].identifier
  }

  /** The document of the call itself, or one embedded in a catalog the call has seen. */
  ghost predicate Legit(st: Store, root: Task, source: string, parent: Option<nat>, doc: Doc)
    requires root.Process?
  {
    || (source == root.source && parent == root.parent && doc == root.doc)
    || (&& parent.Some?
        && Above(root.parent, parent.value)
        && parent.value < |st.catalogs|
        && SiblingsAgree(st.catalogs[parent.value].doc.entries)
        && exists i: nat :: EmbeddedIn(st.catalogs[parent.value], i, source, doc))
  }

  /** So source and parent determine the document. */
  lemma LegitUnique(st: Store, root: Task, source: string, parent: Option<nat>, a: Doc, b: Doc)
    requires root.Process? && Legit(st, root, source, parent, a) && Legit(st, root, source, parent, b)
    ensures a == b
  {
    if parent != root.parent {
      var row := st.catalogs[parent.value];
      var i: nat :| EmbeddedIn(row, i, source, a);
      var j: nat :| EmbeddedIn(row, j, source, b);
      var head := row.source + "#";
      assert row.doc.entries[i].identifier == source[|head|..] == row.doc.entries[j].identifier;
      assert Agree(row.doc.entries[i], row.doc.entries[j]);
    }
  }

  ghost predicate TaskOk(cfg: Config, st: Store, root: Task, t: Task)
    requires root.Process?
  {
    match t
    case Process(doc, source, parent, depth) =>
      Legit(st, root, source, parent, doc) && Consistent(doc, depth, cfg.maxDepth)
    case Save(doc, _, source, parent, depth) =>
      Legit(st, root, source, parent, doc) && Consistent(doc, depth, cfg.maxDepth)
    case Follow(catalog, ids, entries, source, depth) =>
      && catalog < |st.catalogs| && Above(root.parent, catalog)
      && st.catalogs[catalog].source == source
      && |entries| <= |st.catalogs[catalog].doc.entries|
      && entries == st.catalogs[catalog].doc.entries[|st.catalogs[catalog].doc.entries| - |entries|..]
      && depth < cfg.maxDepth && Consistent(st.catalogs[catalog].doc, depth, cfg.maxDepth)
    case Enlist(_, _, _, _) => true
  }

  /** Foreign keys point at rows that exist, a catalog's parent at an older catalog. */
  predicate StoreOk(st: Store) {
    && (forall i :: 0 <= i < |st.catalogs| && st.catalogs[i].parent.Some? ==> st.catalogs[i].parent.value < i)
    && forall k :: 0 <= k < |st.entries| ==> st.entries[k].catalog < |st.catalogs|
  }

  predicate RootOk(st: Store, root: Task) {
    root.Process? && (root.parent.Some? ==> root.parent.value < |st.catalogs|)
  }

  ghost predicate JobOk(cfg: Config, root: Task, job: Job) {
    && StoreOk(job.store)
    && RootOk(job.store, root)
    && forall k :: 0 <= k < |job.stack| ==> TaskOk(cfg, job.store, root, job.stack[k])
  }

  lemma EntryGrows(cfg: Config, st: Store, catalog: nat, id: nat, e: Entry, source: string, depth: nat)
    ensures Grew(st, FollowEntry(cfg, st, catalog, id, e, source, depth).0)
  {
    if e.kind.CatalogPointer? && e.url != "" {
      EnsureGrows(st, CatalogItem(cfg, e.url, depth + 1, catalog), cfg.hostname);
    } else if Fetched(cfg, e) {
      EnsureGrows(st, ArtifactItem(cfg, e.url, id), cfg.hostname);
    }
  }

  lemma TaskGrows(cfg: Config, st: Store, t: Task)
    ensures Grew(st, StepTask(cfg, st, t).0)
  {
    if t.Follow? && t.entries != [] && t.ids != [] {
      EntryGrows(cfg, st, t.catalog, t.ids[0], t.entries[0], t.source, t.depth);
    } else if t.Enlist? {
      EnsureGrows(st, HarvestItem(cfg, t), cfg.hostname);
    }
  }

  lemma TaskOkGrows(cfg: Config, st: Store, st': Store, root: Task, t: Task)
    requires root.Process? && Widened(st, st') && TaskOk(cfg, st, root, t)
    ensures TaskOk(cfg, st', root, t)
  {
  }

  /** The catalog a Save ends up with carries its source and parent, above the call's own parent. */
  lemma SaveOk(cfg: Config, st: Store, root: Task, t: Task)
    requires StoreOk(st) && RootOk(st, root) && TaskOk(cfg, st, root, t) && t.Save?
    ensures var (st', left) := StepTask(cfg, st, t);
      StoreOk(st') && forall k :: 0 <= k < |left| ==> TaskOk(cfg, st', root, left[k])
  {
    hide FollowEntry;
    var (st', left) := StepTask(cfg, st, t);
    var rows := RowsFor(|st.catalogs|, t.doc.entries);
    forall k | st' != st && 0 <= k < |st'.entries| ensures st'.entries[k].catalog < |st'.catalogs| {
      assert st'.entries[k] == if k < |st.entries| then st.entries[k] else rows[k - |st.entries|];
    }
    assert StoreOk(st');
    if left != [] {
      var c := left[0].catalog;
      assert st'.catalogs[c].parent == t.parent && st'.catalogs[c].doc == t.doc;
      assert Above(root.parent, c);
    }
  }

  lemma FollowOk(cfg: Config, st: Store, root: Task, t: Task)
    requires StoreOk(st) && RootOk(st, root) && TaskOk(cfg, st, root, t) && t.Follow?
    ensures var (st', left) := StepTask(cfg, st, t);
      StoreOk(st') && forall k :: 0 <= k < |left| ==> TaskOk(cfg, st', root, left[k])
  {
    var (st', left) := StepTask(cfg, st, t);
    TaskGrows(cfg, st, t);
    if left != [] {
      var row := st.catalogs[t.catalog];
      var i := |row.doc.entries| - |t.entries|;
      var first := FollowEntry(cfg, st, t.catalog, t.ids[0], t.entries[0], t.source, t.depth).1;
      assert row.doc.entries[i] == t.entries[0];
      assert t.entries[1..] == row.doc.entries[i + 1..];
      if Embedded(t.entries[0]) {
        assert EmbeddedIn(row, i, first[0].source, first[0].doc);
        assert TaskOk(cfg, st', root, first[0]);
      }
    }
  }

  lemma StepKeepsJob(cfg: Config, root: Task, job: Job)
    requires JobOk(cfg, root, job)
    ensures JobOk(cfg, root, Step(cfg, job)) && Grew(job.store, Step(cfg, job).store)
  {
    if job.stack != [] {
      var t := job.stack[0];
      var (st, left) := StepTask(cfg, job.store, t);
      TaskGrows(cfg, job.store, t);
      if t.Save? {
        SaveOk(cfg, job.store, root, t);
      } else if t.Follow? {
        FollowOk(cfg, job.store, root, t);
      }
      var stack := left + job.stack[1..];
      forall k | 0 <= k < |stack| ensures TaskOk(cfg, st, root, stack[k]) {
        if k >= |left| {
          assert stack[k] == job.stack[1..][k - |left|] == job.stack[k - |left| + 1];
          TaskOkGrows(cfg, job.store, st, root, stack[k]);
        }
      }
    }
  }

  lemma StepsKeepJob(cfg: Config, root: Task, job: Job, n: nat)
    requires JobOk(cfg, root, job)
    ensures JobOk(cfg, root, Steps(cfg, job, n))
  {
    forall x | JobOk(cfg, root, x) ensures JobOk(cfg, root, StepOf(cfg)(x)) {
      StepKeepsJob(cfg, root, x);
    }
    IterateKeeps(StepOf(cfg), x => JobOk(cfg, root, x), job, n);
  }

  // -- Doing an operation again changes nothing ---------------------------------------------

  /** Running t again leaves the store as it is and goes on with the same tasks. */
  predicate Settled(cfg: Config, st: Store, t: Task, left: seq<Task>) {
    StepTask(cfg, st, t) == (st, left)
  }

  lemma SaveTwice(cfg: Config, st: Store, t: Task)
    requires StoreOk(st) && t.Save?
    ensures Settled(cfg, StepTask(cfg, st, t).0, t, StepTask(cfg, st, t).1)
  {
    var (st', left) := StepTask(cfg, st, t);
    if st' != st {
      EntryIdsSaved(st.entries, RowsFor(|st.catalogs|, t.doc.entries), |st.catalogs|);
      assert Identifies(st'.catalogs[|st.catalogs|], t.domain, t.source, t.parent);
    }
  }

  lemma StepTwice(cfg: Config, st: Store, t: Task)
    requires StoreOk(st)
    ensures Settled(cfg, StepTask(cfg, st, t).0, t, StepTask(cfg, st, t).1)
  {
    if t.Save? {
      SaveTwice(cfg, st, t);
    } else {
      var st' := StepTask(cfg, st, t).0;
      StaysSettled(cfg, st, st', t);
    }
  }

  lemma EntryStaysSettled(cfg: Config, st: Store, st': Store, catalog: nat, id: nat, e: Entry, source: string, depth: nat)
    requires Widened(FollowEntry(cfg, st, catalog, id, e, source, depth).0, st')
    ensures FollowEntry(cfg, st', catalog, id, e, source, depth) == (st', FollowEntry(cfg, st, catalog, id, e, source, depth).1)
  {
    if e.kind.CatalogPointer? && e.url != "" {
      EnsureStable(st, st', CatalogItem(cfg, e.url, depth + 1, catalog), cfg.hostname);
    } else if Harvested(cfg, e) {
      GetOrAddStable(st.registries, st'.registries, RegistryRow.RegistryRow(id, e.url, None));
    } else if Fetched(cfg, e) {
      EnsureStable(st, st', ArtifactItem(cfg, e.url, id), cfg.hostname);
    }
  }

  /** For every task but Save, growth alone keeps the answer. */
  lemma StaysSettled(cfg: Config, st: Store, st': Store, t: Task)
    requires !t.Save? && Widened(StepTask(cfg, st, t).0, st')
    ensures Settled(cfg, st', t, StepTask(cfg, st, t).1)
  {
    if t.Process? {
      GetOrAddStable(st.domains, st'.domains, cfg.host);
    } else if t.Follow? && t.entries != [] && t.ids != [] {
      EntryStaysSettled(cfg, st, st', t.catalog, t.ids[0], t.entries[0], t.source, t.depth);
    } else if t.Enlist? {
      EnsureStable(st, st', HarvestItem(cfg, t), cfg.hostname);
    }
  }

  lemma LatestKept(catalogs: seq<CatalogRow>, row: CatalogRow, domain: nat, source: string, parent: Option<nat>)
    requires !Identifies(row, domain, source, parent)
    ensures Latest(catalogs + [row], domain, source, parent) == Latest(catalogs, domain, source, parent)
  {
    assert (catalogs + [row])[..|catalogs|] == catalogs;
  }

  lemma OnlySaveTouchesCatalogs(cfg: Config, st: Store, t: Task)
    requires !t.Save?
    ensures StepTask(cfg, st, t).0.catalogs == st.catalogs && StepTask(cfg, st, t).0.entries == st.entries
  {
  }

  /** A saved catalog stays the latest of its source and parent, for the call saves no other document there. */
  lemma SaveStaysSettled(cfg: Config, st: Store, root: Task, t: Task, left: seq<Task>, other: Task)
    requires StoreOk(st) && root.Process? && t.Save? && Settled(cfg, st, t, left)
    requires TaskOk(cfg, st, root, t) && TaskOk(cfg, st, root, other)
    ensures Settled(cfg, StepTask(cfg, st, other).0, t, left)
  {
    hide FollowEntry, Legit, Consistent;
    var st' := StepTask(cfg, st, other).0;
    var prior := Latest(st.catalogs, t.domain, t.source, t.parent);
    assert prior.Some? && st.catalogs[prior.value].doc == t.doc by {
      assert |SaveCatalog(st, CatalogRow(t.domain, t.source, t.parent, t.doc)).catalogs| == |st.catalogs| + 1;
    }
    if !other.Save? {
      OnlySaveTouchesCatalogs(cfg, st, other);
    } else if st' != st {
      var row := CatalogRow(other.domain, other.source, other.parent, other.doc);
      assert !Identifies(row, t.domain, t.source, t.parent) by {
        if Identifies(row, t.domain, t.source, t.parent) {
          LegitUnique(st, root, t.source, t.parent, t.doc, other.doc);
        }
      }
      LatestKept(st.catalogs, row, t.domain, t.source, t.parent);
      EntryIdsKept(st.entries, RowsFor(|st.catalogs|, other.doc.entries), prior.value);
    }
  }

  ghost predicate StillDone(cfg: Config, root: Task, job: Job, t: Task, left: seq<Task>) {
    JobOk(cfg, root, job) && TaskOk(cfg, job.store, root, t) && Settled(cfg, job.store, t, left)
  }

  lemma StillDoneKept(cfg: Config, root: Task, job: Job, t: Task, left: seq<Task>)
    requires StillDone(cfg, root, job, t, left)
    ensures StillDone(cfg, root, Step(cfg, job), t, left)
  {
    hide StepTask;
    if job.stack != [] {
      StepKeepsJob(cfg, root, job);
      TaskOkGrows(cfg, job.store, Step(cfg, job).store, root, t);
      if t.Save? {
        SaveStaysSettled(cfg, job.store, root, t, left, job.stack[0]);
      } else {
        StaysSettled(cfg, job.store, Step(cfg, job).store, t);
      }
    }
  }

  lemma DoneOnce(cfg: Config, root: Task, job: Job)
    requires JobOk(cfg, root, job) && job.stack != []
    ensures StillDone(cfg, root, Step(cfg, job), job.stack[0], StepTask(cfg, job.store, job.stack[0]).1)
  {
    hide StepTask;
    StepTwice(cfg, job.store, job.stack[0]);
    StepKeepsJob(cfg, root, job);
    TaskOkGrows(cfg, job.store, Step(cfg, job).store, root, job.stack[0]);
  }

  lemma DoneForGood(cfg: Config, root: Task, job: Job, t: Task, left: seq<Task>, n: nat)
    requires StillDone(cfg, root, job, t, left)
    ensures StillDone(cfg, root, Steps(cfg, job, n), t, left)
  {
    hide StepTask;
    forall x | StillDone(cfg, root, x, t, left) ensures StillDone(cfg, root, StepOf(cfg)(x), t, left) {
      StillDoneKept(cfg, root, x, t, left);
    }
    IterateKeeps(StepOf(cfg), x => StillDone(cfg, root, x, t, left), job, n);
  }

  /** What an operation of a call did stays done through all later ones. */
  lemma OperationStaysDone(cfg: Config, root: Task, was: Job, n: nat)
    requires JobOk(cfg, root, was) && was.stack != []
    ensures Settled(cfg, Steps(cfg, Step(cfg, was), n).store, was.stack[0], StepTask(cfg, was.store, was.stack[0]).1)
  {
    hide StepTask;
    var t, left := was.stack[0], StepTask(cfg, was.store, was.stack[0]).1;
    DoneOnce(cfg, root, was);
    DoneForGood(cfg, root, Step(cfg, was), t, left, n);
  }

  lemma StepsSplit(cfg: Config, job: Job, i: nat, k: nat)
    requires i < k
    ensures Steps(cfg, Step(cfg, Steps(cfg, job, i)), k - i - 1) == Steps(cfg, job, k)
  {
    hide StepTask;
    IterateSplit(StepOf(cfg), job, i, k);
  }

  /** The same stack over another store. */
  function On(now: Store): Job -> Job { (job: Job) => Job(now, job.stack) }

  lemma ReplayOne(cfg: Config, root: Task, was: Job, n: nat)
    requires JobOk(cfg, root, was)
    ensures var now := Steps(cfg, Step(cfg, was), n).store;
      Step(cfg, Job(now, was.stack)) == Job(now, Step(cfg, was).stack)
  {
    hide StepTask;
    if was.stack != [] {
      OperationStaysDone(cfg, root, was, n);
    }
  }

  lemma ReplayStep(cfg: Config, root: Task, job: Job, j: nat, k: nat)
    requires JobOk(cfg, root, job) && j < k
    ensures var (now, was) := (Steps(cfg, job, k).store, Steps(cfg, job, j));
      Step(cfg, Job(now, was.stack)) == Job(now, Step(cfg, was).stack)
  {
    hide StepTask;
    var was := Steps(cfg, job, j);
    assert JobOk(cfg, root, was) by { StepsKeepJob(cfg, root, job, j); }
    assert Steps(cfg, Step(cfg, was), k - j - 1).store == Steps(cfg, job, k).store by { StepsSplit(cfg, job, j, k); }
    ReplayOne(cfg, root, was, k - j - 1);
  }

  /** After a crash behind k operations, the second run passes through the same tasks and writes nothing for k operations. */
  lemma Replay(cfg: Config, root: Task, job: Job, k: nat)
    requires JobOk(cfg, root, job)
    ensures Steps(cfg, Job(Steps(cfg, job, k).store, job.stack), k) == Steps(cfg, job, k)
  {
    hide StepTask;
    var now := Steps(cfg, job, k).store;
    forall j | 0 <= j < k
      ensures StepOf(cfg)(On(now)(Iterate(StepOf(cfg), job, j))) == On(now)(StepOf(cfg)(Iterate(StepOf(cfg), job, j)))
    {
      ReplayStep(cfg, root, job, j, k);
    }
    IterateCommutes(StepOf(cfg), On(now), job, k);
  }

  ghost predicate Recoverable(cfg: Config, st: Store, root: Task) {
    StoreOk(st) && RootOk(st, root) && Consistent(root.doc, root.depth, cfg.maxDepth)
  }

  /**
   Crash equivalence. Stop the call after any n operations and run it again:
   domains, catalogs, entries, registries and frontier end as one uninterrupted
   call leaves them, through embedded catalogs of any depth.
   */
  lemma CrashEquivalence(cfg: Config, st: Store, root: Task, n: nat)
    requires Recoverable(cfg, st, root)
    ensures Drain(cfg, Job(Steps(cfg, Job(st, [root]), n).store, [root])) == Drain(cfg, Job(st, [root]))
  {
    var job := Job(st, [root]);
    var crashed := Steps(cfg, job, n);
    Replay(cfg, root, job, n);
    StepsDrainAlike(cfg, Job(crashed.store, [root]), n);
    StepsDrainAlike(cfg, job, n);
  }

  /** Every attempt but the last crashes: attempt k after crashes[k] operations. */
  function Attempts(cfg: Config, st: Store, root: Task, crashes: seq<nat>): Store
    decreases |crashes|
  {
    if crashes == [] then Drain(cfg, Job(st, [root]))
    else Attempts(cfg, Steps(cfg, Job(st, [root]), crashes[0]).store, root, crashes[1..])
  }

  lemma {:induction false} AnyNumberOfCrashes(cfg: Config, st: Store, root: Task, crashes: seq<nat>)
    requires Recoverable(cfg, st, root)
    ensures Attempts(cfg, st, root, crashes) == Drain(cfg, Job(st, [root]))
    decreases |crashes|
  {
    if crashes != [] {
      var job := Job(st, [root]);
      StepsKeepJob(cfg, root, job, crashes[0]);
      CrashEquivalence(cfg, st, root, crashes[0]);
      AnyNumberOfCrashes(cfg, Steps(cfg, job, crashes[0]).store, root, crashes[1..]);
    }
  }

  /** Hence processing an unchanged document a second time changes no row. */
  lemma SecondCallChangesNothing(cfg: Config, st: Store, root: Task)
    requires Recoverable(cfg, st, root)
    ensures Drain(cfg, Job(Drain(cfg, Job(st, [root])), [root])) == Drain(cfg, Job(st, [root]))
  {
    var n := CallEnds(cfg, Job(st, [root]));
    CrashEquivalence(cfg, st, root, n);
  }
}
