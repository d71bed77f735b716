/**
 The work catalogs and registries create: how much there is, how deep it sits,
 and what rows harvested from a registry do to the recovery of a catalog.
 */
module CatalogWork {
  import opened Basics
  import opened FrontierTable
  import opened DedupKey
  import opened CatalogStore
  import opened CatalogRecovery
  import opened CatalogCompleteness
  import BoundedWork

  // -- processCatalog ----------------------------------------------------------------------

  /** The entries of a document, embedded ones included. */
  function EntryCount(entries: seq<Entry>): nat {
    if entries == [] then 0
    else 1 + (if entries[0].data.Some? then EntryCount(entries[0].data.value.entries) else 0) + EntryCount(entries[1..])
  }

  function TaskItems(t: Task): nat {
    match t
    case Process(doc, _, _, _) => EntryCount(doc.entries)
    case Save(doc, _, _, _, _) => EntryCount(doc.entries)
    case Follow(_, _, entries, _, _) => EntryCount(entries)
    case Enlist(_, _, _, _) => 1
  }

  function Items(): Task -> nat { (t: Task) => TaskItems(t) }

  predicate DeepEnough(t: Task, depth: nat, maxDepth: nat) {
    !t.Enlist? ==> depth <= t.depth && (t.Follow? ==> t.depth < maxDepth)
  }

  /** A row a handler of (kind, depth) may create. */
  predicate RowFits(r: Row, kind: Kind, depth: nat, lim: BoundedWork.Limits) {
    && BoundedWork.ChildOf(kind, depth, r.kind, r.depth, lim)
    && KeyOfKind(r.key, r.kind)
    && r.status.Pending?
  }

  predicate NewRowsFit(t: Table, u: Table, kind: Kind, depth: nat, lim: BoundedWork.Limits) {
    t <= u && forall i :: |t| <= i < |u| ==> RowFits(u[i], kind, depth, lim)
  }

  lemma NewRowsFitOn(t: Table, u: Table, v: Table, kind: Kind, depth: nat, lim: BoundedWork.Limits)
    requires NewRowsFit(t, u, kind, depth, lim) && NewRowsFit(u, v, kind, depth, lim)
    ensures NewRowsFit(t, v, kind, depth, lim)
  {
    assert forall i :: |t| <= i < |u| ==> v[i] == u[i];
  }

  lemma ItemFits(cfg: Config, st: Store, k: Kind, url: string, itemDepth: nat, p: Provenance,
                 kind: Kind, depth: nat, lim: BoundedWork.Limits)
    requires BoundedWork.ChildOf(kind, depth, k, itemDepth, lim)
    ensures var st' := EnsureItem(st, BuildItem(k, url, cfg.host, itemDepth, p, cfg.runId), cfg.hostname);
      |st'.frontier| <= |st.frontier| + 1 && NewRowsFit(st.frontier, st'.frontier, kind, depth, lim)
  {
    EnsureOutcome(st, BuildItem(k, url, cfg.host, itemDepth, p, cfg.runId), cfg.hostname);
    BuiltKeyOfKind(k, url, cfg.host, p);
  }

  lemma EntryRowsFit(cfg: Config, st: Store, catalog: nat, id: nat, e: Entry, source: string, at: nat, depth: nat, lim: BoundedWork.Limits)
    requires depth <= at < lim.catalogDepth && lim.catalogDepth == cfg.maxDepth
    ensures var (st', left) := FollowEntry(cfg, st, catalog, id, e, source, at);
      && NewRowsFit(st.frontier, st'.frontier, CatalogFetch, depth, lim)
      && |st'.frontier| <= |st.frontier| + 1
      && (left != [] ==> st'.frontier == st.frontier)
  {
    if e.kind.CatalogPointer? && e.url != "" {
      ItemFits(cfg, st, CatalogFetch, e.url, at + 1, NoProv.(parentCatalog := Some(catalog)), CatalogFetch, depth, lim);
    } else if Fetched(cfg, e) {
      ItemFits(cfg, st, ArtifactFetch, e.url, 0, NoProv.(artifactEntry := Some(id)), CatalogFetch, depth, lim);
    }
  }

  lemma EntryWork(cfg: Config, st: Store, catalog: nat, id: nat, e: Entry, source: string, at: nat, depth: nat, lim: BoundedWork.Limits)
    requires depth <= at < lim.catalogDepth && lim.catalogDepth == cfg.maxDepth
    ensures var (st', left) := FollowEntry(cfg, st, catalog, id, e, source, at);
      && NewRowsFit(st.frontier, st'.frontier, CatalogFetch, depth, lim)
      && |st'.frontier| - |st.frontier| + Sum(left, Items()) <= EntryCount([e])
      && forall k :: 0 <= k < |left| ==> DeepEnough(left[k], depth, cfg.maxDepth)
  {
    EntryRowsFit(cfg, st, catalog, id, e, source, at, depth, lim);
    var left := FollowEntry(cfg, st, catalog, id, e, source, at).1;
    if left != [] {
      SumOne(left[0], Items());
    }
  }

  lemma TaskWork(cfg: Config, st: Store, t: Task, depth: nat, lim: BoundedWork.Limits)
    requires DeepEnough(t, depth, cfg.maxDepth) && lim.catalogDepth == cfg.maxDepth && depth < cfg.maxDepth
    ensures var (st', left) := StepTask(cfg, st, t);
      && NewRowsFit(st.frontier, st'.frontier, CatalogFetch, depth, lim)
      && |st'.frontier| - |st.frontier| + Sum(left, Items()) <= TaskItems(t)
      && forall k :: 0 <= k < |left| ==> DeepEnough(left[k], depth, cfg.maxDepth)
  {
    hide FollowEntry;
    var left := StepTask(cfg, st, t).1;
    if t.Follow? && t.entries != [] && t.ids != [] {
      EntryWork(cfg, st, t.catalog, t.ids[0], t.entries[0], t.source, t.depth, depth, lim);
      var first := FollowEntry(cfg, st, t.catalog, t.ids[0], t.entries[0], t.source, t.depth).1;
      var rest := t.(ids := t.ids[1..], entries := t.entries[1..]);
      SumAppend(first, [rest], Items());
      SumOne(rest, Items());
    } else if t.Enlist? {
      ItemFits(cfg, st, RegistryHarvest, t.url, 0,
               NoProv.(registryEntry := Some(t.entry), registryCatalog := Some(t.catalog), registryRow := Some(t.row)), CatalogFetch, depth, lim);
    } else if left != [] {
      SumOne(left[0], Items());
    }
  }

  /** A document handled below the depth limit creates at most one row per entry, each ranked below the handler. */
  lemma {:induction false} CatalogWorkFits(cfg: Config, job: Job, depth: nat, lim: BoundedWork.Limits)
    requires lim.catalogDepth == cfg.maxDepth && depth < cfg.maxDepth
    requires forall k :: 0 <= k < |job.stack| ==> DeepEnough(job.stack[k], depth, cfg.maxDepth)
    ensures var end := Drain(cfg, job).frontier;
      && |end| - |job.store.frontier| <= Sum(job.stack, Items())
      && NewRowsFit(job.store.frontier, end, CatalogFetch, depth, lim)
    decreases Sum(job.stack, Weight())
  {
    if job.stack != [] {
      var next := Step(cfg, job);
      JobFalls(cfg, job);
      TaskWork(cfg, job.store, job.stack[0], depth, lim);
      SumAppend(StepTask(cfg, job.store, job.stack[0]).1, job.stack[1..], Items());
      CatalogWorkFits(cfg, next, depth, lim);
      NewRowsFitOn(job.store.frontier, next.store.frontier, Drain(cfg, job).frontier, CatalogFetch, depth, lim);
    }
  }

  /** At or below the depth limit a catalog is saved and nothing else happens. */
  lemma NoWorkAtTheLimit(cfg: Config, st: Store, doc: Doc, source: string, parent: Option<nat>, depth: nat)
    requires depth >= cfg.maxDepth
    ensures var end := Drain(cfg, Job(st, [Process(doc, source, parent, depth)]));
      end.frontier == st.frontier && end.registries == st.registries && |end.catalogs| <= |st.catalogs| + 1
  {
    var save := Step(cfg, Job(st, [Process(doc, source, parent, depth)]));
    DrainStep(cfg, Job(st, [Process(doc, source, parent, depth)]));
    DrainStep(cfg, save);
    assert Step(cfg, save).stack == [];
  }

  // -- handleRegistryHarvest ---------------------------------------------------------------------

  /** A claimed registry_harvest item with its provenance; a missing id reads as 0. */
  datatype Harvest = Harvest(depth: nat, row: Option<nat>, entry: nat, catalog: nat)

  /** The registry's answer: results with the entry they carry, and referral URLs. */
  datatype Answer = Answer(results: seq<Entry>, referrals: seq<string>)

  function HarvestedRows(catalog: nat, row: nat, results: seq<Entry>): (rows: seq<EntryRow>)
    ensures |rows| == |results|
  {
    seq(|results|, i requires 0 <= i < |results| => EntryRow(catalog, results[i], Some(row)))
  }

  /** SaveEntries: the results become entry rows of the catalog that declared the registry. */
  function Attach(st: Store, h: Harvest, results: seq<Entry>): Store
    requires h.row.Some?
  {
    st.(entries := st.entries + HarvestedRows(h.catalog, h.row.value, results))
  }

  /** A registry named by a referral or a result, one referral deeper. */
  function Refer(cfg: Config, st: Store, h: Harvest, url: string, entry: nat): Store {
    var (registries, row) := GetOrAdd(st.registries, RegistryRow.RegistryRow(entry, url, h.row));
    var prov := NoProv.(registryEntry := Some(entry), registryCatalog := Some(h.catalog), registryRow := Some(row));
    EnsureItem(st.(registries := registries), BuildItem(RegistryHarvest, url, cfg.host, h.depth + 1, prov, cfg.runId), cfg.hostname)
  }

  function FollowResult(cfg: Config, st: Store, h: Harvest, url: string, e: Entry, id: nat): Store {
    if e.kind.CatalogPointer? && e.url != "" then EnsureItem(st, CatalogItem(cfg, e.url, 0, h.catalog), cfg.hostname)
    else if Embedded(e) then Drain(cfg, Job(st, [Process(e.data.value, url + "#" + e.identifier, Some(h.catalog), 0)]))
    else if Harvested(cfg, e) then Refer(cfg, st, h, e.url, id)
    else st
  }

  /** The i-th result; first is the id of the row saved for result 0. */
  function ResultStep(cfg: Config, h: Harvest, url: string, results: seq<Entry>, first: nat): (Store, nat) -> Store {
    (st: Store, i: nat) => if i < |results| then FollowResult(cfg, st, h, url, results[i], first + i) else st
  }

  function ReferralStep(cfg: Config, h: Harvest, maxReferral: nat, referrals: seq<string>): (Store, nat) -> Store {
    (st: Store, i: nat) =>
      if i < |referrals| && referrals[i] != "" && h.depth + 1 <= maxReferral
      then Refer(cfg, st, h, referrals[i], h.entry) else st
  }

  function HarvestOutcome(cfg: Config, st: Store, h: Harvest, url: string, maxReferral: nat, answer: Answer): Store {
    if h.depth > maxReferral || h.row.None? then st
    else
      var saved := Attach(st, h, answer.results);
      var followed := Fold(ResultStep(cfg, h, url, answer.results, |st.entries|), saved, |answer.results|);
      Fold(ReferralStep(cfg, h, maxReferral, answer.referrals), followed, |answer.referrals|)
  }

  /** At most n rows beyond base, all of them work for this harvest. */
  predicate HarvestGrowth(base: Table, st: Store, n: nat, h: Harvest, lim: BoundedWork.Limits) {
    |st.frontier| <= |base| + n && NewRowsFit(base, st.frontier, RegistryHarvest, h.depth, lim)
  }

  lemma ReferFits(cfg: Config, st: Store, h: Harvest, url: string, entry: nat, lim: BoundedWork.Limits)
    requires h.depth <= lim.referralDepth
    ensures HarvestGrowth(st.frontier, Refer(cfg, st, h, url, entry), 1, h, lim)
  {
    var (registries, row) := GetOrAdd(st.registries, RegistryRow.RegistryRow(entry, url, h.row));
    var prov := NoProv.(registryEntry := Some(entry), registryCatalog := Some(h.catalog), registryRow := Some(row));
    ItemFits(cfg, st.(registries := registries), RegistryHarvest, url, h.depth + 1, prov, RegistryHarvest, h.depth, lim);
  }

  lemma ResultFits(cfg: Config, st: Store, h: Harvest, url: string, e: Entry, id: nat, lim: BoundedWork.Limits)
    requires h.depth <= lim.referralDepth && !e.kind.CatalogPointer?
    ensures HarvestGrowth(st.frontier, FollowResult(cfg, st, h, url, e, id), 1, h, lim)
  {
    ReferFits(cfg, st, h, e.url, id, lim);
  }

  lemma {:induction false} FoldGrowth(f: (Store, nat) -> Store, st: Store, n: nat, h: Harvest, lim: BoundedWork.Limits)
    requires forall x: Store, i: nat :: i < n ==> HarvestGrowth(x.frontier, f(x, i), 1, h, lim)
    ensures HarvestGrowth(st.frontier, Fold(f, st, n), n, h, lim)
  {
    if n > 0 {
      var before := Fold(f, st, n - 1);
      FoldGrowth(f, st, n - 1, h, lim);
      NewRowsFitOn(st.frontier, before.frontier, f(before, n - 1).frontier, RegistryHarvest, h.depth, lim);
    }
  }

  lemma ResultStepFits(cfg: Config, st: Store, h: Harvest, url: string, results: seq<Entry>, first: nat, i: nat, lim: BoundedWork.Limits)
    requires h.depth <= lim.referralDepth && i < |results| && !results[i].kind.CatalogPointer?
    ensures HarvestGrowth(st.frontier, ResultStep(cfg, h, url, results, first)(st, i), 1, h, lim)
  {
    hide FollowResult;
    ResultFits(cfg, st, h, url, results[i], first + i, lim);
  }

  lemma ResultsFit(cfg: Config, st: Store, h: Harvest, url: string, results: seq<Entry>, first: nat, lim: BoundedWork.Limits)
    requires h.depth <= lim.referralDepth
    requires forall i :: 0 <= i < |results| ==> !results[i].kind.CatalogPointer?
    ensures HarvestGrowth(st.frontier, Fold(ResultStep(cfg, h, url, results, first), st, |results|), |results|, h, lim)
  {
    var f := ResultStep(cfg, h, url, results, first);
    forall x: Store, i: nat | i < |results| ensures HarvestGrowth(x.frontier, f(x, i), 1, h, lim) {
      ResultStepFits(cfg, x, h, url, results, first, i, lim);
    }
    FoldGrowth(f, st, |results|, h, lim);
  }

  lemma ReferralsFit(cfg: Config, st: Store, h: Harvest, maxReferral: nat, referrals: seq<string>, lim: BoundedWork.Limits)
    requires h.depth <= lim.referralDepth
    ensures HarvestGrowth(st.frontier, Fold(ReferralStep(cfg, h, maxReferral, referrals), st, |referrals|), |referrals|, h, lim)
  {
    var f := ReferralStep(cfg, h, maxReferral, referrals);
    forall x: Store, i: nat | i < |referrals| ensures HarvestGrowth(x.frontier, f(x, i), 1, h, lim) {
      ReferFits(cfg, x, h, referrals[i], h.entry, lim);
    }
    FoldGrowth(f, st, |referrals|, h, lim);
  }

  /** Without catalog pointers among the results, a harvest creates at most one row per result and referral, all ranked below it. */
  lemma HarvestWorkFits(cfg: Config, st: Store, h: Harvest, url: string, answer: Answer, lim: BoundedWork.Limits)
    requires forall i :: 0 <= i < |answer.results| ==> !answer.results[i].kind.CatalogPointer?
    ensures HarvestGrowth(st.frontier, HarvestOutcome(cfg, st, h, url, lim.referralDepth, answer),
                          |answer.results| + |answer.referrals|, h, lim)
  {
    if h.depth <= lim.referralDepth && h.row.Some? {
      var saved := Attach(st, h, answer.results);
      var followed := Fold(ResultStep(cfg, h, url, answer.results, |st.entries|), saved, |answer.results|);
      ResultsFit(cfg, saved, h, url, answer.results, |st.entries|, lim);
      ReferralsFit(cfg, followed, h, lim.referralDepth, answer.referrals, lim);
      NewRowsFitOn(saved.frontier, followed.frontier,
                   Fold(ReferralStep(cfg, h, lim.referralDepth, answer.referrals), followed, |answer.referrals|).frontier,
                   RegistryHarvest, h.depth, lim);
    }
  }

  // -- Harvested rows and recovery ------------------------------------------------------------------

  lemma {:induction false} EntryIdsAttached(entries: seq<EntryRow>, more: seq<EntryRow>, catalog: nat)
    requires forall k :: 0 <= k < |more| ==> more[k].catalog == catalog
    ensures |EntryIds(entries + more, catalog)| == |EntryIds(entries, catalog)| + |more|
  {
    if more == [] {
      assert entries + more == entries;
    } else {
      var m := |more| - 1;
      assert (entries + more)[..|entries| + m] == entries + more[..m];
      EntryIdsAttached(entries, more[..m], catalog);
    }
  }

  /**
   Why recovery needs its side condition: once a harvest has attached even one
   result to a saved catalog, processing that catalog again follows no entry at
   all, whatever its first call had left to do.
   */
  lemma HarvestEndsRecovery(cfg: Config, st: Store, root: Task, h: Harvest, results: seq<Entry>)
    requires Whole(st) && root.Process? && h.row.Some? && results != []
    requires Latest(st.catalogs, IndexOf(st.domains, cfg.host), root.source, root.parent) == Some(h.catalog)
    requires st.catalogs[h.catalog].doc == root.doc && IndexOf(st.domains, cfg.host) < |st.domains|
    ensures Drain(cfg, Job(Attach(st, h, results), [root])) == Attach(st, h, results)
  {
    EntryIdsAttached(st.entries, HarvestedRows(h.catalog, h.row.value, results), h.catalog);
    UnchangedCallFollowsExactly(cfg, Attach(st, h, results), root);
  }

  /**
   The exact condition: rows harvested between a crash and the recovery do not show,
   that is, recovery and harvest may be swapped, if and only if there are none or
   the crashed call had nothing left to do.
   */
  lemma HarvestDoesNotShowExactly(cfg: Config, st: Store, root: Task, h: Harvest, results: seq<Entry>)
    requires Whole(st) && root.Process? && h.row.Some?
    requires Latest(st.catalogs, IndexOf(st.domains, cfg.host), root.source, root.parent) == Some(h.catalog)
    requires st.catalogs[h.catalog].doc == root.doc && IndexOf(st.domains, cfg.host) < |st.domains|
    ensures Drain(cfg, Job(Attach(st, h, results), [root])) == Attach(Drain(cfg, Job(st, [root])), h, results)
       <==> results == [] || Fixed(cfg, st, [root])
  {
    var end := Drain(cfg, Job(st, [root]));
    hide Drain;
    if results == [] {
      AttachNothing(st, h);
      AttachNothing(end, h);
    } else {
      HarvestEndsRecovery(cfg, st, root, h, results);
      if Attach(st, h, results) == Attach(end, h, results) {
        AttachTells(st, end, h, results);
      }
    }
  }

  lemma AttachNothing(st: Store, h: Harvest)
    requires h.row.Some?
    ensures Attach(st, h, []) == st
  {
    assert st.entries + HarvestedRows(h.catalog, h.row.value, []) == st.entries;
  }

  lemma AttachTells(a: Store, b: Store, h: Harvest, results: seq<Entry>)
    requires h.row.Some? && Attach(a, h, results) == Attach(b, h, results)
    ensures a == b
  {
    var rows := HarvestedRows(h.catalog, h.row.value, results);
    var both := a.entries + rows;
    assert both == Attach(a, h, results).entries == Attach(b, h, results).entries == b.entries + rows;
    assert |a.entries| == |both| - |rows| == |b.entries|;
    assert a.entries == both[..|both| - |rows|] == b.entries;
  }
}
