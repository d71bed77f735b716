/**
 The step BoundedWork leaves out: a registry result that is a catalog pointer
 re-enters catalogs at depth 0. With it a crawl need not end, not even on a site of
 one catalog and one registry that name each other: every round saves the catalog
 under a new parent, hence under a new id, and so every key is new.
 */
module EndlessCrawl {
  import opened Basics
  import opened FrontierTable
  import opened DedupKey
  import opened FrontierSystem
  import opened BoundedWork
  import opened CatalogStore
  import opened CatalogRecovery
  import opened CatalogWork

  /** handleRegistryHarvest enqueues the URL of a result that is a catalog pointer. */
  ghost predicate FollowsResult(s: State, step: FrontierSystem.Step, lim: Limits) {
    && step.Begin? && step.p < |s.procs| && s.procs[step.p].held.Some?
    && s.procs[step.p].begun < lim.children
    && s.procs[step.p].held.value.kind.RegistryHarvest?
    && step.call.item.kind.CatalogFetch? && step.call.item.depth == 0
    && KeyOfKind(step.call.item.key, CatalogFetch)
  }

  ghost predicate ProductiveOrResult(s: State, step: FrontierSystem.Step, lim: Limits) {
    Productive(s, step, lim) || FollowsResult(s, step, lim)
  }

  // -- The site ------------------------------------------------------------------------------

  /** A catalog whose one entry is a registry, and a registry whose one result is that catalog. */
  datatype Site = Site(cfg: Config, catalogUrl: string, registryUrl: string, raw: string)

  predicate Proper(x: Site) {
    && x.cfg.maxDepth >= 1 && x.cfg.harvest
    && x.catalogUrl != "" && x.registryUrl != "" && NulFree(x.catalogUrl)
  }

  function Declared(x: Site): Entry { Entry("registry", RegistryPointer, x.registryUrl, None) }

  function Result(x: Site): Entry { Entry("catalog", CatalogPointer, x.catalogUrl, None) }

  function Served(x: Site): Doc { Doc(x.raw, [Declared(x)]) }

  /** The catalog of round j is fetched for the catalog of the round before. */
  function Parent(j: nat): Option<nat> { if j == 0 then None else Some(j - 1) }

  /** Item 2j fetches the catalog in round j, item 2j + 1 harvests the registry it names. */
  function NthItem(x: Site, n: nat): Item {
    var j := n / 2;
    if n % 2 == 0 then BuildItem(CatalogFetch, x.catalogUrl, x.cfg.host, 0, NoProv.(parentCatalog := Parent(j)), x.cfg.runId)
    else HarvestItem(x.cfg, Enlist(j, x.registryUrl, 2 * j, j))
  }

  lemma NthKeys(x: Site, m: nat, n: nat)
    requires Proper(x)
    ensures KeyOfKind(NthItem(x, n).key, NthItem(x, n).kind) && NthItem(x, n).key != ""
    ensures m != n ==> NthItem(x, m).key != NthItem(x, n).key
  {
    var a, b := NthItem(x, m), NthItem(x, n);
    BuiltKeyOfKind(a.kind, a.url, a.host, a.prov);
    BuiltKeyOfKind(b.kind, b.url, b.host, b.prov);
    if a.key == b.key {
      OneKindPerKey(a.key, a.kind, b.kind);
      KeyInjective(a.kind, a.url, a.host, a.prov, b.kind, b.url, b.host, b.prov);
    }
  }

  // -- What the handlers do to the store ------------------------------------------------------

  function CatalogAt(x: Site): nat -> CatalogRow {
    (k: nat) => CatalogRow(0, x.catalogUrl, Parent(k), Served(x))
  }

  function EntryAt(x: Site): nat -> EntryRow {
    (k: nat) => if k % 2 == 0 then EntryRow(k / 2, Declared(x), None) else EntryRow(k / 2, Result(x), Some(k / 2))
  }

  function RegistryAt(x: Site): nat -> CatalogStore.RegistryRow {
    (k: nat) => CatalogStore.RegistryRow.RegistryRow(2 * k, x.registryUrl, None)
  }

  /** The store when n items have been handled. */
  function StoreAt(x: Site, n: nat, t: Table): Store {
    var rounds := (n + 1) / 2;
    Store([x.cfg.host], seq(rounds, CatalogAt(x)), seq(n, EntryAt(x)), seq(rounds, RegistryAt(x)), t)
  }

  /** What the handler of item n does: processCatalog, or the harvest with its one result. */
  function Handled(x: Site, n: nat, st: Store, maxReferral: nat): Store {
    var j := n / 2;
    if n % 2 == 0 then Drain(x.cfg, Job(st, [Process(Served(x), x.catalogUrl, Parent(j), 0)]))
    else HarvestOutcome(x.cfg, st, Harvest(0, Some(j), 2 * j, j), x.registryUrl, maxReferral, Answer([Result(x)], []))
  }

  lemma GetsNew<T>(s: seq<T>, v: T)
    requires v !in s
    ensures GetOrAdd(s, v) == (s + [v], |s|)
  {
  }

  lemma EnsuresNew(st: Store, item: Item, hostname: string -> string)
    requires !KeyIn(st.frontier, item.key)
    ensures EnsureItem(st, item, hostname) == st.(frontier := st.frontier + [NewRow(item, hostname)])
  {
    EnsureOutcome(st, item, hostname);
  }

  lemma SaveRound(x: Site, j: nat, t: Table)
    requires Proper(x)
    ensures var st, end := StoreAt(x, 2 * j, t), StoreAt(x, 2 * j + 1, t);
      StepTask(x.cfg, st, Save(Served(x), 0, x.catalogUrl, Parent(j), 0))
      == (st.(catalogs := end.catalogs, entries := end.entries), [Follow(j, [2 * j], [Declared(x)], x.catalogUrl, 0)])
  {
    var st, end := StoreAt(x, 2 * j, t), StoreAt(x, 2 * j + 1, t);
    assert Latest(st.catalogs, 0, x.catalogUrl, Parent(j)).None?;
    assert Block(2 * j, 1) == [2 * j];
    assert st.catalogs + [CatalogAt(x)(j)] == end.catalogs;
    assert RowsFor(j, [Declared(x)]) == [EntryAt(x)(2 * j)];
    assert st.entries + [EntryAt(x)(2 * j)] == end.entries;
  }

  lemma FollowRound(x: Site, j: nat, t: Table)
    requires Proper(x)
    ensures var st, end := StoreAt(x, 2 * j, t), StoreAt(x, 2 * j + 1, t);
      StepTask(x.cfg, end.(registries := st.registries), Follow(j, [2 * j], [Declared(x)], x.catalogUrl, 0))
      == (end, [Enlist(j, x.registryUrl, 2 * j, j), Follow(j, [], [], x.catalogUrl, 0)])
  {
    var st, end := StoreAt(x, 2 * j, t), StoreAt(x, 2 * j + 1, t);
    var follow, none := Follow(j, [2 * j], [Declared(x)], x.catalogUrl, 0), Follow(j, [], [], x.catalogUrl, 0);
    var enlist := Enlist(j, x.registryUrl, 2 * j, j);
    GetsNew(st.registries, RegistryAt(x)(j));
    assert st.registries + [RegistryAt(x)(j)] == end.registries;
    var (st', left) := FollowEntry(x.cfg, end.(registries := st.registries), j, 2 * j, Declared(x), x.catalogUrl, 0);
    assert st' == end && left == [enlist];
    assert follow.(ids := follow.ids[1..], entries := follow.entries[1..]) == none;
    assert [enlist] + [none] == [enlist, none];
  }

  /** One step of a call with one task. */
  lemma DrainsOn(cfg: Config, st: Store, task: Task, rest: seq<Task>)
    ensures var (st', left) := StepTask(cfg, st, task); Drain(cfg, Job(st, [task] + rest)) == Drain(cfg, Job(st', left + rest))
  {
    assert ([task] + rest)[1..] == rest;
    DrainStep(cfg, Job(st, [task] + rest));
  }

  lemma ProcessRound(x: Site, j: nat, t: Table)
    ensures StepTask(x.cfg, StoreAt(x, 2 * j, t), Process(Served(x), x.catalogUrl, Parent(j), 0))
         == (StoreAt(x, 2 * j, t), [Save(Served(x), 0, x.catalogUrl, Parent(j), 0)])
  {
    hide StoreAt;
    assert StoreAt(x, 2 * j, t).domains == [x.cfg.host] by { OneDomain(x, 2 * j, t); }
  }

  lemma OneDomain(x: Site, n: nat, t: Table)
    ensures StoreAt(x, n, t).domains == [x.cfg.host] && StoreAt(x, n, t).frontier == t
    ensures forall u: Table :: StoreAt(x, n, t).(frontier := u) == StoreAt(x, n, u)
  {
  }

  lemma EnlistRound(x: Site, j: nat, t: Table)
    requires !KeyIn(t, NthItem(x, 2 * j + 1).key)
    ensures StepTask(x.cfg, StoreAt(x, 2 * j + 1, t), Enlist(j, x.registryUrl, 2 * j, j))
         == (StoreAt(x, 2 * j + 1, t + [NewRow(NthItem(x, 2 * j + 1), x.cfg.hostname)]), [])
  {
    assert HarvestItem(x.cfg, Enlist(j, x.registryUrl, 2 * j, j)) == NthItem(x, 2 * j + 1);
    OneDomain(x, 2 * j + 1, t);
    hide StoreAt, HarvestItem, NthItem;
    EnsuresNew(StoreAt(x, 2 * j + 1, t), NthItem(x, 2 * j + 1), x.cfg.hostname);
  }

  lemma CatalogRound(x: Site, j: nat, t: Table)
    requires Proper(x) && !KeyIn(t, NthItem(x, 2 * j + 1).key)
    ensures Drain(x.cfg, Job(StoreAt(x, 2 * j, t), [Process(Served(x), x.catalogUrl, Parent(j), 0)]))
         == StoreAt(x, 2 * j + 1, t + [NewRow(NthItem(x, 2 * j + 1), x.cfg.hostname)])
  {
    var st, end := StoreAt(x, 2 * j, t), StoreAt(x, 2 * j + 1, t);
    var last := StoreAt(x, 2 * j + 1, t + [NewRow(NthItem(x, 2 * j + 1), x.cfg.hostname)]);
    var process, save := Process(Served(x), x.catalogUrl, Parent(j), 0), Save(Served(x), 0, x.catalogUrl, Parent(j), 0);
    var follow, none := Follow(j, [2 * j], [Declared(x)], x.catalogUrl, 0), Follow(j, [], [], x.catalogUrl, 0);
    var enlist := Enlist(j, x.registryUrl, 2 * j, j);
    var saved := st.(catalogs := end.catalogs, entries := end.entries);
    assert saved == end.(registries := st.registries);
    assert StepTask(x.cfg, last, none) == (last, []);
    hide StepTask, StoreAt, NthItem, Drain, KeyIn;
    ProcessRound(x, j, t);
    SaveRound(x, j, t);
    FollowRound(x, j, t);
    EnlistRound(x, j, t);
    DrainsOn(x.cfg, st, process, []);
    DrainsOn(x.cfg, st, save, []);
    DrainsOn(x.cfg, saved, follow, []);
    DrainsOn(x.cfg, end, enlist, [none]);
    DrainsOn(x.cfg, last, none, []);
    assert [process] + [] == [process] && [save] + [] == [save] && [follow] + [] == [follow];
    assert [enlist, none] + [] == [enlist] + [none] && [] + [none] == [none] + [];
    assert Drain(x.cfg, Job(last, [] + [])) == last by { NothingToDrain(x.cfg, last); }
  }

  lemma NothingToDrain(cfg: Config, st: Store)
    ensures Drain(cfg, Job(st, [])) == st
  {
  }

  lemma AttachRound(x: Site, j: nat, t: Table)
    ensures Attach(StoreAt(x, 2 * j + 1, t), Harvest(0, Some(j), 2 * j, j), [Result(x)]) == StoreAt(x, 2 * j + 2, t)
  {
    var st := StoreAt(x, 2 * j + 1, t);
    assert HarvestedRows(j, j, [Result(x)]) == [EntryAt(x)(2 * j + 1)];
    assert st.entries + [EntryAt(x)(2 * j + 1)] == seq(2 * j + 2, EntryAt(x));
  }

  lemma ResultRound(x: Site, j: nat, t: Table, id: nat)
    requires Proper(x) && !KeyIn(t, NthItem(x, 2 * j + 2).key)
    ensures FollowResult(x.cfg, StoreAt(x, 2 * j + 2, t), Harvest(0, Some(j), 2 * j, j), x.registryUrl, Result(x), id)
         == StoreAt(x, 2 * j + 2, t + [NewRow(NthItem(x, 2 * j + 2), x.cfg.hostname)])
  {
    assert CatalogItem(x.cfg, x.catalogUrl, 0, j) == NthItem(x, 2 * j + 2);
    OneDomain(x, 2 * j + 2, t);
    hide StoreAt, CatalogItem, NthItem;
    EnsuresNew(StoreAt(x, 2 * j + 2, t), NthItem(x, 2 * j + 2), x.cfg.hostname);
  }

  /** A harvest of one result and no referral. */
  lemma OneResult(cfg: Config, st: Store, h: Harvest, url: string, maxReferral: nat, result: Entry)
    requires h.depth == 0 && h.row.Some?
    ensures HarvestOutcome(cfg, st, h, url, maxReferral, Answer([result], []))
         == FollowResult(cfg, Attach(st, h, [result]), h, url, result, |st.entries|)
  {
    var saved := Attach(st, h, [result]);
    var f, g := ResultStep(cfg, h, url, [result], |st.entries|), ReferralStep(cfg, h, maxReferral, []);
    hide Attach, FollowResult;
    assert Fold(f, saved, 0) == saved;
    assert Fold(f, saved, 1) == f(saved, 0);
    assert Fold(g, f(saved, 0), 0) == f(saved, 0);
  }

  lemma HarvestRound(x: Site, j: nat, t: Table, maxReferral: nat)
    requires Proper(x) && !KeyIn(t, NthItem(x, 2 * j + 2).key)
    ensures HarvestOutcome(x.cfg, StoreAt(x, 2 * j + 1, t), Harvest(0, Some(j), 2 * j, j), x.registryUrl, maxReferral, Answer([Result(x)], []))
         == StoreAt(x, 2 * j + 2, t + [NewRow(NthItem(x, 2 * j + 2), x.cfg.hostname)])
  {
    var st, h := StoreAt(x, 2 * j + 1, t), Harvest(0, Some(j), 2 * j, j);
    hide Attach, FollowResult, HarvestOutcome, StoreAt, NthItem;
    OneResult(x.cfg, st, h, x.registryUrl, maxReferral, Result(x));
    AttachRound(x, j, t);
    ResultRound(x, j, t, |st.entries|);
  }

  // -- The frontier --------------------------------------------------------------------------------

  function DoneRow(x: Site): nat -> Row {
    (k: nat) => Released(LeaseRow(NewRow(NthItem(x, k), x.cfg.hostname), "w", 0), Done)
  }

  function Ended(x: Site): nat -> Proc {
    (k: nat) => Proc("w", Some(Held(k, NthItem(x, k).kind, 0)), Gone, 1)
  }

  /** n items are done and the next one is pending. */
  function Nth(x: Site, n: nat): State {
    State(seq(n, DoneRow(x)) + [NewRow(NthItem(x, n), x.cfg.hostname)], seq(n, Ended(x)))
  }

  lemma NthRow(x: Site, n: nat, i: nat)
    requires i <= n
    ensures var r := Nth(x, n).t[i]; r.key == NthItem(x, i).key && RowOk(r, x.cfg.hostname)
  {
    hide NthItem;
  }

  lemma NthOk(x: Site, n: nat)
    requires Proper(x)
    ensures !KeyIn(Nth(x, n).t, NthItem(x, n + 1).key)
    ensures StateOk(Nth(x, n), x.cfg.hostname)
  {
    var s := Nth(x, n);
    hide Nth, NthItem, RowOk;
    assert |s.t| == n + 1 && |s.procs| == n && forall p :: 0 <= p < n ==> s.procs[p] == Ended(x)(p) by { NthSize(x, n); }
    forall i | 0 <= i <= n ensures s.t[i].key == NthItem(x, i).key && s.t[i].key != NthItem(x, n + 1).key && RowOk(s.t[i], x.cfg.hostname) {
      NthRow(x, n, i);
      NthKeys(x, i, n + 1);
    }
    forall i, j | 0 <= i < j <= n ensures s.t[i].key != s.t[j].key {
      NthKeys(x, i, j);
    }
  }

  lemma NthSize(x: Site, n: nat)
    ensures var s := Nth(x, n);
      |s.t| == n + 1 && |s.procs| == n && forall p :: 0 <= p < n ==> s.procs[p] == Ended(x)(p)
  {
  }

  function Handler(x: Site, n: nat, doing: Doing, begun: nat): Proc {
    Proc("w", Some(Held(n, NthItem(x, n).kind, 0)), doing, begun)
  }

  function Leased(x: Site, n: nat): State {
    State(seq(n, DoneRow(x)) + [LeaseRow(NewRow(NthItem(x, n), x.cfg.hostname), "w", 0)],
          seq(n, Ended(x)) + [Handler(x, n, Working, 0)])
  }

  function Naming(x: Site, n: nat): State {
    State(Leased(x, n).t, seq(n, Ended(x)) + [Handler(x, n, Calling(EnsureCall(NthItem(x, n + 1)), Create), 1)])
  }

  function Named(x: Site, n: nat): State {
    State(Leased(x, n).t + [NewRow(NthItem(x, n + 1), x.cfg.hostname)], seq(n, Ended(x)) + [Handler(x, n, Working, 1)])
  }

  /** One link of the chain: step k of item n goes from a to b. */
  ghost predicate Goes(a: State, step: FrontierSystem.Step, b: State, lim: Limits, hostname: string -> string) {
    Enabled(a, step) && b == Apply(a, step, hostname) && ProductiveOrResult(a, step, lim)
  }

  lemma KindsAlternate(x: Site, n: nat)
    ensures NthItem(x, n).depth == 0
    ensures var a, b := NthItem(x, n).kind, NthItem(x, n + 1).kind;
      (a == RegistryHarvest && b == CatalogFetch) || (a == CatalogFetch && b == RegistryHarvest)
  {
  }

  lemma LeaseNth(x: Site, n: nat, lim: Limits)
    ensures Goes(Nth(x, n), Dequeue("w", 0, [n], 1, 0), Leased(x, n), lim, x.cfg.hostname)
  {
    KindsAlternate(x, n);
    hide NthItem;
    var s := Nth(x, n);
    assert [n][0] == n;
    forall i | 0 <= i <= n ensures LeaseAll(s.t, [n], "w", 0)[i] == Leased(x, n).t[i] {
      assert i in [n] <==> i == n;
    }
    assert Handlers(s.t, [n], "w") == [Handler(x, n, Working, 0)];
  }

  lemma NamingIsFair(x: Site, n: nat, lim: Limits)
    requires Proper(x)
    requires lim.catalogDepth >= 1 && lim.children >= 1
    ensures ProductiveOrResult(Leased(x, n), Begin(n, EnsureCall(NthItem(x, n + 1))), lim)
  {
    var s := Leased(x, n);
    assert s.procs[n] == Handler(x, n, Working, 0);
    NthKeys(x, 0, n + 1);
    KindsAlternate(x, n);
    KindsAlternate(x, n + 1);
    hide NthItem, KeyOfKind, Leased;
  }

  lemma BeginsCall(s: State, p: nat, call: Call, hostname: string -> string)
    requires Idle(s, p) && call.item.key != ""
    ensures Enabled(s, Begin(p, call))
    ensures var q := s.procs[p];
      Apply(s, Begin(p, call), hostname)
      == State(s.t, s.procs[p := q.(doing := Calling(call, FirstStatement(call)), begun := q.begun + 1)])
  {
  }

  lemma NamingProcs(x: Site, n: nat)
    ensures var s, call := Leased(x, n), EnsureCall(NthItem(x, n + 1));
      && |s.procs| == n + 1 && s.procs[n] == Handler(x, n, Working, 0)
      && State(s.t, s.procs[n := Handler(x, n, Calling(call, Create), 1)]) == Naming(x, n)
  {
    hide NthItem, Ended;
  }

  lemma NameNext(x: Site, n: nat, lim: Limits)
    requires Proper(x)
    requires lim.catalogDepth >= 1 && lim.children >= 1
    ensures Goes(Leased(x, n), Begin(n, EnsureCall(NthItem(x, n + 1))), Naming(x, n), lim, x.cfg.hostname)
  {
    NamingIsFair(x, n, lim);
    NthKeys(x, 0, n + 1);
    NamingProcs(x, n);
    hide NthItem, ProductiveOrResult, Leased, Naming, Enabled, Apply;
    BeginsCall(Leased(x, n), n, EnsureCall(NthItem(x, n + 1)), x.cfg.hostname);
  }

  lemma NextIsNew(x: Site, n: nat)
    requires Proper(x)
    ensures FindKey(Leased(x, n).t, NthItem(x, n + 1).key).None?
  {
    NthOk(x, n);
    hide NthItem;
    var t, key := Leased(x, n).t, NthItem(x, n + 1).key;
    assert forall i :: 0 <= i < |t| ==> t[i].key == Nth(x, n).t[i].key;
  }

  lemma InsertsRow(s: State, p: nat, hostname: string -> string)
    requires Alive(s, p) && s.procs[p].doing.Calling? && s.procs[p].doing.at.Create?
    requires FindKey(s.t, s.procs[p].doing.call.item.key).None?
    ensures Enabled(s, Advance(p))
    ensures Apply(s, Advance(p), hostname)
      == State(s.t + [NewRow(s.procs[p].doing.call.item, hostname)], s.procs[p := s.procs[p].(doing := Working)])
  {
  }

  lemma NamedProcs(x: Site, n: nat)
    ensures var s, call := Naming(x, n), EnsureCall(NthItem(x, n + 1));
      && |s.procs| == n + 1 && s.procs[n] == Handler(x, n, Calling(call, Create), 1) && s.t == Leased(x, n).t
      && State(s.t + [NewRow(call.item, x.cfg.hostname)], s.procs[n := Handler(x, n, Working, 1)]) == Named(x, n)
  {
    hide NthItem, Ended, NewRow;
  }

  lemma InsertNext(x: Site, n: nat, lim: Limits)
    requires Proper(x)
    ensures Goes(Naming(x, n), Advance(n), Named(x, n), lim, x.cfg.hostname)
  {
    NextIsNew(x, n);
    NamedProcs(x, n);
    hide NthItem, Leased, Naming, Named, Enabled, Apply, FindKey;
    InsertsRow(Naming(x, n), n, x.cfg.hostname);
  }

  lemma CompleteNth(x: Site, n: nat, lim: Limits)
    ensures Goes(Named(x, n), Complete(n), Nth(x, n + 1), lim, x.cfg.hostname)
  {
    hide NthItem;
    var s := Named(x, n);
    assert s.t[n] == LeaseRow(NewRow(NthItem(x, n), x.cfg.hostname), "w", 0);
    assert CompleteRow(s.t, n, "w") == Nth(x, n + 1).t;
  }

  ghost predicate Chain(run: seq<State>, steps: seq<FrontierSystem.Step>, lim: Limits, hostname: string -> string) {
    && |run| == |steps| + 1
    && forall k {:trigger steps[k]} :: 0 <= k < |steps| ==> Goes(run[k], steps[k], run[k + 1], lim, hostname)
  }

  lemma Link(run: seq<State>, steps: seq<FrontierSystem.Step>, step: FrontierSystem.Step, s: State, lim: Limits, hostname: string -> string)
    requires Chain(run, steps, lim, hostname) && Goes(run[|steps|], step, s, lim, hostname)
    ensures Chain(run + [s], steps + [step], lim, hostname)
  {
    hide Goes;
    var run', steps' := run + [s], steps + [step];
    forall k | 0 <= k < |steps'| ensures Goes(run'[k], steps'[k], run'[k + 1], lim, hostname) {
      assert k < |steps| ==> run'[k] == run[k] && run'[k + 1] == run[k + 1] && steps'[k] == steps[k];
    }
  }

  /** Dequeued, its successor enqueued, done: from item n to item n + 1. */
  lemma OneMore(x: Site, run0: seq<State>, steps0: seq<FrontierSystem.Step>, n: nat, lim: Limits)
      returns (run: seq<State>, steps: seq<FrontierSystem.Step>)
    requires Proper(x)
    requires lim.catalogDepth >= 1 && lim.children >= 1
    requires Chain(run0, steps0, lim, x.cfg.hostname) && run0[|steps0|] == Nth(x, n)
    ensures Chain(run, steps, lim, x.cfg.hostname) && |steps| == |steps0| + 4
    ensures run[0] == run0[0] && run[|steps|] == Nth(x, n + 1)
  {
    var naming := Begin(n, EnsureCall(NthItem(x, n + 1)));
    LeaseNth(x, n, lim);
    NameNext(x, n, lim);
    InsertNext(x, n, lim);
    CompleteNth(x, n, lim);
    hide Nth, Leased, Naming, Named, NthItem, Goes, Chain;
    Link(run0, steps0, Dequeue("w", 0, [n], 1, 0), Leased(x, n), lim, x.cfg.hostname);
    run, steps := run0 + [Leased(x, n)], steps0 + [Dequeue("w", 0, [n], 1, 0)];
    Link(run, steps, naming, Naming(x, n), lim, x.cfg.hostname);
    run, steps := run + [Naming(x, n)], steps + [naming];
    Link(run, steps, Advance(n), Named(x, n), lim, x.cfg.hostname);
    run, steps := run + [Named(x, n)], steps + [Advance(n)];
    Link(run, steps, Complete(n), Nth(x, n + 1), lim, x.cfg.hostname);
    run, steps := run + [Nth(x, n + 1)], steps + [Complete(n)];
  }

  lemma StartOk(x: Site, lim: Limits)
    requires Proper(x)
    requires lim.attempts >= 1
    ensures WorkOk(Nth(x, 0), lim, x.cfg.hostname)
  {
    NthOk(x, 0);
    NthKeys(x, 0, 0);
  }

  /** And that is what the handler of item n does: it names item n + 1 and nothing else. */
  lemma HandlerNamesNext(x: Site, n: nat, maxReferral: nat)
    requires Proper(x)
    ensures Handled(x, n, StoreAt(x, n, Leased(x, n).t), maxReferral) == StoreAt(x, n + 1, Named(x, n).t)
  {
    var t, j := Leased(x, n).t, n / 2;
    hide Leased, NthItem, Drain, HarvestOutcome, StoreAt, Proper, Served, Result, Parent, NewRow;
    NextIsNew(x, n);
    if n % 2 == 0 {
      assert n == 2 * j;
      CatalogRound(x, j, t);
    } else {
      assert n == 2 * j + 1;
      HarvestRound(x, j, t, maxReferral);
    }
  }

  /**
   No bound: from one pending catalog, in a state EveryCrawlDrains starts from, a
   crawl of this site can take more than any number of steps. Each item is handled
   once, without a retry or a lost lease, and enqueues exactly what its handler's
   store operations enqueue.
   */
  lemma CatalogResultsNeverEnd(x: Site, n: nat, lim: Limits, maxReferral: nat)
      returns (run: seq<State>, steps: seq<FrontierSystem.Step>)
    requires Proper(x)
    requires lim.catalogDepth >= 1 && lim.children >= 1 && lim.attempts >= 1
    ensures IsRun(run, steps, x.cfg.hostname) && |steps| == 4 * n
    ensures run[0] == Nth(x, 0) && WorkOk(run[0], lim, x.cfg.hostname) && run[4 * n] == Nth(x, n)
    ensures forall k :: 0 <= k < |steps| ==> ProductiveOrResult(run[k], steps[k], lim)
    ensures forall k: nat :: k < n ==>
      Handled(x, k, StoreAt(x, k, Leased(x, k).t), maxReferral) == StoreAt(x, k + 1, Named(x, k).t)
  {
    forall k: nat | k < n
      ensures Handled(x, k, StoreAt(x, k, Leased(x, k).t), maxReferral) == StoreAt(x, k + 1, Named(x, k).t)
    {
      HandlerNamesNext(x, k, maxReferral);
    }
    StartOk(x, lim);
    run, steps := FirstItems(x, n, lim);
    hide Enabled, Apply, ProductiveOrResult, WorkOk;
    forall k | 0 <= k < |steps|
      ensures Enabled(run[k], steps[k]) && run[k + 1] == Apply(run[k], steps[k], x.cfg.hostname) && ProductiveOrResult(run[k], steps[k], lim)
    {
      assert Goes(run[k], steps[k], run[k + 1], lim, x.cfg.hostname);
    }
  }

  lemma {:induction false} FirstItems(x: Site, n: nat, lim: Limits) returns (run: seq<State>, steps: seq<FrontierSystem.Step>)
    requires Proper(x)
    requires lim.catalogDepth >= 1 && lim.children >= 1
    ensures Chain(run, steps, lim, x.cfg.hostname) && |steps| == 4 * n
    ensures run[0] == Nth(x, 0) && run[4 * n] == Nth(x, n)
  {
    hide Nth, Goes;
    if n == 0 {
      run, steps := [Nth(x, 0)], [];
    } else {
      run, steps := FirstItems(x, n - 1, lim);
      run, steps := OneMore(x, run, steps, n - 1, lim);
    }
  }
}
