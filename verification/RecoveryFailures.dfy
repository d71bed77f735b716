/** Concrete inputs at which the recovery of a catalog call fails, as its exact conditions say. */
module RecoveryFailures {
  import opened Basics
  import opened FrontierTable
  import opened DedupKey
  import opened CatalogStore
  import opened CatalogRecovery
  import opened CatalogCompleteness
  import opened CatalogWork

  const Empty: Store := Store([], [], [], [], [])

  lemma EmptyIsWhole()
    ensures StoreOk(Empty) && Whole(Empty)
  {
  }

  // -- Embedded catalogs with one identifier ------------------------------------------------

  function EmbeddedCatalog(identifier: string, raw: string): Entry {
    Entry(identifier, CatalogPointer, "", Some(Doc(raw, [])))
  }

  /** A catalog that embeds two different catalogs under one identifier. */
  const Twins: Doc := Doc("outer", [EmbeddedCatalog("x", "one"), EmbeddedCatalog("x", "two")])

  /**
   Process it to its last operation, crash before the item is done, and run it
   again: the second run saves catalogs the first had saved already.
   */
  lemma TwinsShowTheCrash(cfg: Config, source: string) returns (n: nat)
    requires cfg.maxDepth > 0
    ensures var job := Job(Empty, [Process(Twins, source, None, 0)]);
      && Steps(cfg, job, n) == Job(Drain(cfg, job), [])
      && Drain(cfg, Job(Steps(cfg, job, n).store, job.stack)) != Drain(cfg, job)
  {
    var root := Process(Twins, source, None, 0);
    var job := Job(Empty, [root]);
    EmptyIsWhole();
    n := CallEnds(cfg, job);
    DrainKeepsWhole(cfg, job);
    hide Drain, Steps, Whole;
    if Fixed(cfg, Drain(cfg, job), [root]) {
      FixedMeansComplete(cfg, Drain(cfg, job), Twins, source, None, 0);
      CompleteMeansConsistent(cfg, Drain(cfg, job), Twins, source, None, 0);
      TwinsDisagree(cfg);
    }
  }

  lemma TwinsDisagree(cfg: Config)
    requires cfg.maxDepth > 0
    ensures !Consistent(Twins, 0, cfg.maxDepth)
  {
    var a, b := Twins.entries[0], Twins.entries[1];
    assert "one"[0] != "two"[0];
    assert !Agree(a, b);
  }

  // -- Harvested rows between crash and recovery ------------------------------------------------

  /** A catalog of a registry and an artifact. */
  function TwoEntries(registry: Entry, artifact: Entry): Doc { Doc("two", [registry, artifact]) }

  /** The crash falls right behind the enqueue of the registry's harvest item. */
  function CrashedStore(cfg: Config, doc: Doc, source: string): Store
    requires |doc.entries| == 2
  {
    Store([cfg.host], [CatalogRow(0, source, None, doc)],
          [EntryRow(0, doc.entries[0], None), EntryRow(0, doc.entries[1], None)],
          [RegistryRow.RegistryRow(0, doc.entries[0].url, None)],
          [NewRow(HarvestItem(cfg, Enlist(0, doc.entries[0].url, 0, 0)), cfg.hostname)])
  }

  lemma CrashAfterFour(cfg: Config, registry: Entry, artifact: Entry, source: string)
    requires cfg.maxDepth > 0 && Harvested(cfg, registry)
    ensures var doc := TwoEntries(registry, artifact);
      Steps(cfg, Job(Empty, [Process(doc, source, None, 0)]), 4)
        == Job(CrashedStore(cfg, doc, source), [Follow(0, [1], [artifact], source, 0)])
  {
    var doc := TwoEntries(registry, artifact);
    var end := CrashedStore(cfg, doc, source);
    var rest := Follow(0, [1], [artifact], source, 0);
    var j0 := Job(Empty, [Process(doc, source, None, 0)]);
    var j1 := Job(Empty.(domains := [cfg.host]), [Save(doc, 0, source, None, 0)]);
    var j2 := Job(j1.store.(catalogs := end.catalogs, entries := end.entries), [Follow(0, [0, 1], doc.entries, source, 0)]);
    var j3 := Job(j2.store.(registries := end.registries), [Enlist(0, registry.url, 0, 0), rest]);
    FirstStep(cfg, doc, source);
    SecondStep(cfg, doc, source);
    ThirdStep(cfg, registry, artifact, source);
    assert Step(cfg, j3) == Job(end, [rest]) by {
      assert [] + [rest] == [rest] && [Enlist(0, registry.url, 0, 0), rest][1..] == [rest];
    }
    hide Step, StepTask, FollowEntry, CrashedStore, HarvestItem;
    assert Iterate(StepOf(cfg), j0, 0) == j0;
    assert Iterate(StepOf(cfg), j0, 1) == j1;
    assert Iterate(StepOf(cfg), j0, 2) == j2;
    assert Iterate(StepOf(cfg), j0, 3) == j3;
    assert Iterate(StepOf(cfg), j0, 4) == Step(cfg, j3);
  }

  lemma FirstStep(cfg: Config, doc: Doc, source: string)
    ensures Step(cfg, Job(Empty, [Process(doc, source, None, 0)]))
         == Job(Empty.(domains := [cfg.host]), [Save(doc, 0, source, None, 0)])
  {
    assert [Save(doc, 0, source, None, 0)] + [Process(doc, source, None, 0)][1..] == [Save(doc, 0, source, None, 0)];
  }

  lemma SecondStep(cfg: Config, doc: Doc, source: string)
    requires cfg.maxDepth > 0 && |doc.entries| == 2
    ensures var end := CrashedStore(cfg, doc, source);
      Step(cfg, Job(Empty.(domains := [cfg.host]), [Save(doc, 0, source, None, 0)]))
        == Job(Empty.(domains := [cfg.host], catalogs := end.catalogs, entries := end.entries),
               [Follow(0, [0, 1], doc.entries, source, 0)])
  {
    var save, follow := Save(doc, 0, source, None, 0), Follow(0, Block(0, 2), doc.entries, source, 0);
    assert [follow] + [save][1..] == [follow];
    assert Block(0, 2) == [0, 1];
    assert [] + RowsFor(0, doc.entries) == [EntryRow(0, doc.entries[0], None), EntryRow(0, doc.entries[1], None)];
    assert [] + [CatalogRow(0, source, None, doc)] == [CatalogRow(0, source, None, doc)];
  }

  lemma ThirdStep(cfg: Config, registry: Entry, artifact: Entry, source: string)
    requires cfg.maxDepth > 0 && Harvested(cfg, registry)
    ensures var doc := TwoEntries(registry, artifact); var end := CrashedStore(cfg, doc, source);
      Step(cfg, Job(Empty.(domains := [cfg.host], catalogs := end.catalogs, entries := end.entries),
                    [Follow(0, [0, 1], doc.entries, source, 0)]))
        == Job(end.(frontier := []), [Enlist(0, registry.url, 0, 0), Follow(0, [1], [artifact], source, 0)])
  {
    var doc := TwoEntries(registry, artifact);
    var follow, rest := Follow(0, [0, 1], doc.entries, source, 0), Follow(0, [1], [artifact], source, 0);
    assert [0, 1][1..] == [1] && doc.entries[1..] == [artifact];
    var enlist := Enlist(0, registry.url, 0, 0);
    assert [enlist] + [rest] + [follow][1..] == [enlist, rest];
  }

  /** Whatever a call that changes nothing is interrupted at, its store is still the same. */
  lemma FixedStepsStay(cfg: Config, st: Store, root: Task, n: nat)
    requires Fixed(cfg, st, [root])
    ensures Steps(cfg, Job(st, [root]), n).store == st
  {
    var job := Job(st, [root]);
    StepsDrainAlike(cfg, job, n);
    DrainGrows(cfg, Steps(cfg, job, n));
    forall x: Job | Grew(st, x.store) ensures Grew(st, StepOf(cfg)(x).store) {
      OneStepGrows(cfg, x);
      GrewOn(st, x.store, Step(cfg, x).store);
    }
    hide Step, Drain;
    IterateKeeps(StepOf(cfg), (x: Job) => Grew(st, x.store), job, n);
    GrewBothWays(st, Steps(cfg, job, n).store);
  }

  lemma OneStepGrows(cfg: Config, job: Job)
    ensures Grew(job.store, Step(cfg, job).store)
  {
    if job.stack != [] {
      TaskGrows(cfg, job.store, job.stack[0]);
    }
  }

  lemma {:induction false} FixedForGood(cfg: Config, st: Store, root: Task, crashes: seq<nat>)
    requires Fixed(cfg, st, [root])
    ensures Attempts(cfg, st, root, crashes) == st
    decreases |crashes|
  {
    if crashes != [] {
      FixedStepsStay(cfg, st, root, crashes[0]);
      FixedForGood(cfg, st, root, crashes[1..]);
    }
  }

  lemma ArtifactStep(cfg: Config, st: Store, artifact: Entry, source: string)
    requires Fetched(cfg, artifact)
    ensures Step(cfg, Job(st, [Follow(0, [1], [artifact], source, 0)])).store
         == EnsureItem(st, ArtifactItem(cfg, artifact.url, 1), cfg.hostname)
  {
  }

  lemma KeyStays(st: Store, st': Store, key: string)
    requires Grew(st, st') && KeyIn(st.frontier, key)
    ensures KeyIn(st'.frontier, key)
  {
    var i :| 0 <= i < |st.frontier| && st.frontier[i].key == key;
    assert st'.frontier[i].key == key;
  }

  lemma UndisturbedFetchesArtifact(cfg: Config, registry: Entry, artifact: Entry, source: string)
    requires cfg.maxDepth > 0 && Harvested(cfg, registry) && Fetched(cfg, artifact)
    ensures var root := Process(TwoEntries(registry, artifact), source, None, 0);
      KeyIn(Drain(cfg, Job(Empty, [root])).frontier, ArtifactItem(cfg, artifact.url, 1).key)
  {
    hide Drain, Step, Steps, EnsureItem, ArtifactItem, KeyIn, Grew, CrashedStore;
    var job := Job(Empty, [Process(TwoEntries(registry, artifact), source, None, 0)]);
    var item := ArtifactItem(cfg, artifact.url, 1);
    CrashAfterFour(cfg, registry, artifact, source);
    StepsDrainAlike(cfg, job, 4);
    var last := Steps(cfg, job, 4);
    ArtifactStep(cfg, last.store, artifact, source);
    EnsureOutcome(last.store, item, cfg.hostname);
    DrainStep(cfg, last);
    DrainGrows(cfg, Step(cfg, last));
    KeyStays(Step(cfg, last).store, Drain(cfg, job), item.key);
  }

  /** The harvest of the registry, claimed with the provenance of its row, attaches its one result. */
  lemma OneResultAttached(cfg: Config, st: Store, url: string, maxReferral: nat, result: Entry)
    requires result.kind.Other?
    ensures var h := Harvest(0, Some(0), 0, 0);
      HarvestOutcome(cfg, st, h, url, maxReferral, Answer([result], [])) == Attach(st, h, [result])
  {
    var h := Harvest(0, Some(0), 0, 0);
    var saved := Attach(st, h, [result]);
    hide Attach;
    var f, g := ResultStep(cfg, h, url, [result], |st.entries|), ReferralStep(cfg, h, maxReferral, []);
    assert Fold(f, saved, 0) == saved;
    assert Fold(f, saved, 1) == f(saved, 0) == saved;
    assert Fold(g, saved, 0) == saved;
  }

  /** Holding the harvest item's row only, the frontier does not fetch the artifact. */
  lemma OnlyTheHarvest(cfg: Config, doc: Doc, source: string, artifact: Entry)
    requires |doc.entries| == 2
    ensures !KeyIn(CrashedStore(cfg, doc, source).frontier, ArtifactItem(cfg, artifact.url, 1).key)
  {
    var harvest := HarvestItem(cfg, Enlist(0, doc.entries[0].url, 0, 0));
    BuiltKeyOfKind(RegistryHarvest, harvest.url, cfg.host, harvest.prov);
    BuiltKeyOfKind(ArtifactFetch, artifact.url, cfg.host, NoProv.(artifactEntry := Some(1)));
    hide Key;
    if harvest.key == ArtifactItem(cfg, artifact.url, 1).key {
      OneKindPerKey(harvest.key, RegistryHarvest, ArtifactFetch);
    }
  }

  lemma CrashedIsSaved(cfg: Config, doc: Doc, source: string)
    requires |doc.entries| == 2
    ensures var st := CrashedStore(cfg, doc, source);
      && Whole(st) && IndexOf(st.domains, cfg.host) == 0
      && Latest(st.catalogs, 0, source, None) == Some(0) && st.catalogs[0].doc == doc
  {
    var st := CrashedStore(cfg, doc, source);
    var rows := RowsFor(0, doc.entries);
    assert st.entries == [] + rows;
    EntryIdsSaved([], rows, 0);
  }

  /**
   A real trace. The catalog lists a registry and an artifact; the call crashes
   right behind the enqueue of the harvest; the harvest attaches one result; from
   then on no number of attempts enqueues the artifact, which an undisturbed call
   enqueues.
   */
  lemma HarvestLosesTheArtifact(cfg: Config, registry: Entry, artifact: Entry, result: Entry, source: string, maxReferral: nat,
                                crashes: seq<nat>)
    requires cfg.maxDepth > 0 && Harvested(cfg, registry) && Fetched(cfg, artifact) && result.kind.Other?
    ensures var root := Process(TwoEntries(registry, artifact), source, None, 0);
      var crashed := Steps(cfg, Job(Empty, [root]), 4).store;
      var harvested := HarvestOutcome(cfg, crashed, Harvest(0, Some(0), 0, 0), registry.url, maxReferral, Answer([result], []));
      var artifactKey := ArtifactItem(cfg, artifact.url, 1).key;
      && KeyIn(Drain(cfg, Job(Empty, [root])).frontier, artifactKey)
      && !KeyIn(Attempts(cfg, harvested, root, crashes).frontier, artifactKey)
  {
    var doc := TwoEntries(registry, artifact);
    var root := Process(doc, source, None, 0);
    var h := Harvest(0, Some(0), 0, 0);
    var st := CrashedStore(cfg, doc, source);
    UndisturbedFetchesArtifact(cfg, registry, artifact, source);
    CrashAfterFour(cfg, registry, artifact, source);
    OneResultAttached(cfg, st, registry.url, maxReferral, result);
    CrashedIsSaved(cfg, doc, source);
    OnlyTheHarvest(cfg, doc, source, artifact);
    hide Drain, Steps, HarvestOutcome, CrashedStore, Whole, ArtifactItem, KeyIn, Latest, IndexOf, Attempts;
    HarvestEndsRecovery(cfg, st, root, h, [result]);
    FixedForGood(cfg, Attach(st, h, [result]), root, crashes);
  }
}
