/** What a recovered call has achieved, and the exact condition under which recovery works. */
module CatalogCompleteness {
  import opened Basics
  import opened FrontierTable
  import opened CatalogStore
  import opened CatalogRecovery
  import opened ItemRows

  // -- Append-only, and one call behind the other ------------------------------------------

  lemma {:induction false} DrainGrows(cfg: Config, job: Job)
    ensures Grew(job.store, Drain(cfg, job))
    decreases Sum(job.stack, Weight())
  {
    if job.stack != [] {
      JobFalls(cfg, job);
      TaskGrows(cfg, job.store, job.stack[0]);
      DrainGrows(cfg, Step(cfg, job));
      GrewOn(job.store, Step(cfg, job).store, Drain(cfg, job));
    }
  }

  lemma StepAppend(cfg: Config, st: Store, a: seq<Task>, b: seq<Task>)
    requires a != []
    ensures Step(cfg, Job(st, a + b)) == Job(Step(cfg, Job(st, a)).store, Step(cfg, Job(st, a)).stack + b)
  {
    var left := StepTask(cfg, st, a[0]).1;
    assert (a + b)[1..] == a[1..] + b;
    assert left + (a[1..] + b) == left + a[1..] + b;
  }

  lemma {:induction false} DrainAppend(cfg: Config, st: Store, a: seq<Task>, b: seq<Task>)
    ensures Drain(cfg, Job(st, a + b)) == Drain(cfg, Job(Drain(cfg, Job(st, a)), b))
    decreases Sum(a, Weight())
  {
    if a == [] {
      assert a + b == b;
    } else {
      var next := Step(cfg, Job(st, a));
      JobFalls(cfg, Job(st, a));
      StepAppend(cfg, st, a, b);
      DrainAppend(cfg, next.store, next.stack, b);
      DrainStep(cfg, Job(st, a));
      DrainStep(cfg, Job(st, a + b));
    }
  }

  // -- Stores a call leaves as they are ------------------------------------------------------

  predicate Fixed(cfg: Config, st: Store, stack: seq<Task>) {
    Drain(cfg, Job(st, stack)) == st
  }

  lemma FixedStep(cfg: Config, st: Store, stack: seq<Task>)
    requires stack != [] && Fixed(cfg, st, stack)
    ensures StepTask(cfg, st, stack[0]).0 == st
    ensures Fixed(cfg, st, StepTask(cfg, st, stack[0]).1 + stack[1..])
  {
    TaskGrows(cfg, st, stack[0]);
    DrainGrows(cfg, Step(cfg, Job(st, stack)));
    GrewBothWays(st, StepTask(cfg, st, stack[0]).0);
  }

  lemma FixedSplit(cfg: Config, st: Store, a: seq<Task>, b: seq<Task>)
    requires Fixed(cfg, st, a + b)
    ensures Fixed(cfg, st, a) && Fixed(cfg, st, b)
  {
    DrainAppend(cfg, st, a, b);
    DrainGrows(cfg, Job(st, a));
    DrainGrows(cfg, Job(Drain(cfg, Job(st, a)), b));
    GrewBothWays(st, Drain(cfg, Job(st, a)));
  }

  /** Every catalog has as many entry rows as its document has entries: no harvested rows are attached. */
  predicate Whole(st: Store) {
    && (forall k :: 0 <= k < |st.entries| ==> st.entries[k].catalog < |st.catalogs|)
    && forall c :: 0 <= c < |st.catalogs| ==> |EntryIds(st.entries, c)| == |st.catalogs[c].doc.entries|
  }

  lemma SaveKeepsWhole(st: Store, row: CatalogRow)
    requires Whole(st)
    ensures Whole(SaveCatalog(st, row))
  {
    var n := |st.catalogs|;
    var rows := RowsFor(n, row.doc.entries);
    EntryIdsSaved(st.entries, rows, n);
    forall c | 0 <= c < n ensures EntryIds(st.entries + rows, c) == EntryIds(st.entries, c) {
      EntryIdsKept(st.entries, rows, c);
    }
    forall k | 0 <= k < |st.entries + rows| ensures (st.entries + rows)[k].catalog <= n {
      assert (st.entries + rows)[k] == if k < |st.entries| then st.entries[k] else rows[k - |st.entries|];
    }
  }

  lemma TaskKeepsWhole(cfg: Config, st: Store, t: Task)
    requires Whole(st)
    ensures Whole(StepTask(cfg, st, t).0)
  {
    if t.Save? {
      SaveKeepsWhole(st, CatalogRow(t.domain, t.source, t.parent, t.doc));
    }
  }

  lemma {:induction false} DrainKeepsWhole(cfg: Config, job: Job)
    requires Whole(job.store)
    ensures Whole(Drain(cfg, job))
    decreases Sum(job.stack, Weight())
  {
    if job.stack != [] {
      JobFalls(cfg, job);
      TaskKeepsWhole(cfg, job.store, job.stack[0]);
      DrainKeepsWhole(cfg, Step(cfg, job));
    }
  }

  // -- Complete calls ---------------------------------------------------------------------------

  /** The frontier row (and registry row) that entry e of the catalog, saved as entry row id, asks for exists. */
  ghost predicate Followed(cfg: Config, st: Store, catalog: nat, id: nat, e: Entry) {
    && (e.kind.CatalogPointer? && e.url != "" ==> KeyIn(st.frontier, CatalogText(e.url, catalog)))
    && (e.kind.RegistryPointer? && e.url != "" && cfg.harvest ==> exists row: nat :: Listed(st, row, e.url, id))
    && ((e.kind.Other? || (e.kind.RegistryPointer? && !cfg.harvest)) && e.url != "" && cfg.fetchArtifacts ==>
          KeyIn(st.frontier, ArtifactText(e.url, id)))
  }

  predicate Listed(st: Store, row: nat, url: string, id: nat) {
    && row < |st.registries| && st.registries[row] == RegistryRow.RegistryRow(id, url, None)
    && KeyIn(st.frontier, HarvestText(url, row))
  }

  /** The document is saved, every entry is followed, and so on through the embedded catalogs. */
  ghost predicate Complete(cfg: Config, st: Store, doc: Doc, source: string, parent: Option<nat>, depth: nat)
    decreases doc
  {
    var c := Latest(st.catalogs, IndexOf(st.domains, cfg.host), source, parent);
    && c.Some? && st.catalogs[c.value].doc == doc
    && (depth < cfg.maxDepth ==>
          var ids := EntryIds(st.entries, c.value);
          && |ids| == |doc.entries|
          && forall i :: 0 <= i < |doc.entries| ==> EntryComplete(cfg, st, c.value, ids[i], doc.entries[i], source, depth))
  }

  ghost predicate EntryComplete(cfg: Config, st: Store, catalog: nat, id: nat, e: Entry, source: string, depth: nat)
    decreases e
  {
    && Followed(cfg, st, catalog, id, e)
    && (Embedded(e) ==> Complete(cfg, st, e.data.value, source + "#" + e.identifier, Some(catalog), depth + 1))
  }

  lemma EnsuredAlready(st: Store, item: Item, hostname: string -> string)
    requires EnsureItem(st, item, hostname) == st
    ensures KeyIn(st.frontier, item.key)
  {
  }

  lemma FixedListing(cfg: Config, st: Store, catalog: nat, id: nat, e: Entry, source: string, depth: nat)
    requires Harvested(cfg, e)
    requires FollowEntry(cfg, st, catalog, id, e, source, depth).0 == st
    requires Fixed(cfg, st, FollowEntry(cfg, st, catalog, id, e, source, depth).1)
    ensures exists row: nat :: Listed(st, row, e.url, id)
  {
    var left := FollowEntry(cfg, st, catalog, id, e, source, depth).1;
    FixedStep(cfg, st, left);
    EnsuredAlready(st, HarvestItem(cfg, left[0]), cfg.hostname);
    HarvestItemKey(cfg, left[0]);
    hide HarvestItem, HarvestText;
    assert Listed(st, left[0].row, e.url, id);
  }

  lemma FixedEntry(cfg: Config, st: Store, catalog: nat, id: nat, e: Entry, source: string, depth: nat)
    requires FollowEntry(cfg, st, catalog, id, e, source, depth).0 == st
    requires Fixed(cfg, st, FollowEntry(cfg, st, catalog, id, e, source, depth).1)
    ensures Followed(cfg, st, catalog, id, e)
    ensures Embedded(e) ==> Fixed(cfg, st, [Process(e.data.value, source + "#" + e.identifier, Some(catalog), depth + 1)])
  {
    hide CatalogItem, ArtifactItem, CatalogText, ArtifactText, HarvestText, Fixed;
    if e.kind.CatalogPointer? && e.url != "" {
      CatalogItemKey(cfg, e.url, depth + 1, catalog);
      EnsuredAlready(st, CatalogItem(cfg, e.url, depth + 1, catalog), cfg.hostname);
    } else if Harvested(cfg, e) {
      FixedListing(cfg, st, catalog, id, e, source, depth);
    } else if Fetched(cfg, e) {
      ArtifactItemKey(cfg, e.url, id);
      EnsuredAlready(st, ArtifactItem(cfg, e.url, id), cfg.hostname);
    }
  }

  lemma FixedHead(cfg: Config, st: Store, t: Task)
    requires t.Follow? && t.ids != [] && t.entries != [] && Fixed(cfg, st, [t])
    ensures var (st', first) := FollowEntry(cfg, st, t.catalog, t.ids[0], t.entries[0], t.source, t.depth);
      st' == st && Fixed(cfg, st, first) && Fixed(cfg, st, [t.(ids := t.ids[1..], entries := t.entries[1..])])
  {
    var first := FollowEntry(cfg, st, t.catalog, t.ids[0], t.entries[0], t.source, t.depth).1;
    var rest := [t.(ids := t.ids[1..], entries := t.entries[1..])];
    FixedStep(cfg, st, [t]);
    assert first + rest + [t][1..] == first + rest;
    FixedSplit(cfg, st, first, rest);
  }

  function Tail(t: Task, i: nat): Task
    requires t.Follow? && |t.ids| == |t.entries| && i <= |t.entries|
  {
    t.(ids := t.ids[i..], entries := t.entries[i..])
  }

  lemma {:induction false} FixedTail(cfg: Config, st: Store, t: Task, i: nat)
    requires t.Follow? && |t.ids| == |t.entries| && Fixed(cfg, st, [t]) && i <= |t.entries|
    ensures Fixed(cfg, st, [Tail(t, i)])
  {
    if i == 0 {
      assert Tail(t, 0) == t;
    } else {
      var before := Tail(t, i - 1);
      FixedTail(cfg, st, t, i - 1);
      FixedHead(cfg, st, before);
      assert before.(ids := before.ids[1..], entries := before.entries[1..]) == Tail(t, i);
    }
  }

  lemma FixedEntries(cfg: Config, st: Store, t: Task, i: nat)
    requires t.Follow? && |t.ids| == |t.entries| && Fixed(cfg, st, [t]) && i < |t.entries|
    ensures Followed(cfg, st, t.catalog, t.ids[i], t.entries[i])
    ensures Embedded(t.entries[i]) ==>
      Fixed(cfg, st, [Process(t.entries[i].data.value, t.source + "#" + t.entries[i].identifier, Some(t.catalog), t.depth + 1)])
  {
    hide Drain;
    FixedTail(cfg, st, t, i);
    FixedHead(cfg, st, Tail(t, i));
    FixedEntry(cfg, st, t.catalog, t.ids[i], t.entries[i], t.source, t.depth);
  }

  // -- Entry by entry --------------------------------------------------------------------------

  /** The store once one entry, with everything embedded in it, has been followed. */
  function EntryDrained(cfg: Config, st: Store, catalog: nat, id: nat, e: Entry, source: string, depth: nat): Store {
    var (st', left) := FollowEntry(cfg, st, catalog, id, e, source, depth);
    Drain(cfg, Job(st', left))
  }

  /** The store once the entries from the i-th on have been followed, one after the other. */
  function DrainedFrom(cfg: Config, st: Store, t: Task, i: nat): Store
    requires t.Follow? && |t.ids| == |t.entries| && i <= |t.entries|
    decreases |t.entries| - i
  {
    if i == |t.entries| then st
    else DrainedFrom(cfg, EntryDrained(cfg, st, t.catalog, t.ids[i], t.entries[i], t.source, t.depth), t, i + 1)
  }

  lemma EntryDrains(cfg: Config, st: Store, t: Task, i: nat)
    requires t.Follow? && |t.ids| == |t.entries| && i < |t.entries|
    ensures Drain(cfg, Job(st, [Tail(t, i)]))
         == Drain(cfg, Job(EntryDrained(cfg, st, t.catalog, t.ids[i], t.entries[i], t.source, t.depth), [Tail(t, i + 1)]))
  {
    var (st', left) := FollowEntry(cfg, st, t.catalog, t.ids[i], t.entries[i], t.source, t.depth);
    var rest := [Tail(t, i + 1)];
    DrainStep(cfg, Job(st, [Tail(t, i)]));
    assert Step(cfg, Job(st, [Tail(t, i)])) == Job(st', left + rest) by {
      assert left + rest + [Tail(t, i)][1..] == left + rest;
    }
    DrainAppend(cfg, st', left, rest);
  }

  lemma {:induction false} FollowDrains(cfg: Config, st: Store, t: Task, i: nat)
    requires t.Follow? && |t.ids| == |t.entries| && i <= |t.entries|
    ensures Drain(cfg, Job(st, [Tail(t, i)])) == DrainedFrom(cfg, st, t, i)
    ensures Tail(t, 0) == t
    decreases |t.entries| - i
  {
    if i == |t.entries| {
      assert Step(cfg, Job(st, [Tail(t, i)])) == Job(st, []);
      DrainStep(cfg, Job(st, [Tail(t, i)]));
    } else {
      EntryDrains(cfg, st, t, i);
      FollowDrains(cfg, EntryDrained(cfg, st, t.catalog, t.ids[i], t.entries[i], t.source, t.depth), t, i + 1);
    }
  }

  // -- Catalogs of one call ---------------------------------------------------------------------

  /** The source of a catalog embedded in this one. */
  predicate EmbedsSource(row: CatalogRow, source: string) {
    exists i :: 0 <= i < |row.doc.entries| && Embedded(row.doc.entries[i]) && source == row.source + "#" + row.doc.entries[i].identifier
  }

  /** Whole, as far as the catalogs in own are concerned. */
  predicate WholeIn(st: Store, own: set<nat>) {
    forall c :: c in own && c < |st.catalogs| ==> |EntryIds(st.entries, c)| == |st.catalogs[c].doc.entries|
  }

  predicate Lists(st: Store, own: set<nat>, domain: nat, source: string, parent: Option<nat>) {
    forall c :: 0 <= c < |st.catalogs| && Identifies(st.catalogs[c], domain, source, parent) ==> c in own
  }

  /** The catalog was saved for an entry embedded in a catalog of own. */
  predicate SavedWithin(st: Store, own: set<nat>, row: CatalogRow) {
    && row.parent.Some? && row.parent.value in own && row.parent.value < |st.catalogs|
    && EmbedsSource(st.catalogs[row.parent.value], row.source)
  }

  /** With a catalog own holds every catalog saved for an entry embedded in it. */
  predicate ClosedIn(st: Store, own: set<nat>, domain: nat) {
    forall c :: 0 <= c < |st.catalogs| && st.catalogs[c].domain == domain && SavedWithin(st, own, st.catalogs[c]) ==> c in own
  }

  lemma FixedCall(cfg: Config, st: Store, own: set<nat>, doc: Doc, source: string, parent: Option<nat>, depth: nat) returns (c: nat)
    requires WholeIn(st, own) && Lists(st, own, IndexOf(st.domains, cfg.host), source, parent)
    requires Fixed(cfg, st, [Process(doc, source, parent, depth)])
    ensures Latest(st.catalogs, IndexOf(st.domains, cfg.host), source, parent) == Some(c) && st.catalogs[c].doc == doc
    ensures c in own && |EntryIds(st.entries, c)| == |doc.entries|
    ensures depth < cfg.maxDepth ==> Fixed(cfg, st, [Follow(c, EntryIds(st.entries, c), doc.entries, source, depth)])
  {
    FixedStep(cfg, st, [Process(doc, source, parent, depth)]);
    var save := Save(doc, IndexOf(st.domains, cfg.host), source, parent, depth);
    assert Fixed(cfg, st, [save]);
    FixedStep(cfg, st, [save]);
    var prior := Latest(st.catalogs, save.domain, source, parent);
    assert prior.Some? && st.catalogs[prior.value].doc == doc by {
      assert |SaveCatalog(st, CatalogRow(save.domain, source, parent, doc)).catalogs| == |st.catalogs| + 1;
    }
    c := prior.value;
    var follow := Follow(c, EntryIds(st.entries, c), doc.entries, source, depth);
    assert [follow] + [save][1..] == [follow];
  }

  lemma {:induction false} OwnFixedMeansComplete(cfg: Config, st: Store, own: set<nat>,
                                                 doc: Doc, source: string, parent: Option<nat>, depth: nat)
    requires WholeIn(st, own) && ClosedIn(st, own, IndexOf(st.domains, cfg.host))
    requires Lists(st, own, IndexOf(st.domains, cfg.host), source, parent)
    requires Fixed(cfg, st, [Process(doc, source, parent, depth)])
    ensures Complete(cfg, st, doc, source, parent, depth)
    decreases doc, 0
  {
    var c := FixedCall(cfg, st, own, doc, source, parent, depth);
    if depth < cfg.maxDepth {
      var follow := Follow(c, EntryIds(st.entries, c), doc.entries, source, depth);
      forall i | 0 <= i < |doc.entries| ensures EntryComplete(cfg, st, c, follow.ids[i], doc.entries[i], source, depth) {
        OwnFixedMeansEntryComplete(cfg, st, own, follow, i);
      }
    }
  }

  lemma {:induction false} OwnFixedMeansEntryComplete(cfg: Config, st: Store, own: set<nat>, t: Task, i: nat)
    requires WholeIn(st, own) && ClosedIn(st, own, IndexOf(st.domains, cfg.host))
    requires t.Follow? && |t.ids| == |t.entries| && Fixed(cfg, st, [t]) && i < |t.entries|
    requires t.catalog in own && t.catalog < |st.catalogs|
    requires st.catalogs[t.catalog].source == t.source && st.catalogs[t.catalog].doc.entries == t.entries
    ensures EntryComplete(cfg, st, t.catalog, t.ids[i], t.entries[i], t.source, t.depth)
    decreases t.entries[i]
  {
    var e := t.entries[i];
    FixedEntries(cfg, st, t, i);
    if Embedded(e) {
      assert EmbedsSource(st.catalogs[t.catalog], t.source + "#" + e.identifier);
      OwnFixedMeansComplete(cfg, st, own, e.data.value, t.source + "#" + e.identifier, Some(t.catalog), t.depth + 1);
    }
  }

  /** A call that changes nothing has nothing left to do. */
  lemma FixedMeansComplete(cfg: Config, st: Store, doc: Doc, source: string, parent: Option<nat>, depth: nat)
    requires Whole(st) && Fixed(cfg, st, [Process(doc, source, parent, depth)])
    ensures Complete(cfg, st, doc, source, parent, depth)
  {
    var all := Block(0, |st.catalogs|);
    var own := set c | c in all;
    forall c: nat | c < |st.catalogs| ensures c in own {
      assert all[c] == c;
    }
    OwnFixedMeansComplete(cfg, st, own, doc, source, parent, depth);
  }

  /** Only one document can be the latest of a source and parent. */
  lemma CompleteEntriesAgree(cfg: Config, st: Store, catalog: nat, i: nat, a: Entry, j: nat, b: Entry, source: string, depth: nat)
    requires EntryComplete(cfg, st, catalog, i, a, source, depth)
    requires EntryComplete(cfg, st, catalog, j, b, source, depth)
    ensures Agree(a, b)
  {
    if Embedded(a) && Embedded(b) && a.identifier == b.identifier {
      assert Complete(cfg, st, a.data.value, source + "#" + a.identifier, Some(catalog), depth + 1);
      assert Complete(cfg, st, b.data.value, source + "#" + b.identifier, Some(catalog), depth + 1);
    }
  }

  lemma {:induction false} CompleteMeansConsistent(cfg: Config, st: Store, doc: Doc, source: string, parent: Option<nat>, depth: nat)
    requires Complete(cfg, st, doc, source, parent, depth)
    ensures Consistent(doc, depth, cfg.maxDepth)
    decreases doc
  {
    if depth < cfg.maxDepth {
      var c := Latest(st.catalogs, IndexOf(st.domains, cfg.host), source, parent).value;
      var ids := EntryIds(st.entries, c);
      forall i | 0 <= i < |doc.entries| && Embedded(doc.entries[i])
        ensures Consistent(doc.entries[i].data.value, depth + 1, cfg.maxDepth)
      {
        var e := doc.entries[i];
        assert EntryComplete(cfg, st, c, ids[i], e, source, depth);
        CompleteMeansConsistent(cfg, st, e.data.value, source + "#" + e.identifier, Some(c), depth + 1);
      }
      forall i, j | 0 <= i < |doc.entries| && 0 <= j < |doc.entries| ensures Agree(doc.entries[i], doc.entries[j]) {
        CompleteEntriesAgree(cfg, st, c, ids[i], doc.entries[i], ids[j], doc.entries[j], source, depth);
      }
    }
  }

  /**
   After any number of crashes, at any points, the attempt that ends leaves nothing
   out: every catalog of every level is saved and every entry has its follow-up row.
   */
  lemma RecoveryIsComplete(cfg: Config, st: Store, root: Task, crashes: seq<nat>)
    requires Recoverable(cfg, st, root) && Whole(st)
    ensures Complete(cfg, Attempts(cfg, st, root, crashes), root.doc, root.source, root.parent, root.depth)
  {
    AnyNumberOfCrashes(cfg, st, root, crashes);
    SecondCallChangesNothing(cfg, st, root);
    DrainKeepsWhole(cfg, Job(st, [root]));
    FixedMeansComplete(cfg, Drain(cfg, Job(st, [root])), root.doc, root.source, root.parent, root.depth);
  }

  ghost predicate CrashesDoNotShow(cfg: Config, st: Store, root: Task) {
    forall n: nat :: Drain(cfg, Job(Steps(cfg, Job(st, [root]), n).store, [root])) == Drain(cfg, Job(st, [root]))
  }

  /**
   The exact condition: a crash never shows if and only if, at every level that is
   followed, embedded catalogs with one identifier carry the same bytes.
   */
  lemma CrashesDoNotShowExactly(cfg: Config, st: Store, root: Task)
    requires StoreOk(st) && RootOk(st, root) && Whole(st)
    ensures CrashesDoNotShow(cfg, st, root) <==> Consistent(root.doc, root.depth, cfg.maxDepth)
  {
    if Consistent(root.doc, root.depth, cfg.maxDepth) {
      forall n: nat ensures Drain(cfg, Job(Steps(cfg, Job(st, [root]), n).store, [root])) == Drain(cfg, Job(st, [root])) {
        CrashEquivalence(cfg, st, root, n);
      }
    }
    if CrashesDoNotShow(cfg, st, root) {
      var n := CallEnds(cfg, Job(st, [root]));
      var end := Drain(cfg, Job(st, [root]));
      DrainKeepsWhole(cfg, Job(st, [root]));
      FixedMeansComplete(cfg, end, root.doc, root.source, root.parent, root.depth);
      CompleteMeansConsistent(cfg, end, root.doc, root.source, root.parent, root.depth);
    }
  }

  /**
   A call that finds its catalog saved and unchanged goes on to the entries if and
   only if the depth allows it and the catalog has as many entry rows as the
   document has entries. Harvested rows attached to the catalog trip that test;
   the call then adds its domain at most.
   */
  lemma UnchangedCallFollowsExactly(cfg: Config, st: Store, root: Task)
    requires root.Process?
    requires var c := Latest(st.catalogs, GetOrAdd(st.domains, cfg.host).1, root.source, root.parent);
      c.Some? && st.catalogs[c.value].doc == root.doc
    ensures var (domains, domain) := GetOrAdd(st.domains, cfg.host);
      var c := Latest(st.catalogs, domain, root.source, root.parent).value;
      var end := Steps(cfg, Job(st, [root]), 2);
      && end.store == st.(domains := domains)
      && (end.stack != [] <==> root.depth < cfg.maxDepth && |EntryIds(st.entries, c)| == |root.doc.entries|)
      && (end.stack == [] ==> Drain(cfg, Job(st, [root])) == end.store)
  {
    var save := Step(cfg, Job(st, [root]));
    assert save.stack == StepTask(cfg, st, root).1;
    assert Iterate(StepOf(cfg), Job(st, [root]), 1) == save by {
      assert Iterate(StepOf(cfg), Job(st, [root]), 0) == Job(st, [root]);
    }
    assert Steps(cfg, Job(st, [root]), 2) == Step(cfg, save);
    StepsDrainAlike(cfg, Job(st, [root]), 2);
  }
}
