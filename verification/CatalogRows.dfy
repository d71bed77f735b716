/**
 What processCatalog leaves in the frontier, row by row and column by column: for
 each entry it follows the row that entry asks for, and no row besides.
 */
module CatalogRows {
  import opened Basics
  import opened FrontierTable
  import opened DedupKey
  import opened CatalogStore
  import opened CatalogRecovery
  import opened ItemRows
  import opened CatalogCompleteness

  // -- No further row ------------------------------------------------------------------------

  /** The first entry rows of a catalog are its document's entries. */
  predicate OwnRows(st: Store, c: nat)
    requires c < |st.catalogs|
  {
    var ids, entries := EntryIds(st.entries, c), st.catalogs[c].doc.entries;
    && |entries| <= |ids|
    && forall k :: 0 <= k < |entries| ==> st.entries[ids[k]] == EntryRow(c, entries[k], None)
  }

  predicate Intact(st: Store) {
    StoreOk(st) && forall c :: 0 <= c < |st.catalogs| ==> OwnRows(st, c)
  }

  /** The depth a catalog was processed at by a call that saves its first catalog under parent base at depth d0. */
  function Level(st: Store, base: Option<nat>, d0: nat, c: nat): nat
    decreases c
  {
    if c >= |st.catalogs| then 0
    else
      var p := st.catalogs[c].parent;
      if p == base then d0
      else if p.Some? && p.value < c then Level(st, base, d0, p.value) + 1
      else 0
  }

  /** A URL entry of catalog c asks for the row. */
  ghost predicate AskedByPointer(cfg: Config, base: Option<nat>, d0: nat, st: Store, r: Row, c: nat) {
    && c < |st.catalogs| && Above(base, c) && Level(st, base, d0, c) < cfg.maxDepth
    && IsCatalogRow(cfg, r, r.url, Level(st, base, d0, c) + 1, c)
    && exists k :: 0 <= k < |st.catalogs[c].doc.entries|
         && st.catalogs[c].doc.entries[k].kind.CatalogPointer? && st.catalogs[c].doc.entries[k].url == r.url != ""
  }

  /** The entry saved as row id, with its URL, asks for the row. */
  ghost predicate AskedByArtifact(cfg: Config, base: Option<nat>, st: Store, r: Row, id: nat) {
    && id < |st.entries| && st.entries[id].registry.None? && Above(base, st.entries[id].catalog)
    && IsArtifactRow(cfg, r, r.url, id)
    && var e := st.entries[id].entry;
       && e.url == r.url && e.url != "" && cfg.fetchArtifacts
       && (e.kind.Other? || (e.kind.RegistryPointer? && !cfg.harvest))
  }

  /** The registry entry that is listed as row asks for the row. */
  ghost predicate AskedByRegistry(cfg: Config, base: Option<nat>, st: Store, r: Row, row: nat) {
    && row < |st.registries|
    && var g := st.registries[row];
       && g.referral.None? && g.entry < |st.entries| && st.entries[g.entry].registry.None?
       && Above(base, st.entries[g.entry].catalog)
       && IsHarvestRow(cfg, r, r.url, 0, g.entry, st.entries[g.entry].catalog, row)
       && var e := st.entries[g.entry].entry;
          e.kind.RegistryPointer? && e.url == g.baseUrl == r.url && e.url != "" && cfg.harvest
  }

  ghost predicate Asked(cfg: Config, base: Option<nat>, d0: nat, st: Store, r: Row) {
    || (exists c: nat :: AskedByPointer(cfg, base, d0, st, r, c))
    || (exists id: nat :: AskedByArtifact(cfg, base, st, r, id))
    || (exists row: nat :: AskedByRegistry(cfg, base, st, r, row))
  }

  /** A row that no catalog of this call asks for: of the catalog it was called for, or of a registry somebody else referred to. */
  ghost predicate Foreign(base: Option<nat>, st: Store, r: Row) {
    || (base.Some? && exists url :: r.key == CatalogText(url, base.value))
    || (exists url, row: nat :: OfReferral(st, r, url, row))
  }

  predicate OfReferral(st: Store, r: Row, url: string, row: nat) {
    row < |st.registries| && st.registries[row].referral.Some? && r.key == HarvestText(url, row)
  }

  /** Every row from the a-th on was asked for; of those from the n-th on the others are foreign. */
  ghost predicate NoMore(cfg: Config, base: Option<nat>, d0: nat, n: nat, a: nat, st: Store) {
    && (forall i :: a <= i < |st.frontier| ==> Asked(cfg, base, d0, st, st.frontier[i]))
    && (forall i :: n <= i < |st.frontier| ==> Asked(cfg, base, d0, st, st.frontier[i]) || Foreign(base, st, st.frontier[i]))
  }

  lemma {:induction false} LevelStays(st: Store, st': Store, base: Option<nat>, d0: nat, c: nat)
    requires st.catalogs <= st'.catalogs && c < |st.catalogs|
    ensures Level(st', base, d0, c) == Level(st, base, d0, c)
    decreases c
  {
    var p := st.catalogs[c].parent;
    if p != base && p.Some? && p.value < c {
      LevelStays(st, st', base, d0, p.value);
    }
  }

  lemma ForeignStays(base: Option<nat>, st: Store, st': Store, r: Row)
    requires Grew(st, st') && Foreign(base, st, r)
    ensures Foreign(base, st', r)
  {
    hide CatalogText, HarvestText;
    if url, row: nat :| OfReferral(st, r, url, row) {
      assert OfReferral(st', r, url, row);
    }
  }

  lemma AskedStays(cfg: Config, base: Option<nat>, d0: nat, st: Store, st': Store, r: Row)
    requires Grew(st, st') && Asked(cfg, base, d0, st, r)
    ensures Asked(cfg, base, d0, st', r)
  {
    hide IsCatalogRow, IsArtifactRow, IsHarvestRow;
    if c: nat :| AskedByPointer(cfg, base, d0, st, r, c) {
      LevelStays(st, st', base, d0, c);
      assert AskedByPointer(cfg, base, d0, st', r, c);
    } else if id: nat :| AskedByArtifact(cfg, base, st, r, id) {
      assert AskedByArtifact(cfg, base, st', r, id);
    } else {
      var row: nat :| AskedByRegistry(cfg, base, st, r, row);
      assert AskedByRegistry(cfg, base, st', r, row);
    }
  }

  /** Where in the call a task stands. */
  predicate Placed(cfg: Config, base: Option<nat>, d0: nat, st: Store, t: Task) {
    match t
    case Process(_, _, parent, depth) => PlacedUnder(base, d0, st, parent, depth)
    case Save(_, _, _, parent, depth) => PlacedUnder(base, d0, st, parent, depth)
    case Follow(catalog, ids, entries, source, depth) =>
      && catalog < |st.catalogs| && Above(base, catalog) && depth == Level(st, base, d0, catalog) < cfg.maxDepth
      && |ids| == |entries|
      && forall k :: 0 <= k < |entries| ==>
           && ids[k] < |st.entries| && st.entries[ids[k]] == EntryRow(catalog, entries[k], None)
           && entries[k] in st.catalogs[catalog].doc.entries
    case Enlist(row, url, entry, catalog) =>
      && row < |st.registries| && st.registries[row] == CatalogStore.RegistryRow.RegistryRow(entry, url, None)
      && entry < |st.entries| && st.entries[entry].catalog == catalog && st.entries[entry].registry.None? && Above(base, catalog)
      && st.entries[entry].entry.kind.RegistryPointer? && st.entries[entry].entry.url == url && url != "" && cfg.harvest
  }

  predicate PlacedUnder(base: Option<nat>, d0: nat, st: Store, parent: Option<nat>, depth: nat) {
    && (parent.Some? ==> parent.value < |st.catalogs|)
    && if parent == base then depth == d0
       else parent.Some? && Above(base, parent.value) && depth == Level(st, base, d0, parent.value) + 1
  }

  lemma PlacedStays(cfg: Config, base: Option<nat>, d0: nat, st: Store, st': Store, t: Task)
    requires Grew(st, st') && Placed(cfg, base, d0, st, t)
    ensures Placed(cfg, base, d0, st', t)
  {
    match t
    case Process(_, _, parent, _) =>
      if parent != base { LevelStays(st, st', base, d0, parent.value); }
    case Save(_, _, _, parent, _) =>
      if parent != base { LevelStays(st, st', base, d0, parent.value); }
    case Follow(catalog, _, _, _, _) => LevelStays(st, st', base, d0, catalog);
    case Enlist(_, _, _, _) =>
  }

  /** A call in progress, n being the number of frontier rows when it began. */
  ghost predicate Going(cfg: Config, base: Option<nat>, d0: nat, n: nat, a: nat, job: Job) {
    && Intact(job.store) && (base.Some? ==> base.value < |job.store.catalogs|)
    && a <= |job.store.frontier| && NoMore(cfg, base, d0, n, a, job.store)
    && forall k :: 0 <= k < |job.stack| ==> Placed(cfg, base, d0, job.store, job.stack[k])
  }

  lemma NoMoreStays(cfg: Config, base: Option<nat>, d0: nat, n: nat, a: nat, st: Store, st': Store)
    requires NoMore(cfg, base, d0, n, a, st) && Grew(st, st') && st'.frontier == st.frontier
    ensures NoMore(cfg, base, d0, n, a, st')
  {
    forall i | 0 <= i < |st.frontier|
      ensures Asked(cfg, base, d0, st, st.frontier[i]) ==> Asked(cfg, base, d0, st', st.frontier[i])
      ensures Foreign(base, st, st.frontier[i]) ==> Foreign(base, st', st.frontier[i])
    {
      RowStays(cfg, base, d0, st, st', st.frontier[i]);
    }
  }

  lemma RowStays(cfg: Config, base: Option<nat>, d0: nat, st: Store, st': Store, r: Row)
    requires Grew(st, st')
    ensures Asked(cfg, base, d0, st, r) ==> Asked(cfg, base, d0, st', r)
    ensures Foreign(base, st, r) ==> Foreign(base, st', r)
  {
    hide Asked, Foreign;
    if Asked(cfg, base, d0, st, r) {
      AskedStays(cfg, base, d0, st, st', r);
    }
    if Foreign(base, st, r) {
      ForeignStays(base, st, st', r);
    }
  }

  lemma EnsureAsked(cfg: Config, base: Option<nat>, d0: nat, n: nat, a: nat, st: Store, item: Item)
    requires NoMore(cfg, base, d0, n, a, st) && Asked(cfg, base, d0, st, NewRow(item, cfg.hostname))
    ensures NoMore(cfg, base, d0, n, a, EnsureItem(st, item, cfg.hostname))
  {
    var st' := EnsureItem(st, item, cfg.hostname);
    EnsureOutcome(st, item, cfg.hostname);
    EnsureGrows(st, item, cfg.hostname);
    hide EnsureItem, Asked, Foreign, NewRow;
    forall i | 0 <= i < |st'.frontier|
      ensures Asked(cfg, base, d0, st, st'.frontier[i]) ==> Asked(cfg, base, d0, st', st'.frontier[i])
      ensures Foreign(base, st, st'.frontier[i]) ==> Foreign(base, st', st'.frontier[i])
    {
      RowStays(cfg, base, d0, st, st', st'.frontier[i]);
    }
  }

  lemma SameRowsIntact(st: Store, st': Store)
    requires Intact(st) && st'.catalogs == st.catalogs && st'.entries == st.entries
    ensures Intact(st')
  {
    forall c | 0 <= c < |st'.catalogs| ensures OwnRows(st', c) {
      assert OwnRows(st, c);
    }
  }

  lemma PointerAsks(cfg: Config, base: Option<nat>, d0: nat, st: Store, r: Row, c: nat, e: Entry)
    requires c < |st.catalogs| && Above(base, c) && Level(st, base, d0, c) < cfg.maxDepth
    requires e in st.catalogs[c].doc.entries && e.kind.CatalogPointer? && e.url != ""
    requires IsCatalogRow(cfg, r, e.url, Level(st, base, d0, c) + 1, c)
    ensures Asked(cfg, base, d0, st, r)
  {
    assert r.url == e.url;
    hide IsCatalogRow;
    assert AskedByPointer(cfg, base, d0, st, r, c);
  }

  lemma PointerGoing(cfg: Config, base: Option<nat>, d0: nat, n: nat, a: nat, st: Store, c: nat, e: Entry)
    requires NoMore(cfg, base, d0, n, a, st)
    requires c < |st.catalogs| && Above(base, c) && Level(st, base, d0, c) < cfg.maxDepth
    requires e in st.catalogs[c].doc.entries && e.kind.CatalogPointer? && e.url != ""
    ensures NoMore(cfg, base, d0, n, a, EnsureItem(st, CatalogItem(cfg, e.url, Level(st, base, d0, c) + 1, c), cfg.hostname))
  {
    hide *;
    var item := CatalogItem(cfg, e.url, Level(st, base, d0, c) + 1, c);
    CatalogItemRow(cfg, e.url, Level(st, base, d0, c) + 1, c);
    PointerAsks(cfg, base, d0, st, NewRow(item, cfg.hostname), c, e);
    EnsureAsked(cfg, base, d0, n, a, st, item);
  }

  lemma ArtifactGoing(cfg: Config, base: Option<nat>, d0: nat, n: nat, a: nat, st: Store, id: nat)
    requires NoMore(cfg, base, d0, n, a, st)
    requires id < |st.entries| && st.entries[id].registry.None? && Above(base, st.entries[id].catalog)
    requires Fetched(cfg, st.entries[id].entry)
    ensures NoMore(cfg, base, d0, n, a, EnsureItem(st, ArtifactItem(cfg, st.entries[id].entry.url, id), cfg.hostname))
  {
    var item := ArtifactItem(cfg, st.entries[id].entry.url, id);
    ArtifactItemRow(cfg, st.entries[id].entry.url, id);
    hide NoMore, EnsureItem;
    assert AskedByArtifact(cfg, base, st, NewRow(item, cfg.hostname), id) by { hide Key; }
    EnsureAsked(cfg, base, d0, n, a, st, item);
  }

  lemma RegistryGoing(cfg: Config, base: Option<nat>, d0: nat, n: nat, a: nat, st: Store, wanted: CatalogStore.RegistryRow)
    requires NoMore(cfg, base, d0, n, a, st)
    ensures NoMore(cfg, base, d0, n, a, st.(registries := GetOrAdd(st.registries, wanted).0))
  {
    hide NoMore;
    NoMoreStays(cfg, base, d0, n, a, st, st.(registries := GetOrAdd(st.registries, wanted).0));
  }

  /** What FollowEntry does, by the kind of the entry. */
  lemma FollowedRows(cfg: Config, base: Option<nat>, d0: nat, n: nat, a: nat, st: Store, c: nat, id: nat, e: Entry, source: string)
    requires NoMore(cfg, base, d0, n, a, st)
    requires c < |st.catalogs| && Above(base, c) && Level(st, base, d0, c) < cfg.maxDepth && e in st.catalogs[c].doc.entries
    requires id < |st.entries| && st.entries[id] == EntryRow(c, e, None)
    ensures NoMore(cfg, base, d0, n, a, FollowEntry(cfg, st, c, id, e, source, Level(st, base, d0, c)).0)
  {
    hide NoMore, CatalogItem, ArtifactItem, EnsureItem, Level, GetOrAdd;
    if e.kind.CatalogPointer? && e.url != "" {
      PointerGoing(cfg, base, d0, n, a, st, c, e);
    } else if Embedded(e) {
    } else if Harvested(cfg, e) {
      RegistryGoing(cfg, base, d0, n, a, st, CatalogStore.RegistryRow.RegistryRow(id, e.url, None));
    } else if Fetched(cfg, e) {
      ArtifactGoing(cfg, base, d0, n, a, st, id);
    }
  }

  lemma FollowedTasks(cfg: Config, base: Option<nat>, d0: nat, st: Store, t: Task)
    requires t.Follow? && t.entries != [] && Placed(cfg, base, d0, st, t)
    ensures var (st', left) := FollowEntry(cfg, st, t.catalog, t.ids[0], t.entries[0], t.source, t.depth);
      forall k :: 0 <= k < |left| ==> Placed(cfg, base, d0, st', left[k])
  {
    var e, id := t.entries[0], t.ids[0];
    assert st.entries[id] == EntryRow(t.catalog, e, None);
    var st' := FollowEntry(cfg, st, t.catalog, id, e, t.source, t.depth).0;
    LevelStays(st, st', base, d0, t.catalog);
    hide Level, EnsureItem, CatalogItem, ArtifactItem;
  }

  lemma FollowSameRows(cfg: Config, st: Store, c: nat, id: nat, e: Entry, source: string, depth: nat)
    ensures var st' := FollowEntry(cfg, st, c, id, e, source, depth).0; st'.catalogs == st.catalogs && st'.entries == st.entries
  {
  }

  lemma FollowOneGoing(cfg: Config, base: Option<nat>, d0: nat, n: nat, a: nat, st: Store, t: Task)
    requires Intact(st) && NoMore(cfg, base, d0, n, a, st)
    requires t.Follow? && t.entries != [] && Placed(cfg, base, d0, st, t)
    ensures var (st', left) := FollowEntry(cfg, st, t.catalog, t.ids[0], t.entries[0], t.source, t.depth);
      && Intact(st') && NoMore(cfg, base, d0, n, a, st')
      && forall k :: 0 <= k < |left| ==> Placed(cfg, base, d0, st', left[k])
  {
    assert t.entries[0] in st.catalogs[t.catalog].doc.entries && st.entries[t.ids[0]] == EntryRow(t.catalog, t.entries[0], None);
    FollowedTasks(cfg, base, d0, st, t);
    hide NoMore, FollowEntry, Intact;
    FollowedRows(cfg, base, d0, n, a, st, t.catalog, t.ids[0], t.entries[0], t.source);
    FollowSameRows(cfg, st, t.catalog, t.ids[0], t.entries[0], t.source, t.depth);
    SameRowsIntact(st, FollowEntry(cfg, st, t.catalog, t.ids[0], t.entries[0], t.source, t.depth).0);
  }

  lemma SaveKeepsIntact(st: Store, row: CatalogRow)
    requires Intact(st) && (row.parent.Some? ==> row.parent.value < |st.catalogs|)
    ensures Intact(SaveCatalog(st, row))
  {
    var st' := SaveCatalog(st, row);
    var rows := RowsFor(|st.catalogs|, row.doc.entries);
    EntryIdsSaved(st.entries, rows, |st.catalogs|);
    forall c | 0 <= c < |st'.catalogs| ensures OwnRows(st', c) {
      if c < |st.catalogs| {
        assert OwnRows(st, c);
        EntryIdsKept(st.entries, rows, c);
      }
    }
  }

  /** The catalog a Save ends up with, new or found, stands where the Save stood. */
  lemma SavedAt(base: Option<nat>, d0: nat, st: Store, parent: Option<nat>, depth: nat, c: nat)
    requires StoreOk(st) && PlacedUnder(base, d0, st, parent, depth)
    requires c < |st.catalogs| && st.catalogs[c].parent == parent
    ensures Above(base, c) && Level(st, base, d0, c) == depth
  {
  }

  /** The task that follows a catalog with all its own entry rows. */
  lemma FollowPlaced(cfg: Config, base: Option<nat>, d0: nat, st: Store, c: nat, ids: seq<nat>, source: string, depth: nat)
    requires Intact(st) && c < |st.catalogs| && Above(base, c) && Level(st, base, d0, c) == depth < cfg.maxDepth
    requires ids == EntryIds(st.entries, c) && |ids| == |st.catalogs[c].doc.entries|
    ensures Placed(cfg, base, d0, st, Follow(c, ids, st.catalogs[c].doc.entries, source, depth))
  {
    assert OwnRows(st, c);
  }

  lemma NewPlaced(cfg: Config, base: Option<nat>, d0: nat, st: Store, t: Task)
    requires Intact(st) && t.Save? && PlacedUnder(base, d0, st, t.parent, t.depth) && t.depth < cfg.maxDepth
    ensures var st' := SaveCatalog(st, CatalogRow(t.domain, t.source, t.parent, t.doc));
      Placed(cfg, base, d0, st', Follow(|st.catalogs|, Block(|st.entries|, |t.doc.entries|), t.doc.entries, t.source, t.depth))
  {
    var st' := SaveCatalog(st, CatalogRow(t.domain, t.source, t.parent, t.doc));
    SaveKeepsIntact(st, CatalogRow(t.domain, t.source, t.parent, t.doc));
    EntryIdsSaved(st.entries, RowsFor(|st.catalogs|, t.doc.entries), |st.catalogs|);
    if t.parent != base {
      LevelStays(st, st', base, d0, t.parent.value);
    }
    IntactStoreOk(st');
    hide Intact, Placed, Level, StoreOk, OwnRows;
    SavedAt(base, d0, st', t.parent, t.depth, |st.catalogs|);
    FollowPlaced(cfg, base, d0, st', |st.catalogs|, Block(|st.entries|, |t.doc.entries|), t.source, t.depth);
  }

  lemma PriorPlaced(cfg: Config, base: Option<nat>, d0: nat, st: Store, t: Task, c: nat)
    requires Intact(st) && t.Save? && PlacedUnder(base, d0, st, t.parent, t.depth) && t.depth < cfg.maxDepth
    requires c < |st.catalogs| && st.catalogs[c].parent == t.parent && st.catalogs[c].doc == t.doc
    requires |EntryIds(st.entries, c)| == |t.doc.entries|
    ensures Placed(cfg, base, d0, st, Follow(c, EntryIds(st.entries, c), t.doc.entries, t.source, t.depth))
  {
    IntactStoreOk(st);
    hide Intact, Placed, StoreOk;
    SavedAt(base, d0, st, t.parent, t.depth, c);
    FollowPlaced(cfg, base, d0, st, c, EntryIds(st.entries, c), t.source, t.depth);
  }

  lemma SavedTasks(cfg: Config, base: Option<nat>, d0: nat, st: Store, t: Task)
    requires Intact(st) && t.Save? && Placed(cfg, base, d0, st, t)
    ensures var (st', left) := StepTask(cfg, st, t);
      forall k :: 0 <= k < |left| ==> Placed(cfg, base, d0, st', left[k])
  {
    assert PlacedUnder(base, d0, st, t.parent, t.depth);
    hide Intact, Placed, PlacedUnder;
    var prior := Latest(st.catalogs, t.domain, t.source, t.parent);
    if prior.Some? && st.catalogs[prior.value].doc == t.doc {
      if t.depth < cfg.maxDepth && |EntryIds(st.entries, prior.value)| == |t.doc.entries| {
        PriorPlaced(cfg, base, d0, st, t, prior.value);
      }
    } else if t.depth < cfg.maxDepth {
      NewPlaced(cfg, base, d0, st, t);
    }
  }

  lemma SaveGoing(cfg: Config, base: Option<nat>, d0: nat, n: nat, a: nat, st: Store, t: Task)
    requires Intact(st) && NoMore(cfg, base, d0, n, a, st) && t.Save? && Placed(cfg, base, d0, st, t)
    ensures var (st', left) := StepTask(cfg, st, t);
      && Intact(st') && NoMore(cfg, base, d0, n, a, st')
      && forall k :: 0 <= k < |left| ==> Placed(cfg, base, d0, st', left[k])
  {
    SavedTasks(cfg, base, d0, st, t);
    SaveKeepsIntact(st, CatalogRow(t.domain, t.source, t.parent, t.doc));
    TaskGrows(cfg, st, t);
    hide Placed, Intact, NoMore;
    NoMoreStays(cfg, base, d0, n, a, st, StepTask(cfg, st, t).0);
  }

  lemma IntactStoreOk(st: Store)
    requires Intact(st)
    ensures StoreOk(st)
  {
  }

  lemma StepGoing(cfg: Config, base: Option<nat>, d0: nat, n: nat, a: nat, job: Job)
    requires Going(cfg, base, d0, n, a, job)
    ensures Going(cfg, base, d0, n, a, Step(cfg, job)) && Grew(job.store, Step(cfg, job).store)
  {
    if job.stack != [] {
      var t := job.stack[0];
      var (st, left) := StepTask(cfg, job.store, t);
      TaskGrows(cfg, job.store, t);
      TaskGoing(cfg, base, d0, n, a, job.store, t);
      hide StepTask, Placed, NoMore, Intact;
      var stack := left + job.stack[1..];
      forall k | 0 <= k < |stack| ensures Placed(cfg, base, d0, st, stack[k]) {
        if k >= |left| {
          assert stack[k] == job.stack[k - |left| + 1];
          PlacedStays(cfg, base, d0, job.store, st, stack[k]);
        }
      }
    }
  }

  lemma TaskGoing(cfg: Config, base: Option<nat>, d0: nat, n: nat, a: nat, st: Store, t: Task)
    requires Intact(st) && NoMore(cfg, base, d0, n, a, st) && Placed(cfg, base, d0, st, t)
    ensures var (st', left) := StepTask(cfg, st, t);
      && Intact(st') && NoMore(cfg, base, d0, n, a, st')
      && forall k :: 0 <= k < |left| ==> Placed(cfg, base, d0, st', left[k])
  {
    var (st', left) := StepTask(cfg, st, t);
    match t
    case Process(_, _, _, _) =>
      TaskGrows(cfg, st, t);
      SameRowsIntact(st, st');
      NoMoreStays(cfg, base, d0, n, a, st, st');
      PlacedStays(cfg, base, d0, st, st', t);
    case Save(_, _, _, _, _) => SaveGoing(cfg, base, d0, n, a, st, t);
    case Follow(_, _, _, _, _) => if t.entries != [] { FollowTaskGoing(cfg, base, d0, n, a, st, t); }
    case Enlist(_, _, _, _) => EnlistGoing(cfg, base, d0, n, a, st, t);
  }

  lemma FollowTaskGoing(cfg: Config, base: Option<nat>, d0: nat, n: nat, a: nat, st: Store, t: Task)
    requires Intact(st) && NoMore(cfg, base, d0, n, a, st) && t.Follow? && t.entries != [] && Placed(cfg, base, d0, st, t)
    ensures var (st', left) := StepTask(cfg, st, t);
      && Intact(st') && NoMore(cfg, base, d0, n, a, st')
      && forall k :: 0 <= k < |left| ==> Placed(cfg, base, d0, st', left[k])
  {
    var first := FollowEntry(cfg, st, t.catalog, t.ids[0], t.entries[0], t.source, t.depth).1;
    var rest := Follow(t.catalog, t.ids[1..], t.entries[1..], t.source, t.depth);
    var (st', left) := StepTask(cfg, st, t);
    FollowOneGoing(cfg, base, d0, n, a, st, t);
    TaskGrows(cfg, st, t);
    assert left == first + [rest];
    hide Intact, NoMore, FollowEntry, Level, StepTask, Grew;
    PlacedStays(cfg, base, d0, st, st', t);
    RestPlaced(cfg, base, d0, st', t);
  }

  lemma RestPlaced(cfg: Config, base: Option<nat>, d0: nat, st: Store, t: Task)
    requires t.Follow? && t.entries != [] && Placed(cfg, base, d0, st, t)
    ensures Placed(cfg, base, d0, st, Follow(t.catalog, t.ids[1..], t.entries[1..], t.source, t.depth))
  {
    hide Level;
  }

  lemma EnlistGoing(cfg: Config, base: Option<nat>, d0: nat, n: nat, a: nat, st: Store, t: Task)
    requires Intact(st) && NoMore(cfg, base, d0, n, a, st) && t.Enlist? && Placed(cfg, base, d0, st, t)
    ensures Intact(StepTask(cfg, st, t).0) && NoMore(cfg, base, d0, n, a, StepTask(cfg, st, t).0)
  {
    var item := HarvestItem(cfg, t);
    HarvestItemRow(cfg, t.url, 0, t.entry, t.catalog, t.row);
    SameRowsIntact(st, StepTask(cfg, st, t).0);
    hide NoMore, Intact, Key;
    assert AskedByRegistry(cfg, base, st, NewRow(item, cfg.hostname), t.row);
    EnsureAsked(cfg, base, d0, n, a, st, item);
  }

  lemma {:induction false} DrainGoing(cfg: Config, base: Option<nat>, d0: nat, n: nat, a: nat, job: Job)
    requires Going(cfg, base, d0, n, a, job)
    ensures Going(cfg, base, d0, n, a, Job(Drain(cfg, job), []))
    decreases Sum(job.stack, Weight())
  {
    hide Going, Step;
    if job.stack != [] {
      JobFalls(cfg, job);
      StepGoing(cfg, base, d0, n, a, job);
      DrainGoing(cfg, base, d0, n, a, Step(cfg, job));
    } else {
      assert job == Job(Drain(cfg, job), []);
    }
  }

  // -- No row missing ------------------------------------------------------------------------

  /** The row with this key is there, and as it should be if it is none of the first n. */
  ghost predicate HasCatalogRow(cfg: Config, n: nat, t: Table, url: string, depth: nat, parent: nat) {
    exists i :: 0 <= i < |t| && t[i].key == CatalogText(url, parent) && (i >= n ==> IsCatalogRow(cfg, t[i], url, depth, parent))
  }

  ghost predicate HasArtifactRow(cfg: Config, n: nat, t: Table, url: string, entry: nat) {
    exists i :: 0 <= i < |t| && t[i].key == ArtifactText(url, entry) && (i >= n ==> IsArtifactRow(cfg, t[i], url, entry))
  }

  ghost predicate HasHarvestRow(cfg: Config, n: nat, t: Table, url: string, depth: nat, entry: nat, catalog: nat, row: nat) {
    exists i :: 0 <= i < |t| && t[i].key == HarvestText(url, row) && (i >= n ==> IsHarvestRow(cfg, t[i], url, depth, entry, catalog, row))
  }

  /** The registry is listed for the entry, and its harvest is in the frontier. */
  ghost predicate HasRegistry(cfg: Config, n: nat, st: Store, url: string, depth: nat, entry: nat, catalog: nat, referral: Option<nat>) {
    exists row: nat :: row < |st.registries|
      && st.registries[row] == CatalogStore.RegistryRow.RegistryRow(entry, url, referral)
      && HasHarvestRow(cfg, n, st.frontier, url, depth, entry, catalog, row)
  }

  /** What entry e of catalog c, saved as entry row id, leaves behind. */
  ghost predicate EntryLeft(cfg: Config, n: nat, st: Store, c: nat, id: nat, e: Entry, source: string, depth: nat)
    decreases e
  {
    && (e.kind.CatalogPointer? && e.url != "" ==> HasCatalogRow(cfg, n, st.frontier, e.url, depth + 1, c))
    && (e.kind.RegistryPointer? && e.url != "" && cfg.harvest ==> HasRegistry(cfg, n, st, e.url, 0, id, c, None))
    && ((e.kind.Other? || (e.kind.RegistryPointer? && !cfg.harvest)) && e.url != "" && cfg.fetchArtifacts ==>
          HasArtifactRow(cfg, n, st.frontier, e.url, id))
    && (e.kind.CatalogPointer? && e.url == "" && e.data.Some? ==>
          DocLeft(cfg, n, st, e.data.value, source + "#" + e.identifier, Some(c), depth + 1))
  }

  /** The document is saved for its host, source and parent, and below the depth limit each of its entries has been followed. */
  ghost predicate DocLeft(cfg: Config, n: nat, st: Store, doc: Doc, source: string, parent: Option<nat>, depth: nat)
    decreases doc, 1
  {
    exists c: nat, ids: seq<nat> :: DocLeftAt(cfg, n, st, doc, source, parent, depth, c, ids)
  }

  ghost predicate DocLeftAt(cfg: Config, n: nat, st: Store, doc: Doc, source: string, parent: Option<nat>, depth: nat, c: nat, ids: seq<nat>)
    decreases doc, 0
  {
    && c < |st.catalogs| && st.catalogs[c].doc == doc && st.catalogs[c].source == source && st.catalogs[c].parent == parent
    && st.catalogs[c].domain < |st.domains| && st.domains[st.catalogs[c].domain] == cfg.host
    && (depth < cfg.maxDepth ==>
          && |ids| == |doc.entries|
          && forall k :: 0 <= k < |doc.entries| ==>
               && ids[k] < |st.entries| && st.entries[ids[k]] == EntryRow(c, doc.entries[k], None)
               && EntryLeft(cfg, n, st, c, ids[k], doc.entries[k], source, depth))
  }

  // What is left behind stays.

  lemma RowsStay(cfg: Config, n: nat, st: Store, st': Store, url: string, depth: nat, a: nat, b: nat, referral: Option<nat>)
    requires Grew(st, st')
    ensures HasCatalogRow(cfg, n, st.frontier, url, depth, a) ==> HasCatalogRow(cfg, n, st'.frontier, url, depth, a)
    ensures HasArtifactRow(cfg, n, st.frontier, url, a) ==> HasArtifactRow(cfg, n, st'.frontier, url, a)
    ensures HasRegistry(cfg, n, st, url, depth, a, b, referral) ==> HasRegistry(cfg, n, st', url, depth, a, b, referral)
  {
    hide IsCatalogRow, IsArtifactRow, IsHarvestRow, CatalogText, ArtifactText, HarvestText;
    var t, u := st.frontier, st'.frontier;
    if HasCatalogRow(cfg, n, t, url, depth, a) {
      var i :| 0 <= i < |t| && t[i].key == CatalogText(url, a) && (i >= n ==> IsCatalogRow(cfg, t[i], url, depth, a));
      assert u[i] == t[i];
    }
    if HasArtifactRow(cfg, n, t, url, a) {
      var i :| 0 <= i < |t| && t[i].key == ArtifactText(url, a) && (i >= n ==> IsArtifactRow(cfg, t[i], url, a));
      assert u[i] == t[i];
    }
    if HasRegistry(cfg, n, st, url, depth, a, b, referral) {
      var row: nat :| row < |st.registries| && st.registries[row] == CatalogStore.RegistryRow.RegistryRow(a, url, referral)
        && HasHarvestRow(cfg, n, t, url, depth, a, b, row);
      var i :| 0 <= i < |t| && t[i].key == HarvestText(url, row) && (i >= n ==> IsHarvestRow(cfg, t[i], url, depth, a, b, row));
      assert u[i] == t[i] && st'.registries[row] == st.registries[row];
      assert HasHarvestRow(cfg, n, u, url, depth, a, b, row);
    }
  }

  lemma {:induction false} EntryLeftStays(cfg: Config, n: nat, st: Store, st': Store, c: nat, id: nat, e: Entry, source: string, depth: nat)
    requires Grew(st, st') && EntryLeft(cfg, n, st, c, id, e, source, depth)
    ensures EntryLeft(cfg, n, st', c, id, e, source, depth)
    decreases e
  {
    hide HasCatalogRow, HasArtifactRow, HasRegistry;
    RowsStay(cfg, n, st, st', e.url, depth + 1, c, 0, None);
    RowsStay(cfg, n, st, st', e.url, 0, id, c, None);
    if Embedded(e) {
      DocLeftStays(cfg, n, st, st', e.data.value, source + "#" + e.identifier, Some(c), depth + 1);
    }
  }

  lemma {:induction false} DocLeftStays(cfg: Config, n: nat, st: Store, st': Store, doc: Doc, source: string, parent: Option<nat>, depth: nat)
    requires Grew(st, st') && DocLeft(cfg, n, st, doc, source, parent, depth)
    ensures DocLeft(cfg, n, st', doc, source, parent, depth)
    decreases doc
  {
    var c: nat, ids: seq<nat> :| DocLeftAt(cfg, n, st, doc, source, parent, depth, c, ids);
    hide EntryLeft;
    if depth < cfg.maxDepth {
      forall k | 0 <= k < |doc.entries| ensures EntryLeft(cfg, n, st', c, ids[k], doc.entries[k], source, depth) {
        EntryLeftStays(cfg, n, st, st', c, ids[k], doc.entries[k], source, depth);
      }
    }
    assert DocLeftAt(cfg, n, st', doc, source, parent, depth, c, ids);
  }

  // A key that is there has its row, for no other row could have taken it.

  /** The keys of foreign rows are none of the call's. */
  lemma ForeignTells(cfg: Config, base: Option<nat>, st: Store, r: Row, url: string, id: nat)
    ensures Foreign(base, st, r) && r.key == CatalogText(url, id) ==> base == Some(id)
    ensures Foreign(base, st, r) ==> r.key != ArtifactText(url, id)
    ensures Foreign(base, st, r) && r.key == HarvestText(url, id) ==> id < |st.registries| && st.registries[id].referral.Some?
  {
    hide CatalogText, ArtifactText, HarvestText;
    if Foreign(base, st, r) {
      if u, row: nat :| OfReferral(st, r, u, row) {
        TextsTell(cfg, u, row, url, id);
        TextsTell(cfg, url, id, u, row);
      } else {
        var u :| r.key == CatalogText(u, base.value);
        TextsTell(cfg, u, base.value, url, id);
      }
    }
  }

  lemma CatalogRowThere(cfg: Config, base: Option<nat>, d0: nat, n: nat, a: nat, st: Store, url: string, c: nat)
    requires NoMore(cfg, base, d0, n, a, st) && KeyIn(st.frontier, CatalogText(url, c)) && Above(base, c)
    ensures HasCatalogRow(cfg, n, st.frontier, url, Level(st, base, d0, c) + 1, c)
  {
    hide CatalogText, ArtifactText, HarvestText, Level;
    var i :| 0 <= i < |st.frontier| && st.frontier[i].key == CatalogText(url, c);
    var r := st.frontier[i];
    if i >= n {
      ForeignTells(cfg, base, st, r, url, c);
      assert Asked(cfg, base, d0, st, r);
      if c': nat :| AskedByPointer(cfg, base, d0, st, r, c') {
        TextsTell(cfg, url, c, r.url, c');
      } else if id: nat :| AskedByArtifact(cfg, base, st, r, id) {
        TextsTell(cfg, url, c, r.url, id);
      } else {
        var row: nat :| AskedByRegistry(cfg, base, st, r, row);
        TextsTell(cfg, url, c, r.url, row);
      }
    }
  }

  lemma ArtifactRowThere(cfg: Config, base: Option<nat>, d0: nat, n: nat, a: nat, st: Store, url: string, id: nat)
    requires NoMore(cfg, base, d0, n, a, st) && KeyIn(st.frontier, ArtifactText(url, id))
    ensures HasArtifactRow(cfg, n, st.frontier, url, id)
  {
    hide CatalogText, ArtifactText, HarvestText, Level;
    var i :| 0 <= i < |st.frontier| && st.frontier[i].key == ArtifactText(url, id);
    var r := st.frontier[i];
    if i >= n {
      ForeignTells(cfg, base, st, r, url, id);
      assert Asked(cfg, base, d0, st, r);
      if c: nat :| AskedByPointer(cfg, base, d0, st, r, c) {
        TextsTell(cfg, r.url, c, url, id);
      } else if id': nat :| AskedByArtifact(cfg, base, st, r, id') {
        TextsTell(cfg, url, id, r.url, id');
      } else {
        var row: nat :| AskedByRegistry(cfg, base, st, r, row);
        TextsTell(cfg, url, id, r.url, row);
      }
    }
  }

  lemma HarvestRowThere(cfg: Config, base: Option<nat>, d0: nat, n: nat, a: nat, st: Store, url: string, row: nat)
    requires NoMore(cfg, base, d0, n, a, st) && KeyIn(st.frontier, HarvestText(url, row))
    requires row < |st.registries| && st.registries[row].entry < |st.entries| && st.registries[row].referral.None?
    ensures var entry := st.registries[row].entry;
      HasHarvestRow(cfg, n, st.frontier, url, 0, entry, st.entries[entry].catalog, row)
  {
    hide CatalogText, ArtifactText, HarvestText, Level;
    var i :| 0 <= i < |st.frontier| && st.frontier[i].key == HarvestText(url, row);
    var r := st.frontier[i];
    if i >= n {
      ForeignTells(cfg, base, st, r, url, row);
      assert Asked(cfg, base, d0, st, r);
      if c: nat :| AskedByPointer(cfg, base, d0, st, r, c) {
        TextsTell(cfg, r.url, c, url, row);
      } else if id: nat :| AskedByArtifact(cfg, base, st, r, id) {
        TextsTell(cfg, r.url, id, url, row);
      } else {
        var row': nat :| AskedByRegistry(cfg, base, st, r, row');
        TextsTell(cfg, url, row, r.url, row');
      }
    }
  }

  // -- Through the call -------------------------------------------------------------------------

  /** The catalogs this call may come to have no rows but their own. */
  predicate WholeAbove(st: Store, base: Option<nat>) {
    forall c :: 0 <= c < |st.catalogs| && Above(base, c) ==> |EntryIds(st.entries, c)| == |st.catalogs[c].doc.entries|
  }

  ghost predicate Standing(cfg: Config, base: Option<nat>, d0: nat, n: nat, a: nat, st: Store) {
    Going(cfg, base, d0, n, a, Job(st, [])) && WholeAbove(st, base)
  }

  lemma SaveKeepsWholeAbove(st: Store, base: Option<nat>, row: CatalogRow)
    requires StoreOk(st) && WholeAbove(st, base)
    ensures WholeAbove(SaveCatalog(st, row), base)
  {
    var rows := RowsFor(|st.catalogs|, row.doc.entries);
    EntryIdsSaved(st.entries, rows, |st.catalogs|);
    forall c | 0 <= c < |st.catalogs| ensures EntryIds(st.entries + rows, c) == EntryIds(st.entries, c) {
      EntryIdsKept(st.entries, rows, c);
    }
  }

  lemma {:induction false} DrainKeepsWholeAbove(cfg: Config, base: Option<nat>, d0: nat, n: nat, a: nat, job: Job)
    requires Going(cfg, base, d0, n, a, job) && WholeAbove(job.store, base)
    ensures WholeAbove(Drain(cfg, job), base)
    decreases Sum(job.stack, Weight())
  {
    if job.stack != [] {
      JobFalls(cfg, job);
      StepGoing(cfg, base, d0, n, a, job);
      var t := job.stack[0];
      if t.Save? {
        SaveKeepsWholeAbove(job.store, base, CatalogRow(t.domain, t.source, t.parent, t.doc));
      } else {
        OnlySaveTouchesCatalogs(cfg, job.store, t);
      }
      hide Going, StepTask;
      DrainKeepsWholeAbove(cfg, base, d0, n, a, Step(cfg, job));
    }
  }

  /** A part of the call run to its end. */
  lemma DrainStands(cfg: Config, base: Option<nat>, d0: nat, n: nat, a: nat, st: Store, stack: seq<Task>)
    requires Standing(cfg, base, d0, n, a, st) && forall k :: 0 <= k < |stack| ==> Placed(cfg, base, d0, st, stack[k])
    ensures Standing(cfg, base, d0, n, a, Drain(cfg, Job(st, stack))) && Grew(st, Drain(cfg, Job(st, stack)))
  {
    hide Drain, NoMore, Intact;
    DrainGoing(cfg, base, d0, n, a, Job(st, stack));
    DrainKeepsWholeAbove(cfg, base, d0, n, a, Job(st, stack));
    DrainGrows(cfg, Job(st, stack));
  }

  lemma FollowStands(cfg: Config, base: Option<nat>, d0: nat, n: nat, a: nat, st: Store, t: Task)
    requires Standing(cfg, base, d0, n, a, st) && t.Follow? && t.entries != [] && Placed(cfg, base, d0, st, t)
    ensures var (st', left) := FollowEntry(cfg, st, t.catalog, t.ids[0], t.entries[0], t.source, t.depth);
      && Standing(cfg, base, d0, n, a, st') && Grew(st, st')
      && forall k :: 0 <= k < |left| ==> Placed(cfg, base, d0, st', left[k])
  {
    FollowOneGoing(cfg, base, d0, n, a, st, t);
    FollowSameRows(cfg, st, t.catalog, t.ids[0], t.entries[0], t.source, t.depth);
    EntryGrows(cfg, st, t.catalog, t.ids[0], t.entries[0], t.source, t.depth);
    hide FollowEntry, NoMore, Intact, Placed;
  }

  /** The task that has one entry left to follow. */
  function One(c: nat, id: nat, e: Entry, source: string, depth: nat): Task { Follow(c, [id], [e], source, depth) }

  lemma RowsForKeys(cfg: Config, base: Option<nat>, d0: nat, n: nat, a: nat, st: Store, c: nat, id: nat, e: Entry, source: string)
    requires NoMore(cfg, base, d0, n, a, st) && Followed(cfg, st, c, id, e) && !Embedded(e)
    requires id < |st.entries| && st.entries[id].catalog == c && Above(base, c)
    ensures EntryLeft(cfg, n, st, c, id, e, source, Level(st, base, d0, c))
  {
    hide NoMore, Level, HasCatalogRow, HasArtifactRow, HasHarvestRow, CatalogText, ArtifactText, HarvestText;
    if e.kind.CatalogPointer? {
      if e.url != "" {
        CatalogRowThere(cfg, base, d0, n, a, st, e.url, c);
      }
    } else if e.kind.RegistryPointer? && e.url != "" && cfg.harvest {
      var row: nat :| Listed(st, row, e.url, id);
      HarvestRowThere(cfg, base, d0, n, a, st, e.url, row);
    } else if e.url != "" && cfg.fetchArtifacts {
      ArtifactRowThere(cfg, base, d0, n, a, st, e.url, id);
    }
  }

  lemma OneMeans(cfg: Config, base: Option<nat>, d0: nat, st: Store, c: nat, id: nat, e: Entry, source: string, depth: nat)
    requires Placed(cfg, base, d0, st, One(c, id, e, source, depth))
    ensures c < |st.catalogs| && Above(base, c) && depth == Level(st, base, d0, c) && id < |st.entries| && st.entries[id] == EntryRow(c, e, None)
  {
    var t := One(c, id, e, source, depth);
    assert t.ids[0] == id && t.entries[0] == e;
  }

  lemma UrlEntryLeaves(cfg: Config, base: Option<nat>, d0: nat, n: nat, a: nat, st: Store, c: nat, id: nat, e: Entry, source: string, depth: nat)
    requires Standing(cfg, base, d0, n, a, st) && Placed(cfg, base, d0, st, One(c, id, e, source, depth)) && !Embedded(e)
    ensures EntryLeft(cfg, n, EntryDrained(cfg, st, c, id, e, source, depth), c, id, e, source, depth)
  {
    var end := EntryDrained(cfg, st, c, id, e, source, depth);
    OneMeans(cfg, base, d0, st, c, id, e, source, depth);
    EntryStands(cfg, base, d0, n, a, st, c, id, e, source, depth);
    hide Level, Placed, NoMore, Intact, EntryDrained, EntryLeft;
    LevelStays(st, end, base, d0, c);
    EntryKeys(cfg, st, c, id, e, source, depth);
    RowsForKeys(cfg, base, d0, n, a, end, c, id, e, source);
  }

  lemma EntryKeys(cfg: Config, st: Store, c: nat, id: nat, e: Entry, source: string, depth: nat)
    ensures Followed(cfg, EntryDrained(cfg, st, c, id, e, source, depth), c, id, e)
  {
    hide CatalogItem, ArtifactItem, HarvestItem, EnsureItem, CatalogText, ArtifactText, HarvestText, KeyIn;
    if e.kind.CatalogPointer? && e.url != "" {
      CatalogItemKey(cfg, e.url, depth + 1, c);
      EnsureOutcome(st, CatalogItem(cfg, e.url, depth + 1, c), cfg.hostname);
    } else if Harvested(cfg, e) {
      var (registries, row) := GetOrAdd(st.registries, CatalogStore.RegistryRow.RegistryRow(id, e.url, None));
      var (st', enlist) := (st.(registries := registries), Enlist(row, e.url, id, c));
      HarvestItemKey(cfg, enlist);
      DrainStep(cfg, Job(st', [enlist]));
      var last := EnsureItem(st', HarvestItem(cfg, enlist), cfg.hostname);
      assert Step(cfg, Job(st', [enlist])) == Job(last, []);
      EnsureOutcome(st', HarvestItem(cfg, enlist), cfg.hostname);
      EnsureKeepsRegistries(st', HarvestItem(cfg, enlist), cfg.hostname);
      assert Listed(last, row, e.url, id);
    } else if Fetched(cfg, e) {
      ArtifactItemKey(cfg, e.url, id);
      EnsureOutcome(st, ArtifactItem(cfg, e.url, id), cfg.hostname);
    }
  }

  lemma EnsureKeepsRegistries(st: Store, item: Item, hostname: string -> string)
    ensures EnsureItem(st, item, hostname).registries == st.registries
  {
  }

  lemma {:induction false} EntryLeaves(cfg: Config, base: Option<nat>, d0: nat, n: nat, a: nat, st: Store, c: nat, id: nat, e: Entry,
                                       source: string, depth: nat)
    requires Standing(cfg, base, d0, n, a, st) && Placed(cfg, base, d0, st, One(c, id, e, source, depth))
    ensures EntryLeft(cfg, n, EntryDrained(cfg, st, c, id, e, source, depth), c, id, e, source, depth)
    decreases e, 0
  {
    if Embedded(e) {
      FollowStands(cfg, base, d0, n, a, st, One(c, id, e, source, depth));
      hide Standing, Placed, DocLeft;
      assert EntryDrained(cfg, st, c, id, e, source, depth)
          == Drain(cfg, Job(st, [Process(e.data.value, source + "#" + e.identifier, Some(c), depth + 1)]));
      ProcessPlaced(cfg, base, d0, st, e.data.value, source + "#" + e.identifier, Some(c), depth + 1);
      DocLeaves(cfg, base, d0, n, a, st, e.data.value, source + "#" + e.identifier, Some(c), depth + 1);
    } else {
      UrlEntryLeaves(cfg, base, d0, n, a, st, c, id, e, source, depth);
    }
  }

  lemma ProcessPlaced(cfg: Config, base: Option<nat>, d0: nat, st: Store, doc: Doc, source: string, parent: Option<nat>, depth: nat)
    requires Placed(cfg, base, d0, st, Process(doc, source, parent, depth))
    ensures PlacedUnder(base, d0, st, parent, depth)
  {
  }

  /** The entries from the i-th on, one after the other. */
  lemma {:induction false} FollowLeaves(cfg: Config, base: Option<nat>, d0: nat, n: nat, a: nat, st: Store, t: Task, i: nat)
    requires Standing(cfg, base, d0, n, a, st) && t.Follow? && Placed(cfg, base, d0, st, t)
    requires |t.ids| == |t.entries| && i <= |t.entries|
    ensures var end := DrainedFrom(cfg, st, t, i);
      && Grew(st, end)
      && forall k :: i <= k < |t.entries| ==> EntryLeft(cfg, n, end, t.catalog, t.ids[k], t.entries[k], t.source, t.depth)
    decreases t.entries, |t.entries| - i
  {
    hide EntryLeft, EntryDrained;
    if i < |t.entries| {
      var next := EntryDrained(cfg, st, t.catalog, t.ids[i], t.entries[i], t.source, t.depth);
      OnePlaced(cfg, base, d0, st, t, i);
      EntryLeaves(cfg, base, d0, n, a, st, t.catalog, t.ids[i], t.entries[i], t.source, t.depth);
      EntryStands(cfg, base, d0, n, a, st, t.catalog, t.ids[i], t.entries[i], t.source, t.depth);
      PlacedStays(cfg, base, d0, st, next, t);
      hide Standing, Placed;
      FollowLeaves(cfg, base, d0, n, a, next, t, i + 1);
      var end := DrainedFrom(cfg, st, t, i);
      assert end == DrainedFrom(cfg, next, t, i + 1);
      GrewOn(st, next, end);
      EntryLeftStays(cfg, n, next, end, t.catalog, t.ids[i], t.entries[i], t.source, t.depth);
    }
  }

  lemma OnePlaced(cfg: Config, base: Option<nat>, d0: nat, st: Store, t: Task, i: nat)
    requires t.Follow? && Placed(cfg, base, d0, st, t) && i < |t.entries|
    ensures |t.ids| == |t.entries| && Placed(cfg, base, d0, st, One(t.catalog, t.ids[i], t.entries[i], t.source, t.depth))
  {
  }

  lemma EntryStands(cfg: Config, base: Option<nat>, d0: nat, n: nat, a: nat, st: Store, c: nat, id: nat, e: Entry, source: string, depth: nat)
    requires Standing(cfg, base, d0, n, a, st) && Placed(cfg, base, d0, st, One(c, id, e, source, depth))
    ensures var end := EntryDrained(cfg, st, c, id, e, source, depth); Standing(cfg, base, d0, n, a, end) && Grew(st, end)
  {
    var (st', left) := FollowEntry(cfg, st, c, id, e, source, depth);
    FollowStands(cfg, base, d0, n, a, st, One(c, id, e, source, depth));
    hide Standing, Placed, FollowEntry;
    DrainStands(cfg, base, d0, n, a, st', left);
    GrewOn(st, st', EntryDrained(cfg, st, c, id, e, source, depth));
  }

  /** Process and Save, up to the entries. */
  lemma SavePoint(cfg: Config, base: Option<nat>, d0: nat, n: nat, a: nat, st: Store, doc: Doc, source: string, parent: Option<nat>, depth: nat)
      returns (saved: Store, c: nat, ids: seq<nat>)
    requires Standing(cfg, base, d0, n, a, st) && PlacedUnder(base, d0, st, parent, depth)
    ensures Standing(cfg, base, d0, n, a, saved)
    ensures SavedAs(cfg, saved, doc, source, parent, c)
    ensures var follow := if depth < cfg.maxDepth then [Follow(c, ids, doc.entries, source, depth)] else [];
      && Drain(cfg, Job(st, [Process(doc, source, parent, depth)])) == Drain(cfg, Job(saved, follow))
      && (depth < cfg.maxDepth ==> Placed(cfg, base, d0, saved, Follow(c, ids, doc.entries, source, depth)))
  {
    var process := Process(doc, source, parent, depth);
    var begun := st.(domains := GetOrAdd(st.domains, cfg.host).0);
    var save := Save(doc, GetOrAdd(st.domains, cfg.host).1, source, parent, depth);
    StepOne(cfg, st, process);
    assert StepTask(cfg, st, process) == (begun, [save]);
    OneTaskStands(cfg, base, d0, n, a, st, process);
    var left;
    saved, left := StepTask(cfg, begun, save).0, StepTask(cfg, begun, save).1;
    StepOne(cfg, begun, save);
    OneTaskStands(cfg, base, d0, n, a, begun, save);
    c, ids := SavedWhere(cfg, base, begun, save);
    hide Standing, Placed, Drain, Latest;
  }

  lemma StepOne(cfg: Config, st: Store, t: Task)
    ensures var (st', left) := StepTask(cfg, st, t); Drain(cfg, Job(st, [t])) == Drain(cfg, Job(st', left))
  {
    var (st', left) := StepTask(cfg, st, t);
    DrainStep(cfg, Job(st, [t]));
    assert left + [t][1..] == left;
  }

  lemma OneTaskStands(cfg: Config, base: Option<nat>, d0: nat, n: nat, a: nat, st: Store, t: Task)
    requires Standing(cfg, base, d0, n, a, st) && Placed(cfg, base, d0, st, t)
    ensures var (st', left) := StepTask(cfg, st, t);
      Standing(cfg, base, d0, n, a, st') && forall k :: 0 <= k < |left| ==> Placed(cfg, base, d0, st', left[k])
  {
    TaskGoing(cfg, base, d0, n, a, st, t);
    TaskGrows(cfg, st, t);
    if t.Save? {
      SaveKeepsWholeAbove(st, base, CatalogRow(t.domain, t.source, t.parent, t.doc));
    } else {
      OnlySaveTouchesCatalogs(cfg, st, t);
    }
    hide StepTask, Placed, Intact, NoMore;
  }

  /** The catalog a Save ends up with, and the entry rows that are followed. */
  lemma SavedWhere(cfg: Config, base: Option<nat>, st: Store, t: Task) returns (c: nat, ids: seq<nat>)
    requires t.Save? && StoreOk(st) && WholeAbove(st, base) && t.domain < |st.domains| && st.domains[t.domain] == cfg.host
    requires (t.parent.Some? ==> t.parent.value < |st.catalogs|) && (t.parent == base || (t.parent.Some? && Above(base, t.parent.value)))
    ensures var (st', left) := StepTask(cfg, st, t);
      && c < |st'.catalogs| && st'.catalogs[c].doc == t.doc && st'.catalogs[c].source == t.source && st'.catalogs[c].parent == t.parent
      && st'.catalogs[c].domain < |st'.domains| && st'.domains[st'.catalogs[c].domain] == cfg.host
      && left == if t.depth < cfg.maxDepth then [Follow(c, ids, t.doc.entries, t.source, t.depth)] else []
  {
    var prior := Latest(st.catalogs, t.domain, t.source, t.parent);
    if prior.Some? && st.catalogs[prior.value].doc == t.doc {
      c := prior.value;
      ids := EntryIds(st.entries, c);
      assert Above(base, c);
    } else {
      c, ids := |st.catalogs|, Block(|st.entries|, |t.doc.entries|);
    }
  }

  predicate SavedAs(cfg: Config, st: Store, doc: Doc, source: string, parent: Option<nat>, c: nat) {
    && c < |st.catalogs| && st.catalogs[c].doc == doc && st.catalogs[c].source == source && st.catalogs[c].parent == parent
    && st.catalogs[c].domain < |st.domains| && st.domains[st.catalogs[c].domain] == cfg.host
  }

  lemma LeftHere(cfg: Config, n: nat, saved: Store, end: Store, doc: Doc, source: string, parent: Option<nat>, depth: nat,
                 c: nat, ids: seq<nat>)
    requires Grew(saved, end) && SavedAs(cfg, saved, doc, source, parent, c)
    requires depth < cfg.maxDepth ==>
      && |ids| == |doc.entries|
      && (forall k :: 0 <= k < |doc.entries| ==> ids[k] < |saved.entries| && saved.entries[ids[k]] == EntryRow(c, doc.entries[k], None))
      && forall k :: 0 <= k < |doc.entries| ==> EntryLeft(cfg, n, end, c, ids[k], doc.entries[k], source, depth)
    ensures DocLeft(cfg, n, end, doc, source, parent, depth)
  {
    hide EntryLeft;
    assert DocLeftAt(cfg, n, end, doc, source, parent, depth, c, ids);
  }

  lemma {:induction false} DocLeaves(cfg: Config, base: Option<nat>, d0: nat, n: nat, a: nat, st: Store, doc: Doc, source: string,
                                     parent: Option<nat>, depth: nat)
    requires Standing(cfg, base, d0, n, a, st) && PlacedUnder(base, d0, st, parent, depth)
    ensures DocLeft(cfg, n, Drain(cfg, Job(st, [Process(doc, source, parent, depth)])), doc, source, parent, depth)
    decreases doc, 0
  {
    hide *;
    var saved, c, ids := SavePoint(cfg, base, d0, n, a, st, doc, source, parent, depth);
    var end := Drain(cfg, Job(st, [Process(doc, source, parent, depth)]));
    if depth < cfg.maxDepth {
      var t := Follow(c, ids, doc.entries, source, depth);
      FollowIds(cfg, base, d0, saved, t);
      FollowDrains(cfg, saved, t, 0);
      FollowLeaves(cfg, base, d0, n, a, saved, t, 0);
    } else {
      DrainedAlready(cfg, saved);
    }
    LeftHere(cfg, n, saved, end, doc, source, parent, depth, c, ids);
  }

  lemma FollowIds(cfg: Config, base: Option<nat>, d0: nat, st: Store, t: Task)
    requires t.Follow? && Placed(cfg, base, d0, st, t)
    ensures |t.ids| == |t.entries|
    ensures forall k :: 0 <= k < |t.entries| ==> t.ids[k] < |st.entries| && st.entries[t.ids[k]] == EntryRow(t.catalog, t.entries[k], None)
  {
  }

  lemma DrainedAlready(cfg: Config, st: Store)
    ensures Drain(cfg, Job(st, [])) == st && Grew(st, st)
  {
  }

  /** The stores a call may meet: ids point at rows that are there, and its own catalogs have no rows but their own. */
  ghost predicate Ready(st: Store, parent: Option<nat>) {
    Intact(st) && WholeAbove(st, parent) && (parent.Some? ==> parent.value < |st.catalogs|)
  }

  /** From st the call has come to end: every followed entry has its row, nothing else is new, and another call may follow. */
  ghost predicate LeftBy(cfg: Config, st: Store, end: Store, doc: Doc, source: string, parent: Option<nat>, depth: nat) {
    && Ready(end, parent) && st.frontier <= end.frontier
    && DocLeft(cfg, |st.frontier|, end, doc, source, parent, depth)
    && forall i :: |st.frontier| <= i < |end.frontier| ==> Asked(cfg, parent, depth, end, end.frontier[i])
  }

  /**
   What processCatalog leaves. The document and everything embedded in it is saved,
   each entry below the depth limit has the row its kind and the configuration ask
   for, new rows have exactly the columns shown, and no other row is new.
   */
  lemma CallLeaves(cfg: Config, st: Store, doc: Doc, source: string, parent: Option<nat>, depth: nat)
    requires Ready(st, parent)
    ensures LeftBy(cfg, st, Drain(cfg, Job(st, [Process(doc, source, parent, depth)])), doc, source, parent, depth)
  {
    var process := Process(doc, source, parent, depth);
    assert Placed(cfg, parent, depth, st, process);
    hide Drain, DocLeft, Intact, Asked;
    DocLeaves(cfg, parent, depth, |st.frontier|, |st.frontier|, st, doc, source, parent, depth);
    DrainStands(cfg, parent, depth, |st.frontier|, |st.frontier|, st, [process]);
  }
}
