/**
 What handleRegistryHarvest leaves, row by row and column by column: the results as
 entry rows, and for each pointer among them and each referral its follow-up rows,
 and no frontier row besides.
 */
module HarvestRows {
  import opened Basics
  import opened FrontierTable
  import opened CatalogStore
  import opened CatalogRecovery
  import opened CatalogCompleteness
  import opened ItemRows
  import opened CatalogRows
  import opened CatalogWork

  /** The harvest, and where its results begin among the entry rows. */
  datatype Visit = Visit(cfg: Config, h: Harvest, url: string, answer: Answer, maxReferral: nat, first: nat)

  // -- No further row ----------------------------------------------------------------------

  /** A result or a referral names this registry. */
  ghost predicate Names(v: Visit, g: CatalogStore.RegistryRow) {
    && g.referral == v.h.row && g.baseUrl != ""
    && ((v.cfg.harvest && NamedByResult(v, g.entry, g.baseUrl))
        || (v.h.depth + 1 <= v.maxReferral && g.entry == v.h.entry && g.baseUrl in v.answer.referrals))
  }

  /** The result saved as this entry row is a registry with this URL. */
  predicate NamedByResult(v: Visit, entry: nat, url: string) {
    && v.first <= entry < v.first + |v.answer.results|
    && var e := v.answer.results[entry - v.first];
       e.kind.RegistryPointer? && e.url == url
  }

  ghost predicate ForReference(v: Visit, st: Store, r: Row, row: nat) {
    && row < |st.registries| && Names(v, st.registries[row])
    && IsHarvestRow(v.cfg, r, st.registries[row].baseUrl, v.h.depth + 1, st.registries[row].entry, v.h.catalog, row)
  }

  ghost predicate ForResult(v: Visit, r: Row) {
    && IsCatalogRow(v.cfg, r, r.url, 0, v.h.catalog)
    && exists k :: 0 <= k < |v.answer.results| && v.answer.results[k].kind.CatalogPointer? && v.answer.results[k].url == r.url != ""
  }

  /** The row of a pointer among the results, of a referral, or of an entry of a catalog embedded in a result. */
  ghost predicate Wanted(v: Visit, st: Store, r: Row) {
    ForResult(v, r) || (exists row: nat :: ForReference(v, st, r, row)) || Asked(v.cfg, Some(v.h.catalog), 0, st, r)
  }

  /** A harvest in progress; whole tells whether catalogs of embedded results have no rows but their own. */
  ghost predicate Visiting(v: Visit, n: nat, whole: bool, st: Store) {
    && Intact(st) && v.h.catalog < |st.catalogs| && v.h.row.Some? && n <= |st.frontier|
    && (whole ==> WholeAbove(st, Some(v.h.catalog)))
    && forall i :: n <= i < |st.frontier| ==> Wanted(v, st, st.frontier[i])
  }

  lemma WantedStays(v: Visit, st: Store, st': Store, r: Row)
    requires Grew(st, st') && Wanted(v, st, r)
    ensures Wanted(v, st', r)
  {
    hide IsHarvestRow, IsCatalogRow, Asked, Names;
    if row: nat :| ForReference(v, st, r, row) {
      assert ForReference(v, st', r, row);
    } else if Asked(v.cfg, Some(v.h.catalog), 0, st, r) {
      AskedStays(v.cfg, Some(v.h.catalog), 0, st, st', r);
    }
  }

  /** Wanted rows of the harvest itself are foreign to the catalogs embedded in its results. */
  lemma WantedIsForeign(v: Visit, st: Store, r: Row)
    requires Wanted(v, st, r) && v.h.row.Some?
    ensures Asked(v.cfg, Some(v.h.catalog), 0, st, r) || Foreign(Some(v.h.catalog), st, r)
  {
    if ForResult(v, r) {
      assert r.key == CatalogText(r.url, v.h.catalog);
    } else if row: nat :| ForReference(v, st, r, row) {
      hide HarvestText;
      assert OfReferral(st, r, st.registries[row].baseUrl, row);
    }
  }

  // -- One step ------------------------------------------------------------------------------

  lemma VisitEnsures(v: Visit, n: nat, whole: bool, st: Store, item: Item)
    requires Visiting(v, n, whole, st) && Wanted(v, st, NewRow(item, v.cfg.hostname))
    ensures Visiting(v, n, whole, EnsureItem(st, item, v.cfg.hostname)) && Grew(st, EnsureItem(st, item, v.cfg.hostname))
  {
    var st' := EnsureItem(st, item, v.cfg.hostname);
    EnsureOutcome(st, item, v.cfg.hostname);
    EnsureGrows(st, item, v.cfg.hostname);
    EnsureSameRows(st, item, v.cfg.hostname);
    SameRowsIntact(st, st');
    hide EnsureItem, Wanted, NewRow, Intact;
    forall i | n <= i < |st'.frontier| ensures Wanted(v, st', st'.frontier[i]) {
      WantedStays(v, st, st', st'.frontier[i]);
    }
  }

  lemma EnsureSameRows(st: Store, item: Item, hostname: string -> string)
    ensures var st' := EnsureItem(st, item, hostname);
      st'.catalogs == st.catalogs && st'.entries == st.entries && st'.registries == st.registries
  {
  }

  lemma VisitLists(v: Visit, n: nat, whole: bool, st: Store, wanted: CatalogStore.RegistryRow)
    requires Visiting(v, n, whole, st)
    ensures var (registries, row) := GetOrAdd(st.registries, wanted);
      && Visiting(v, n, whole, st.(registries := registries)) && Grew(st, st.(registries := registries))
      && row < |registries| && registries[row] == wanted
  {
    var st' := st.(registries := GetOrAdd(st.registries, wanted).0);
    SameRowsIntact(st, st');
    hide Wanted, Intact;
    forall i | n <= i < |st'.frontier| ensures Wanted(v, st', st'.frontier[i]) {
      WantedStays(v, st, st', st'.frontier[i]);
    }
  }

  predicate ReferenceKey(v: Visit, st: Store, url: string, entry: nat, row: nat) {
    && row < |st.registries| && st.registries[row] == CatalogStore.RegistryRow.RegistryRow(entry, url, v.h.row)
    && KeyIn(st.frontier, HarvestText(url, row))
  }

  /** The registry row a reference gets or finds, and the store with it. */
  function ListedIn(v: Visit, st: Store, url: string, entry: nat): (Store, nat) {
    var (registries, row) := GetOrAdd(st.registries, CatalogStore.RegistryRow.RegistryRow(entry, url, v.h.row));
    (st.(registries := registries), row)
  }

  function Reference(v: Visit, url: string, entry: nat, row: nat): Item {
    var prov := NoProv.(registryEntry := Some(entry), registryCatalog := Some(v.h.catalog), registryRow := Some(row));
    DedupKey.BuildItem(RegistryHarvest, url, v.cfg.host, v.h.depth + 1, prov, v.cfg.runId)
  }

  lemma ReferIs(v: Visit, st: Store, url: string, entry: nat)
    ensures var (st1, row) := ListedIn(v, st, url, entry);
      Refer(v.cfg, st, v.h, url, entry) == EnsureItem(st1, Reference(v, url, entry, row), v.cfg.hostname)
  {
  }

  lemma ReferenceAsks(v: Visit, st: Store, url: string, entry: nat, row: nat)
    requires row < |st.registries| && st.registries[row] == CatalogStore.RegistryRow.RegistryRow(entry, url, v.h.row)
    requires Names(v, st.registries[row])
    ensures Reference(v, url, entry, row).key == HarvestText(url, row)
    ensures Wanted(v, st, NewRow(Reference(v, url, entry, row), v.cfg.hostname))
  {
    HarvestItemRow(v.cfg, url, v.h.depth + 1, entry, v.h.catalog, row);
    hide Names, DedupKey.Key;
    assert ForReference(v, st, NewRow(Reference(v, url, entry, row), v.cfg.hostname), row);
  }

  lemma VisitRefers(v: Visit, n: nat, whole: bool, st: Store, url: string, entry: nat) returns (row: nat)
    requires Visiting(v, n, whole, st) && Names(v, CatalogStore.RegistryRow.RegistryRow(entry, url, v.h.row))
    ensures var st' := Refer(v.cfg, st, v.h, url, entry);
      Visiting(v, n, whole, st') && Grew(st, st') && ReferenceKey(v, st', url, entry, row)
  {
    row := ListedIn(v, st, url, entry).1;
    var st1, item := ListedIn(v, st, url, entry).0, Reference(v, url, entry, row);
    VisitLists(v, n, whole, st, CatalogStore.RegistryRow.RegistryRow(entry, url, v.h.row));
    hide Visiting, EnsureItem, Reference, HarvestText, Refer, Names, Wanted;
    ReferIs(v, st, url, entry);
    ReferenceAsks(v, st1, url, entry, row);
    VisitEnsures(v, n, whole, st1, item);
    EnsureSameRows(st1, item, v.cfg.hostname);
    EnsureOutcome(st1, item, v.cfg.hostname);
    GrewOn(st, st1, EnsureItem(st1, item, v.cfg.hostname));
  }

  lemma VisitPoints(v: Visit, n: nat, whole: bool, st: Store, k: nat)
    requires Visiting(v, n, whole, st) && k < |v.answer.results|
    requires v.answer.results[k].kind.CatalogPointer? && v.answer.results[k].url != ""
    ensures var url := v.answer.results[k].url; var st' := EnsureItem(st, CatalogItem(v.cfg, url, 0, v.h.catalog), v.cfg.hostname);
      Visiting(v, n, whole, st') && Grew(st, st') && KeyIn(st'.frontier, CatalogText(url, v.h.catalog))
  {
    var url := v.answer.results[k].url;
    var item := CatalogItem(v.cfg, url, 0, v.h.catalog);
    CatalogItemRow(v.cfg, url, 0, v.h.catalog);
    assert ForResult(v, NewRow(item, v.cfg.hostname));
    CatalogItemKey(v.cfg, url, 0, v.h.catalog);
    hide *;
    VisitEnsures(v, n, whole, st, item);
    EnsureOutcome(st, item, v.cfg.hostname);
  }

  lemma VisitEmbeds(v: Visit, n: nat, whole: bool, st: Store, doc: Doc, source: string)
    requires Visiting(v, n, whole, st)
    ensures var st' := Drain(v.cfg, Job(st, [Process(doc, source, Some(v.h.catalog), 0)]));
      && Visiting(v, n, whole, st') && Grew(st, st')
      && (whole ==> DocLeft(v.cfg, n, st', doc, source, Some(v.h.catalog), 0))
  {
    var base, a := Some(v.h.catalog), |st.frontier|;
    var process := Process(doc, source, base, 0);
    var st' := Drain(v.cfg, Job(st, [process]));
    assert Going(v.cfg, base, 0, n, a, Job(st, [process])) by {
      forall i | n <= i < |st.frontier| ensures Asked(v.cfg, base, 0, st, st.frontier[i]) || Foreign(base, st, st.frontier[i]) {
        WantedIsForeign(v, st, st.frontier[i]);
      }
    }
    DrainGoing(v.cfg, base, 0, n, a, Job(st, [process]));
    DrainGrows(v.cfg, Job(st, [process]));
    if whole {
      DrainKeepsWholeAbove(v.cfg, base, 0, n, a, Job(st, [process]));
      DocLeaves(v.cfg, base, 0, n, a, st, doc, source, base, 0);
    }
    hide Drain, Intact, DocLeft, Asked, Foreign;
    forall i | n <= i < |st'.frontier| ensures Wanted(v, st', st'.frontier[i]) {
      if i < a {
        assert st'.frontier[i] == st.frontier[i];
        WantedStays(v, st, st', st.frontier[i]);
      }
    }
  }

  // -- No row missing ------------------------------------------------------------------------

  lemma ResultRowThere(v: Visit, n: nat, whole: bool, st: Store, url: string)
    requires Visiting(v, n, whole, st) && KeyIn(st.frontier, CatalogText(url, v.h.catalog))
    ensures HasCatalogRow(v.cfg, n, st.frontier, url, 0, v.h.catalog)
  {
    hide CatalogText, ArtifactText, HarvestText, Level, Intact;
    var i :| 0 <= i < |st.frontier| && st.frontier[i].key == CatalogText(url, v.h.catalog);
    var r := st.frontier[i];
    if i >= n {
      assert Wanted(v, st, r);
      if ForResult(v, r) {
        TextsTell(v.cfg, url, v.h.catalog, r.url, v.h.catalog);
      } else if row: nat :| ForReference(v, st, r, row) {
        TextsTell(v.cfg, url, v.h.catalog, st.registries[row].baseUrl, row);
      } else {
        OwnOfCalls(v, st, r, url, v.h.catalog);
      }
    }
  }

  /** What catalogs embedded in results ask for has other keys than the harvest's own rows. */
  lemma OwnOfCalls(v: Visit, st: Store, r: Row, url: string, id: nat)
    requires Asked(v.cfg, Some(v.h.catalog), 0, st, r)
    ensures r.key == CatalogText(url, id) ==> id != v.h.catalog
    ensures r.key == HarvestText(url, id) ==> id < |st.registries| && st.registries[id].referral.None?
  {
    hide CatalogText, ArtifactText, HarvestText, Level;
    if c: nat :| AskedByPointer(v.cfg, Some(v.h.catalog), 0, st, r, c) {
      TextsTell(v.cfg, r.url, c, url, id);
    } else if entry: nat :| AskedByArtifact(v.cfg, Some(v.h.catalog), st, r, entry) {
      TextsTell(v.cfg, url, id, r.url, entry);
      TextsTell(v.cfg, r.url, entry, url, id);
    } else {
      var row: nat :| AskedByRegistry(v.cfg, Some(v.h.catalog), st, r, row);
      TextsTell(v.cfg, r.url, row, url, id);
      TextsTell(v.cfg, url, id, r.url, row);
    }
  }

  lemma ReferenceRowThere(v: Visit, n: nat, whole: bool, st: Store, url: string, entry: nat, row: nat)
    requires Visiting(v, n, whole, st) && ReferenceKey(v, st, url, entry, row)
    ensures HasRegistry(v.cfg, n, st, url, v.h.depth + 1, entry, v.h.catalog, v.h.row)
  {
    hide CatalogText, ArtifactText, HarvestText, Intact, Asked;
    var i :| 0 <= i < |st.frontier| && st.frontier[i].key == HarvestText(url, row);
    var r := st.frontier[i];
    if i >= n {
      assert Wanted(v, st, r);
      if ForResult(v, r) {
        TextsTell(v.cfg, r.url, v.h.catalog, url, row);
      } else if row': nat :| ForReference(v, st, r, row') {
        TextsTell(v.cfg, url, row, st.registries[row'].baseUrl, row');
      } else {
        OwnOfCalls(v, st, r, url, row);
      }
    }
    assert HasHarvestRow(v.cfg, n, st.frontier, url, v.h.depth + 1, entry, v.h.catalog, row);
  }

  /** What result k leaves, saved as entry row first + k. */
  ghost predicate ResultLeft(v: Visit, n: nat, whole: bool, st: Store, k: nat)
    requires k < |v.answer.results|
  {
    var e := v.answer.results[k];
    && (e.kind.CatalogPointer? && e.url != "" ==> HasCatalogRow(v.cfg, n, st.frontier, e.url, 0, v.h.catalog))
    && (e.kind.RegistryPointer? && e.url != "" && v.cfg.harvest ==>
          HasRegistry(v.cfg, n, st, e.url, v.h.depth + 1, v.first + k, v.h.catalog, v.h.row))
    && (whole && e.kind.CatalogPointer? && e.url == "" && e.data.Some? ==>
          DocLeft(v.cfg, n, st, e.data.value, v.url + "#" + e.identifier, Some(v.h.catalog), 0))
  }

  ghost predicate ReferralLeft(v: Visit, n: nat, st: Store, k: nat)
    requires k < |v.answer.referrals|
  {
    v.answer.referrals[k] != "" && v.h.depth + 1 <= v.maxReferral ==>
      HasRegistry(v.cfg, n, st, v.answer.referrals[k], v.h.depth + 1, v.h.entry, v.h.catalog, v.h.row)
  }

  lemma ResultStays(v: Visit, n: nat, whole: bool, st: Store, st': Store, k: nat)
    requires k < |v.answer.results| && Grew(st, st') && ResultLeft(v, n, whole, st, k)
    ensures ResultLeft(v, n, whole, st', k)
  {
    hide HasCatalogRow, HasRegistry, DocLeft;
    var e := v.answer.results[k];
    RowsStay(v.cfg, n, st, st', e.url, 0, v.h.catalog, 0, None);
    RowsStay(v.cfg, n, st, st', e.url, v.h.depth + 1, v.first + k, v.h.catalog, v.h.row);
    if whole && Embedded(e) {
      DocLeftStays(v.cfg, n, st, st', e.data.value, v.url + "#" + e.identifier, Some(v.h.catalog), 0);
    }
  }

  lemma ReferralStays(v: Visit, n: nat, st: Store, st': Store, k: nat)
    requires k < |v.answer.referrals| && Grew(st, st') && ReferralLeft(v, n, st, k)
    ensures ReferralLeft(v, n, st', k)
  {
    hide HasRegistry;
    RowsStay(v.cfg, n, st, st', v.answer.referrals[k], v.h.depth + 1, v.h.entry, v.h.catalog, v.h.row);
  }

  lemma PointerLeaves(v: Visit, n: nat, whole: bool, st: Store, k: nat)
    requires Visiting(v, n, whole, st) && k < |v.answer.results|
    requires v.answer.results[k].kind.CatalogPointer? && v.answer.results[k].url != ""
    ensures var st' := EnsureItem(st, CatalogItem(v.cfg, v.answer.results[k].url, 0, v.h.catalog), v.cfg.hostname);
      Visiting(v, n, whole, st') && Grew(st, st') && ResultLeft(v, n, whole, st', k)
  {
    var url := v.answer.results[k].url;
    var st' := EnsureItem(st, CatalogItem(v.cfg, url, 0, v.h.catalog), v.cfg.hostname);
    hide Visiting, HasCatalogRow, EnsureItem, CatalogItem;
    VisitPoints(v, n, whole, st, k);
    ResultRowThere(v, n, whole, st', url);
  }

  lemma RegistryLeaves(v: Visit, n: nat, whole: bool, st: Store, k: nat)
    requires Visiting(v, n, whole, st) && k < |v.answer.results|
    requires v.answer.results[k].kind.RegistryPointer? && v.answer.results[k].url != "" && v.cfg.harvest
    ensures var st' := Refer(v.cfg, st, v.h, v.answer.results[k].url, v.first + k);
      Visiting(v, n, whole, st') && Grew(st, st') && ResultLeft(v, n, whole, st', k)
  {
    hide *;
    var url := v.answer.results[k].url;
    ResultNames(v, k);
    ReferLeaves(v, n, whole, st, url, v.first + k);
    RegistryLeft(v, n, whole, Refer(v.cfg, st, v.h, url, v.first + k), k);
  }

  /** A registry one refers to. */
  lemma ReferLeaves(v: Visit, n: nat, whole: bool, st: Store, url: string, entry: nat)
    requires Visiting(v, n, whole, st) && Names(v, CatalogStore.RegistryRow.RegistryRow(entry, url, v.h.row))
    ensures var st' := Refer(v.cfg, st, v.h, url, entry);
      Visiting(v, n, whole, st') && Grew(st, st') && HasRegistry(v.cfg, n, st', url, v.h.depth + 1, entry, v.h.catalog, v.h.row)
  {
    hide *;
    var row := VisitRefers(v, n, whole, st, url, entry);
    ReferenceRowThere(v, n, whole, Refer(v.cfg, st, v.h, url, entry), url, entry, row);
  }

  lemma ResultNames(v: Visit, k: nat)
    requires k < |v.answer.results|
    requires v.answer.results[k].kind.RegistryPointer? && v.answer.results[k].url != "" && v.cfg.harvest
    ensures Names(v, CatalogStore.RegistryRow.RegistryRow(v.first + k, v.answer.results[k].url, v.h.row))
  {
  }

  lemma RegistryLeft(v: Visit, n: nat, whole: bool, st: Store, k: nat)
    requires k < |v.answer.results| && v.answer.results[k].kind.RegistryPointer?
    requires HasRegistry(v.cfg, n, st, v.answer.results[k].url, v.h.depth + 1, v.first + k, v.h.catalog, v.h.row)
    ensures ResultLeft(v, n, whole, st, k)
  {
    hide HasRegistry;
  }

  /** Following result k. */
  lemma ResultLeaves(v: Visit, n: nat, whole: bool, st: Store, k: nat)
    requires Visiting(v, n, whole, st) && k < |v.answer.results|
    ensures var st' := FollowResult(v.cfg, st, v.h, v.url, v.answer.results[k], v.first + k);
      Visiting(v, n, whole, st') && Grew(st, st') && ResultLeft(v, n, whole, st', k)
  {
    var e := v.answer.results[k];
    if e.kind.CatalogPointer? && e.url != "" {
      hide Visiting, ResultLeft, EnsureItem, CatalogItem;
      PointerLeaves(v, n, whole, st, k);
    } else if Embedded(e) {
      hide Visiting, DocLeft, Drain;
      VisitEmbeds(v, n, whole, st, e.data.value, v.url + "#" + e.identifier);
    } else if e.kind.RegistryPointer? && e.url != "" && v.cfg.harvest {
      hide Visiting, ResultLeft, Refer;
      RegistryLeaves(v, n, whole, st, k);
    } else {
      hide Visiting;
    }
  }

  lemma {:induction false} ResultsLeave(v: Visit, n: nat, whole: bool, st: Store, m: nat)
    requires Visiting(v, n, whole, st) && m <= |v.answer.results|
    ensures var st' := Fold(ResultStep(v.cfg, v.h, v.url, v.answer.results, v.first), st, m);
      Visiting(v, n, whole, st') && Grew(st, st') && forall k :: 0 <= k < m ==> ResultLeft(v, n, whole, st', k)
  {
    hide Visiting, ResultLeft, FollowResult;
    if m > 0 {
      var f := ResultStep(v.cfg, v.h, v.url, v.answer.results, v.first);
      var before := Fold(f, st, m - 1);
      ResultsLeave(v, n, whole, st, m - 1);
      var after := f(before, m - 1);
      ResultLeaves(v, n, whole, before, m - 1);
      GrewOn(st, before, after);
      forall k | 0 <= k < m - 1 ensures ResultLeft(v, n, whole, after, k) {
        ResultStays(v, n, whole, before, after, k);
      }
    }
  }

  lemma ReferralLeaves(v: Visit, n: nat, whole: bool, st: Store, k: nat)
    requires Visiting(v, n, whole, st) && k < |v.answer.referrals|
    ensures var st' := ReferralStep(v.cfg, v.h, v.maxReferral, v.answer.referrals)(st, k);
      Visiting(v, n, whole, st') && Grew(st, st') && ReferralLeft(v, n, st', k)
  {
    hide Visiting, HasRegistry, Refer;
    var url := v.answer.referrals[k];
    if url != "" && v.h.depth + 1 <= v.maxReferral {
      ReferLeaves(v, n, whole, st, url, v.h.entry);
    }
  }

  lemma {:induction false} ReferralsLeave(v: Visit, n: nat, whole: bool, st: Store, m: nat)
    requires Visiting(v, n, whole, st) && m <= |v.answer.referrals|
    ensures var st' := Fold(ReferralStep(v.cfg, v.h, v.maxReferral, v.answer.referrals), st, m);
      Visiting(v, n, whole, st') && Grew(st, st') && forall k :: 0 <= k < m ==> ReferralLeft(v, n, st', k)
  {
    hide Visiting, ReferralLeft, Refer;
    if m > 0 {
      var f := ReferralStep(v.cfg, v.h, v.maxReferral, v.answer.referrals);
      var before := Fold(f, st, m - 1);
      ReferralsLeave(v, n, whole, st, m - 1);
      var after := f(before, m - 1);
      ReferralLeaves(v, n, whole, before, m - 1);
      GrewOn(st, before, after);
      forall k | 0 <= k < m - 1 ensures ReferralLeft(v, n, after, k) {
        ReferralStays(v, n, before, after, k);
      }
    }
  }

  // -- The whole harvest -------------------------------------------------------------------------

  lemma AttachKeepsIntact(st: Store, h: Harvest, results: seq<Entry>)
    requires Intact(st) && h.row.Some? && h.catalog < |st.catalogs|
    ensures Intact(Attach(st, h, results))
    ensures forall c :: 0 <= c < |st.catalogs| && c != h.catalog ==> EntryIds(Attach(st, h, results).entries, c) == EntryIds(st.entries, c)
  {
    var st', more := Attach(st, h, results), HarvestedRows(h.catalog, h.row.value, results);
    forall c | 0 <= c < |st.catalogs| ensures OwnRows(st', c) && (c != h.catalog ==> EntryIds(st'.entries, c) == EntryIds(st.entries, c)) {
      assert OwnRows(st, c);
      if c == h.catalog {
        AttachedBehind(st.entries, more, c);
      } else {
        EntryIdsKept(st.entries, more, c);
      }
    }
  }

  lemma {:induction false} AttachedBehind(entries: seq<EntryRow>, more: seq<EntryRow>, catalog: nat)
    ensures EntryIds(entries, catalog) <= EntryIds(entries + more, catalog)
  {
    if more == [] {
      assert entries + more == entries;
    } else {
      var m := |more| - 1;
      assert (entries + more)[..|entries| + m] == entries + more[..m];
      AttachedBehind(entries, more[..m], catalog);
    }
  }

  /**
   What a harvest within the referral limit and with provenance leaves. Result i is
   entry row |entries before| + i of the declaring catalog; every pointer among the
   results and every referral within the limit has its rows, new ones with exactly
   the columns shown; and no other frontier row is new.
   */
  ghost predicate HarvestLeft(v: Visit, st: Store, end: Store) {
    var (n, row) := (|st.frontier|, v.h.row);
    && Intact(end) && st.frontier <= end.frontier
    && |st.entries| + |v.answer.results| <= |end.entries|
    && (forall k :: 0 <= k < |v.answer.results| ==> end.entries[|st.entries| + k] == EntryRow(v.h.catalog, v.answer.results[k], row))
    && (forall k :: 0 <= k < |v.answer.results| ==> ResultLeft(v, n, WholeAbove(st, Some(v.h.catalog)), end, k))
    && (forall k :: 0 <= k < |v.answer.referrals| ==> ReferralLeft(v, n, end, k))
    && forall i :: n <= i < |end.frontier| ==> Wanted(v, end, end.frontier[i])
  }

  lemma AttachVisits(v: Visit, st: Store, whole: bool)
    requires Intact(st) && v.h.catalog < |st.catalogs| && v.h.row.Some? && (whole ==> WholeAbove(st, Some(v.h.catalog)))
    ensures var saved := Attach(st, v.h, v.answer.results);
      && Visiting(v, |st.frontier|, whole, saved) && saved.frontier == st.frontier
      && |saved.entries| == |st.entries| + |v.answer.results|
      && forall k :: 0 <= k < |v.answer.results| ==> saved.entries[|st.entries| + k] == EntryRow(v.h.catalog, v.answer.results[k], v.h.row)
  {
    AttachKeepsIntact(st, v.h, v.answer.results);
    hide Intact, Wanted;
  }

  lemma OutcomeIs(v: Visit, st: Store)
    requires v.h.depth <= v.maxReferral && v.h.row.Some? && v.first == |st.entries|
    ensures var followed := Fold(ResultStep(v.cfg, v.h, v.url, v.answer.results, v.first), Attach(st, v.h, v.answer.results), |v.answer.results|);
      HarvestOutcome(v.cfg, st, v.h, v.url, v.maxReferral, v.answer)
      == Fold(ReferralStep(v.cfg, v.h, v.maxReferral, v.answer.referrals), followed, |v.answer.referrals|)
  {
  }

  lemma VisitingWanted(v: Visit, n: nat, whole: bool, st: Store)
    requires Visiting(v, n, whole, st)
    ensures Intact(st) && forall i :: n <= i < |st.frontier| ==> Wanted(v, st, st.frontier[i])
  {
  }

  lemma HarvestLeaves(v: Visit, st: Store)
    requires Intact(st) && v.h.catalog < |st.catalogs| && v.first == |st.entries|
    requires v.h.depth <= v.maxReferral && v.h.row.Some?
    ensures HarvestLeft(v, st, HarvestOutcome(v.cfg, st, v.h, v.url, v.maxReferral, v.answer))
  {
    hide Attach, Fold, HarvestOutcome, Visiting, ResultLeft, ReferralLeft, Intact, Wanted, WholeAbove;
    var (n, whole) := (|st.frontier|, WholeAbove(st, Some(v.h.catalog)));
    var saved := Attach(st, v.h, v.answer.results);
    AttachVisits(v, st, whole);
    var followed := Fold(ResultStep(v.cfg, v.h, v.url, v.answer.results, v.first), saved, |v.answer.results|);
    var end := Fold(ReferralStep(v.cfg, v.h, v.maxReferral, v.answer.referrals), followed, |v.answer.referrals|);
    ResultsLeave(v, n, whole, saved, |v.answer.results|);
    ReferralsLeave(v, n, whole, followed, |v.answer.referrals|);
    GrewOn(saved, followed, end);
    forall k | 0 <= k < |v.answer.results| ensures ResultLeft(v, n, whole, end, k) {
      ResultStays(v, n, whole, followed, end, k);
    }
    VisitingWanted(v, n, whole, end);
    OutcomeIs(v, st);
  }
}
