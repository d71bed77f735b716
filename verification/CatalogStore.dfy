/**
 The rows internal/store/store.go keeps for catalogs, and the statements
 processCatalog runs against them. Ids are positions: nothing is deleted.
 Each function is one transaction, hence atomic.
 */
module CatalogStore {
  import opened Basics
  import opened FrontierTable
  import opened EnqueueRaces

  /**
   A catalog document. raw is its bytes; parsing is a function of them and the
   content hash is injective, so equal hashes are equal documents. Bytes that do
   not parse are a document without entries.
   */
  datatype Doc = Doc(raw: string, entries: seq<Entry>)

  datatype EntryKind = CatalogPointer | RegistryPointer | Other

  /** data is None for an absent or null data field. */
  datatype Entry = Entry(identifier: string, kind: EntryKind, url: string, data: Option<Doc>)

  datatype CatalogRow = CatalogRow(domain: nat, source: string, parent: Option<nat>, doc: Doc)

  /** registry is the registry row an entry was harvested from, None for a catalog's own entry. */
  datatype EntryRow = EntryRow(catalog: nat, entry: Entry, registry: Option<nat>)

  datatype RegistryRow = RegistryRow(entry: nat, baseUrl: string, referral: Option<nat>)

  datatype Store = Store(domains: seq<string>, catalogs: seq<CatalogRow>, entries: seq<EntryRow>,
                         registries: seq<RegistryRow>, frontier: Table)

  // -- UpsertDomain ----------------------------------------------------------------

  /** The first position of x, or |s|. */
  function IndexOf<T(==)>(s: seq<T>, x: T): (i: nat)
    ensures i <= |s|
    ensures i < |s| ==> s[i] == x
    ensures forall j :: 0 <= j < i ==> s[j] != x
  {
    if s == [] || s[0] == x then 0 else IndexOf(s[1..], x) + 1
  }

  lemma {:induction false} IndexOfStable<T>(s: seq<T>, t: seq<T>, x: T)
    requires s <= t && IndexOf(s, x) < |s|
    ensures IndexOf(t, x) == IndexOf(s, x)
  {
    if s[0] != x {
      assert s[1..] <= t[1..];
      IndexOfStable(s[1..], t[1..], x);
    }
  }

  lemma {:induction false} IndexOfAppended<T>(s: seq<T>, x: T)
    ensures IndexOf(s, x) == |s| ==> IndexOf(s + [x], x) == |s|
  {
    if s != [] && s[0] != x {
      assert (s + [x])[1..] == s[1..] + [x];
      IndexOfAppended(s[1..], x);
    }
  }

  /** x's row, inserted if it is not there yet. */
  function GetOrAdd<T(==)>(s: seq<T>, x: T): (seq<T>, nat) {
    var i := IndexOf(s, x);
    if i < |s| then (s, i) else (s + [x], |s|)
  }

  /** Once added, a row is found at the same id for ever. */
  lemma GetOrAddStable<T>(s: seq<T>, t: seq<T>, x: T)
    requires GetOrAdd(s, x).0 <= t
    ensures GetOrAdd(t, x) == (t, GetOrAdd(s, x).1)
  {
    IndexOfAppended(s, x);
    IndexOfStable(GetOrAdd(s, x).0, t, x);
  }

  // -- Catalogs ----------------------------------------------------------------------

  predicate Identifies(r: CatalogRow, domain: nat, source: string, parent: Option<nat>) {
    r.domain == domain && r.source == source && r.parent == parent
  }

  /** LatestCatalogBySourceAndParent: fetched_at grows with every save, so the last row is the latest. */
  function Latest(catalogs: seq<CatalogRow>, domain: nat, source: string, parent: Option<nat>): (r: Option<nat>)
    ensures r.Some? ==> r.value < |catalogs| && Identifies(catalogs[r.value], domain, source, parent)
    ensures forall i :: 0 <= i < |catalogs| && Identifies(catalogs[i], domain, source, parent) ==> r.Some? && i <= r.value
  {
    if catalogs == [] then None
    else
      var n := |catalogs| - 1;
      if Identifies(catalogs[n], domain, source, parent) then Some(n) else Latest(catalogs[..n], domain, source, parent)
  }

  /** The entry ids of a catalog, in id order. */
  function EntryIds(entries: seq<EntryRow>, catalog: nat): (ids: seq<nat>)
    ensures forall k :: 0 <= k < |ids| ==> ids[k] < |entries| && entries[ids[k]].catalog == catalog
  {
    if entries == [] then []
    else
      var n := |entries| - 1;
      EntryIds(entries[..n], catalog) + if entries[n].catalog == catalog then [n] else []
  }

  /** Appending rows of other catalogs changes nothing. */
  lemma {:induction false} EntryIdsKept(entries: seq<EntryRow>, more: seq<EntryRow>, catalog: nat)
    requires forall k :: 0 <= k < |more| ==> more[k].catalog != catalog
    ensures EntryIds(entries + more, catalog) == EntryIds(entries, catalog)
  {
    if more == [] {
      assert entries + more == entries;
    } else {
      var m := |more| - 1;
      assert (entries + more)[..|entries| + m] == entries + more[..m];
      EntryIdsKept(entries, more[..m], catalog);
    }
  }

  function Block(start: nat, n: nat): seq<nat> {
    seq(n, i requires 0 <= i < n => start + i)
  }

  /** The rows just saved for a new catalog are its entries. */
  lemma {:induction false} EntryIdsSaved(entries: seq<EntryRow>, more: seq<EntryRow>, catalog: nat)
    requires forall k :: 0 <= k < |entries| ==> entries[k].catalog != catalog
    requires forall k :: 0 <= k < |more| ==> more[k].catalog == catalog
    ensures EntryIds(entries + more, catalog) == Block(|entries|, |more|)
  {
    if more == [] {
      assert entries + more == entries;
      EntryIdsKept([], entries, catalog);
      assert [] + entries == entries;
    } else {
      var m := |more| - 1;
      assert (entries + more)[..|entries| + m] == entries + more[..m];
      EntryIdsSaved(entries, more[..m], catalog);
    }
  }

  function RowsFor(catalog: nat, entries: seq<Entry>): (rows: seq<EntryRow>)
    ensures |rows| == |entries|
    ensures forall i :: 0 <= i < |entries| ==> rows[i] == EntryRow(catalog, entries[i], None)
  {
    seq(|entries|, i requires 0 <= i < |entries| => EntryRow(catalog, entries[i], None))
  }

  /** SaveCatalog: the catalog and all its entries in one transaction. */
  function SaveCatalog(st: Store, row: CatalogRow): Store {
    st.(catalogs := st.catalogs + [row],
        entries := st.entries + RowsFor(|st.catalogs|, row.doc.entries))
  }

  // -- The frontier --------------------------------------------------------------------

  /** Ensure, undisturbed: the row with the item's key, inserted if it is not there yet. */
  function EnsureRow(t: Table, item: Item, hostname: string -> string): Table {
    if FindKey(t, item.key).Some? then t else t + [NewRow(item, hostname)]
  }

  lemma EnsureRowIsEnsure(t: Table, item: Item, hostname: string -> string)
    ensures Enqueue(t, EnsureCall(item), hostname).0 == EnsureRow(t, item, hostname)
  {
    EnqueueOutcome(t, EnsureCall(item), hostname);
  }

  function EnsureItem(st: Store, item: Item, hostname: string -> string): Store {
    st.(frontier := EnsureRow(st.frontier, item, hostname))
  }

  lemma EnsureOutcome(st: Store, item: Item, hostname: string -> string)
    ensures EnsureItem(st, item, hostname).frontier ==
      if KeyIn(st.frontier, item.key) then st.frontier else st.frontier + [NewRow(item, hostname)]
    ensures KeyIn(EnsureItem(st, item, hostname).frontier, item.key)
  {
    var u := EnsureItem(st, item, hostname).frontier;
    assert !KeyIn(st.frontier, item.key) ==> u[|st.frontier|].key == item.key;
  }

  /** Tables that only grew. */
  ghost predicate Grew(st: Store, st': Store) {
    && st.domains <= st'.domains
    && st.catalogs <= st'.catalogs
    && st.entries <= st'.entries
    && st.registries <= st'.registries
    && st.frontier <= st'.frontier
  }

  /** Grown, with rows of the frontier leased, finished or revived in place. */
  ghost predicate Widened(st: Store, st': Store) {
    && st.domains <= st'.domains
    && st.catalogs <= st'.catalogs
    && st.entries <= st'.entries
    && st.registries <= st'.registries
    && KeysKept(st.frontier, st'.frontier)
  }

  lemma GrewOn(a: Store, b: Store, c: Store)
    requires Grew(a, b) && Grew(b, c)
    ensures Grew(a, c)
  {
  }

  lemma EnsureGrows(st: Store, item: Item, hostname: string -> string)
    ensures Grew(st, EnsureItem(st, item, hostname))
  {
    EnsureOutcome(st, item, hostname);
  }

  lemma GrewBothWays(st: Store, st': Store)
    requires Grew(st, st') && Grew(st', st)
    ensures st == st'
  {
  }

  lemma EnsureStable(st: Store, st': Store, item: Item, hostname: string -> string)
    requires Widened(EnsureItem(st, item, hostname), st')
    ensures EnsureItem(st', item, hostname) == st'
  {
    EnsureOutcome(st, item, hostname);
    EnsureOutcome(st', item, hostname);
    var u := EnsureItem(st, item, hostname).frontier;
    var i :| 0 <= i < |u| && u[i].key == item.key;
    assert st'.frontier[i].key == item.key;
  }
}
