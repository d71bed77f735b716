/** processCatalog and its helpers as internal/crawler/handlers.go writes them, over one store. */
module CatalogProcessor {
  import opened Basics
  import opened FrontierTable
  import opened CatalogStore
  import opened CatalogRecovery
  import opened CatalogCompleteness
  import opened CatalogRows

  class CatalogProcessor {
    const cfg: Config
    var store: Store

    constructor (cfg: Config, store: Store)
      ensures this.cfg == cfg && this.store == store
    {
      this.cfg := cfg;
      this.store := store;
    }

    method UpsertDomain() returns (domain: nat)
      modifies this
      ensures (store.domains, domain) == GetOrAdd(old(store.domains), cfg.host)
      ensures store == old(store).(domains := store.domains)
    {
      domain := IndexOf(store.domains, cfg.host);
      if domain == |store.domains| {
        store := store.(domains := store.domains + [cfg.host]);
      }
    }

    method SaveRegistry(entry: nat, url: string, referral: Option<nat>) returns (row: nat)
      modifies this
      ensures (store.registries, row) == GetOrAdd(old(store.registries), RegistryRow.RegistryRow(entry, url, referral))
      ensures store == old(store).(registries := store.registries)
    {
      var wanted := RegistryRow.RegistryRow(entry, url, referral);
      row := IndexOf(store.registries, wanted);
      if row == |store.registries| {
        store := store.(registries := store.registries + [wanted]);
      }
    }

    method Ensure(item: Item)
      modifies this
      ensures store == EnsureItem(old(store), item, cfg.hostname)
    {
      store := EnsureItem(store, item, cfg.hostname);
    }

    method ProcessCatalog(doc: Doc, source: string, parent: Option<nat>, depth: nat)
      modifies this
      ensures store == Drain(cfg, Job(old(store), [Process(doc, source, parent, depth)]))
      ensures Ready(old(store), parent) ==> LeftBy(cfg, old(store), store, doc, source, parent, depth)
      decreases doc
    {
      hide Ready, LeftBy;
      if Ready(store, parent) {
        CallLeaves(cfg, store, doc, source, parent, depth);
      }
      ghost var begin := Job(store, [Process(doc, source, parent, depth)]);
      var domain := UpsertDomain();
      ghost var save := Job(store, [Save(doc, domain, source, parent, depth)]);
      assert Step(cfg, begin) == save;
      DrainStep(cfg, begin);
      DrainStep(cfg, save);
      var prior := Latest(store.catalogs, domain, source, parent);
      if prior.Some? && store.catalogs[prior.value].doc == doc {
        if depth < cfg.maxDepth {
          var ids := EntryIds(store.entries, prior.value);
          if |ids| != |doc.entries| {
            assert Step(cfg, save) == Job(store, []);
            return;
          }
          assert Step(cfg, save) == Job(store, [Follow(prior.value, ids, doc.entries, source, depth)]);
          EnqueueEntryFollowups(prior.value, ids, doc.entries, source, depth);
        }
        return;
      }
      var catalog := |store.catalogs|;
      var ids := Block(|store.entries|, |doc.entries|);
      store := SaveCatalog(store, CatalogRow(domain, source, parent, doc));
      if depth >= cfg.maxDepth {
        assert Step(cfg, save) == Job(store, []);
        return;
      }
      assert Step(cfg, save) == Job(store, [Follow(catalog, ids, doc.entries, source, depth)]);
      EnqueueEntryFollowups(catalog, ids, doc.entries, source, depth);
    }

    method EnqueueEntryFollowups(catalog: nat, ids: seq<nat>, entries: seq<Entry>, source: string, depth: nat)
      requires |ids| == |entries|
      modifies this
      ensures store == Drain(cfg, Job(old(store), [Follow(catalog, ids, entries, source, depth)]))
      decreases entries
    {
      ghost var whole := Follow(catalog, ids, entries, source, depth);
      FollowDrains(cfg, store, whole, 0);
      var i := 0;
      while i < |entries|
        invariant 0 <= i <= |entries|
        invariant DrainedFrom(cfg, store, whole, i) == DrainedFrom(cfg, old(store), whole, 0)
      {
        EntryFollowup(catalog, ids[i], entries[i], source, depth);
        i := i + 1;
      }
    }

    /** The body of the loop: one entry. */
    method EntryFollowup(catalog: nat, id: nat, e: Entry, source: string, depth: nat)
      modifies this
      ensures store == EntryDrained(cfg, old(store), catalog, id, e, source, depth)
      decreases e
    {
      if e.kind.CatalogPointer? {
        FollowCatalogPointer(catalog, id, e, source, depth);
      } else if e.kind.RegistryPointer? && e.url != "" && cfg.harvest {
        FollowRegistryPointer(catalog, id, e, source, depth);
      } else if e.url != "" && cfg.fetchArtifacts {
        Ensure(ArtifactItem(cfg, e.url, id));
      }
    }

    method FollowCatalogPointer(catalog: nat, id: nat, e: Entry, source: string, depth: nat)
      requires e.kind.CatalogPointer?
      modifies this
      ensures store == EntryDrained(cfg, old(store), catalog, id, e, source, depth)
      decreases e, 0
    {
      if e.url != "" {
        Ensure(CatalogItem(cfg, e.url, depth + 1, catalog));
      } else if e.data.Some? {
        ProcessCatalog(e.data.value, source + "#" + e.identifier, Some(catalog), depth + 1);
      }
    }

    method FollowRegistryPointer(catalog: nat, id: nat, e: Entry, source: string, depth: nat)
      requires Harvested(cfg, e)
      modifies this
      ensures store == EntryDrained(cfg, old(store), catalog, id, e, source, depth)
    {
      var row := SaveRegistry(id, e.url, None);
      ghost var listed := Job(store, [Enlist(row, e.url, id, catalog)]);
      Ensure(HarvestItem(cfg, Enlist(row, e.url, id, catalog)));
      assert Step(cfg, listed) == Job(store, []);
      DrainStep(cfg, listed);
    }
  }
}
