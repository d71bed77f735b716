/** handleRegistryHarvest as internal/crawler/handlers.go writes it, over one store. */
module RegistryHarvester {
  import opened Basics
  import opened FrontierTable
  import opened DedupKey
  import opened CatalogStore
  import opened CatalogRecovery
  import opened CatalogRows
  import opened CatalogWork
  import opened HarvestRows

  class RegistryHarvester {
    const cfg: Config
    const maxReferral: nat
    var store: Store

    constructor (cfg: Config, maxReferral: nat, store: Store)
      ensures this.cfg == cfg && this.maxReferral == maxReferral && this.store == store
    {
      this.cfg := cfg;
      this.maxReferral := maxReferral;
      this.store := store;
    }

    method FollowRegistryPointer(h: Harvest, url: string, entry: nat)
      modifies this
      ensures store == Refer(cfg, old(store), h, url, entry)
    {
      var (registries, row) := GetOrAdd(store.registries, RegistryRow.RegistryRow(entry, url, h.row));
      store := store.(registries := registries);
      var prov := NoProv.(registryEntry := Some(entry), registryCatalog := Some(h.catalog), registryRow := Some(row));
      store := EnsureItem(store, BuildItem(RegistryHarvest, url, cfg.host, h.depth + 1, prov, cfg.runId), cfg.hostname);
    }

    /** One result: pointers are followed, ordinary results are saved only. */
    method FollowOne(h: Harvest, url: string, e: Entry, id: nat)
      modifies this
      ensures store == FollowResult(cfg, old(store), h, url, e, id)
    {
      if e.kind.CatalogPointer? {
        if e.url != "" {
          store := EnsureItem(store, CatalogItem(cfg, e.url, 0, h.catalog), cfg.hostname);
        } else if e.data.Some? {
          store := Drain(cfg, Job(store, [Process(e.data.value, url + "#" + e.identifier, Some(h.catalog), 0)]));
        }
      } else if e.kind.RegistryPointer? {
        if e.url == "" || !cfg.harvest {
          return;
        }
        FollowRegistryPointer(h, e.url, id);
      }
    }

    method FollowAt(h: Harvest, url: string, results: seq<Entry>, first: nat, i: nat)
      requires i < |results|
      modifies this
      ensures store == ResultStep(cfg, h, url, results, first)(old(store), i)
    {
      hide FollowResult;
      FollowOne(h, url, results[i], first + i);
    }

    method FollowAll(h: Harvest, url: string, results: seq<Entry>, first: nat)
      modifies this
      ensures store == Fold(ResultStep(cfg, h, url, results, first), old(store), |results|)
    {
      for i := 0 to |results|
        invariant store == Fold(ResultStep(cfg, h, url, results, first), old(store), i)
      {
        FollowAt(h, url, results, first, i);
      }
    }

    method ReferAll(h: Harvest, referrals: seq<string>)
      modifies this
      ensures store == Fold(ReferralStep(cfg, h, maxReferral, referrals), old(store), |referrals|)
    {
      for i := 0 to |referrals|
        invariant store == Fold(ReferralStep(cfg, h, maxReferral, referrals), old(store), i)
      {
        if referrals[i] == "" || h.depth + 1 > maxReferral {
          continue;
        }
        FollowRegistryPointer(h, referrals[i], h.entry);
      }
    }

    method HandleRegistryHarvest(h: Harvest, url: string, answer: Answer)
      modifies this
      ensures store == HarvestOutcome(cfg, old(store), h, url, maxReferral, answer)
      ensures h.depth > maxReferral || h.row.None? ==> store == old(store)
      ensures h.depth <= maxReferral && h.row.Some? && Intact(old(store)) && h.catalog < |old(store).catalogs| ==>
        HarvestLeft(Visit(cfg, h, url, answer, maxReferral, |old(store).entries|), old(store), store)
    {
      hide HarvestLeft, Intact, ResultStep, ReferralStep, Attach;
      if h.depth <= maxReferral && h.row.Some? && Intact(store) && h.catalog < |store.catalogs| {
        HarvestLeaves(Visit(cfg, h, url, answer, maxReferral, |store.entries|), store);
      }
      if h.depth > maxReferral || h.row.None? {
        return;
      }
      var first := |store.entries|;
      store := Attach(store, h, answer.results);
      FollowAll(h, url, answer.results, first);
      ReferAll(h, answer.referrals);
    }
  }
}
