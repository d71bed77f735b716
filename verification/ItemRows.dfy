/** The frontier rows that catalogs and registries ask for, with every column and key spelled out. */
module ItemRows {
  import opened Basics
  import opened FrontierTable
  import opened DedupKey
  import opened CatalogRecovery

  /** A row nobody has leased yet. */
  predicate Untried(r: Row) {
    && r.priority == 0 && r.status == Pending && r.attempts == 0 && r.lastError == "" && r.lease == None && r.worker == ""
  }

  function CatalogText(url: string, parent: nat): string {
    "catalog_fetch:" + url + [Nul] + "parent_catalog:" + Decimal(parent)
  }

  function ArtifactText(url: string, entry: nat): string {
    "artifact_fetch:" + url + [Nul] + "artifact_entry:" + Decimal(entry)
  }

  function HarvestText(url: string, row: nat): string {
    "registry_harvest:" + url + [Nul] + "registry_row:" + Decimal(row)
  }

  predicate IsCatalogRow(cfg: Config, r: Row, url: string, depth: nat, parent: nat) {
    && Untried(r) && r.kind == CatalogFetch && r.url == url && r.host == cfg.host && r.depth == depth && r.runId == cfg.runId
    && r.prov == Provenance(Some(parent), None, None, None, None, "")
    && r.key == CatalogText(url, parent)
  }

  predicate IsArtifactRow(cfg: Config, r: Row, url: string, entry: nat) {
    && Untried(r) && r.kind == ArtifactFetch && r.url == url && r.host == cfg.host && r.depth == 0 && r.runId == cfg.runId
    && r.prov == Provenance(None, Some(entry), None, None, None, "")
    && r.key == ArtifactText(url, entry)
  }

  predicate IsHarvestRow(cfg: Config, r: Row, url: string, depth: nat, entry: nat, catalog: nat, row: nat) {
    && Untried(r) && r.kind == RegistryHarvest && r.url == url && r.host == cfg.host && r.depth == depth && r.runId == cfg.runId
    && r.prov == Provenance(None, None, Some(entry), Some(catalog), Some(row), "")
    && r.key == HarvestText(url, row)
  }

  /** The text of a key that names a relation. */
  lemma KeyText(k: Kind, url: string, host: string, p: Provenance, tag: string, id: nat)
    requires !k.HostProbe? && Suffix(RelationOf(k, p)) == [Nul] + tag + Decimal(id)
    ensures Key(k, url, host, p) == KindName(k) + ":" + url + [Nul] + tag + Decimal(id)
  {
    hide Suffix, Decimal, KindName, RelationOf;
    assert KindName(k) + ":" + url + ([Nul] + tag + Decimal(id)) == KindName(k) + ":" + url + [Nul] + tag + Decimal(id);
  }

  lemma CatalogItemRow(cfg: Config, url: string, depth: nat, parent: nat)
    ensures IsCatalogRow(cfg, NewRow(CatalogItem(cfg, url, depth, parent), cfg.hostname), url, depth, parent)
  {
    KeyText(CatalogFetch, url, cfg.host, NoProv.(parentCatalog := Some(parent)), "parent_catalog:", parent);
    assert KindName(CatalogFetch) + ":" == "catalog_fetch:";
    hide Key, Decimal, KindName;
  }

  lemma ArtifactItemRow(cfg: Config, url: string, entry: nat)
    ensures IsArtifactRow(cfg, NewRow(ArtifactItem(cfg, url, entry), cfg.hostname), url, entry)
  {
    KeyText(ArtifactFetch, url, cfg.host, NoProv.(artifactEntry := Some(entry)), "artifact_entry:", entry);
    assert KindName(ArtifactFetch) + ":" == "artifact_fetch:";
    hide Key, Decimal, KindName;
  }

  /** The row of a harvest item at any depth. */
  lemma HarvestItemRow(cfg: Config, url: string, depth: nat, entry: nat, catalog: nat, row: nat)
    ensures var p := NoProv.(registryEntry := Some(entry), registryCatalog := Some(catalog), registryRow := Some(row));
      IsHarvestRow(cfg, NewRow(BuildItem(RegistryHarvest, url, cfg.host, depth, p, cfg.runId), cfg.hostname), url, depth, entry, catalog, row)
  {
    var p := NoProv.(registryEntry := Some(entry), registryCatalog := Some(catalog), registryRow := Some(row));
    KeyText(RegistryHarvest, url, cfg.host, p, "registry_row:", row);
    assert KindName(RegistryHarvest) + ":" == "registry_harvest:";
    hide Key, Decimal, KindName;
  }

  /** The texts tell kinds, URLs and ids apart. */
  lemma TextsTell(cfg: Config, url: string, a: nat, url': string, b: nat)
    ensures CatalogText(url, a) == CatalogText(url', b) ==> url == url' && a == b
    ensures ArtifactText(url, a) == ArtifactText(url', b) ==> url == url' && a == b
    ensures HarvestText(url, a) == HarvestText(url', b) ==> url == url' && a == b
    ensures CatalogText(url, a) != ArtifactText(url', b) && CatalogText(url, a) != HarvestText(url', b)
    ensures ArtifactText(url, a) != HarvestText(url', b)
  {
    CatalogItemRow(cfg, url, 0, a);
    CatalogItemRow(cfg, url', 0, b);
    ArtifactItemRow(cfg, url, a);
    ArtifactItemRow(cfg, url', b);
    HarvestItemRow(cfg, url, 0, 0, 0, a);
    HarvestItemRow(cfg, url', 0, 0, 0, b);
    var pa, pb := NoProv.(parentCatalog := Some(a)), NoProv.(parentCatalog := Some(b));
    var qa, qb := NoProv.(artifactEntry := Some(a)), NoProv.(artifactEntry := Some(b));
    var ra := NoProv.(registryEntry := Some(0), registryCatalog := Some(0), registryRow := Some(a));
    var rb := NoProv.(registryEntry := Some(0), registryCatalog := Some(0), registryRow := Some(b));
    KeyInjective(CatalogFetch, url, cfg.host, pa, CatalogFetch, url', cfg.host, pb);
    KeyInjective(ArtifactFetch, url, cfg.host, qa, ArtifactFetch, url', cfg.host, qb);
    KeyInjective(RegistryHarvest, url, cfg.host, ra, RegistryHarvest, url', cfg.host, rb);
    assert CatalogText(url, a)[0] == 'c' && ArtifactText(url, a)[0] == 'a';
    assert ArtifactText(url', b)[0] == 'a' && HarvestText(url', b)[0] == 'r';
  }

  lemma CatalogItemKey(cfg: Config, url: string, depth: nat, parent: nat)
    ensures CatalogItem(cfg, url, depth, parent).key == CatalogText(url, parent)
  {
    CatalogItemRow(cfg, url, depth, parent);
  }

  lemma ArtifactItemKey(cfg: Config, url: string, entry: nat)
    ensures ArtifactItem(cfg, url, entry).key == ArtifactText(url, entry)
  {
    ArtifactItemRow(cfg, url, entry);
  }

  lemma HarvestItemKey(cfg: Config, t: Task)
    requires t.Enlist?
    ensures HarvestItem(cfg, t).key == HarvestText(t.url, t.row)
  {
    HarvestItemRow(cfg, t.url, 0, t.entry, t.catalog, t.row);
  }
}
