/**
 How the crawl engine builds a frontier item and its dedup key. The key is the
 SHA-256 of "kind:natural"; the hash is taken to be injective, so the preimage
 stands for the key.
 */
module DedupKey {
  import opened Basics
  import opened FrontierTable

  const Nul: char := '\0'

  function KindName(k: Kind): string {
    match k
    case PageFetch => "page_fetch"
    case HostProbe => "host_probe"
    case CatalogFetch => "catalog_fetch"
    case ArtifactFetch => "artifact_fetch"
    case RegistryHarvest => "registry_harvest"
  }

  /** The relationship a key distinguishes beside the kind and the URL or host. */
  datatype Relation =
    | NoRelation
    | ParentCatalog(id: nat)
    | ArtifactEntry(id: nat)
    | RegistryRow(id: nat)
    | RegistryEntry(id: nat)

  function RelationOf(k: Kind, p: Provenance): Relation {
    match k
    case CatalogFetch => if p.parentCatalog.Some? then ParentCatalog(p.parentCatalog.value) else NoRelation
    case ArtifactFetch => if p.artifactEntry.Some? then ArtifactEntry(p.artifactEntry.value) else NoRelation
    case RegistryHarvest =>
      if p.registryRow.Some? then RegistryRow(p.registryRow.value)
      else if p.registryEntry.Some? then RegistryEntry(p.registryEntry.value)
      else NoRelation
    case _ => NoRelation
  }

  function Decimal(n: nat): (s: string)
    ensures s != ""
  {
    if n < 10 then [Digit(n)] else Decimal(n / 10) + [Digit(n % 10)]
  }

  function Digit(d: nat): char
    requires d < 10
  {
    ('0' as int + d) as char
  }

  function TagName(r: Relation): string {
    match r
    case NoRelation => ""
    case ParentCatalog(_) => "parent_catalog:"
    case ArtifactEntry(_) => "artifact_entry:"
    case RegistryRow(_) => "registry_row:"
    case RegistryEntry(_) => "registry_entry:"
  }

  function Suffix(r: Relation): string {
    if r.NoRelation? then "" else [Nul] + TagName(r) + Decimal(r.id)
  }

  function Natural(k: Kind, url: string, host: string): string {
    if k.HostProbe? then host else url
  }

  function Key(k: Kind, url: string, host: string, p: Provenance): string {
    KindName(k) + ":" + Natural(k, url, host) + Suffix(RelationOf(k, p))
  }

  function BuildItem(k: Kind, url: string, host: string, depth: nat, p: Provenance, runId: nat): Item {
    Item(k, url, host, depth, 0, Key(k, url, host, p), runId, p)
  }

  /** The dedup key starts with the kind. */
  predicate KeyOfKind(key: string, k: Kind) {
    KindName(k) + ":" <= key
  }

  lemma BuiltKeyOfKind(k: Kind, url: string, host: string, p: Provenance)
    ensures KeyOfKind(Key(k, url, host, p), k)
  {
    var head := KindName(k) + ":";
    var tail := Natural(k, url, host) + Suffix(RelationOf(k, p));
    assert Key(k, url, host, p) == head + tail;
  }

  lemma OneKindPerKey(key: string, a: Kind, b: Kind)
    requires KeyOfKind(key, a) && KeyOfKind(key, b)
    ensures a == b
  {
    assert key[0] == KindName(a)[0] == KindName(b)[0];
  }

  lemma DecimalShort(n: nat)
    ensures |Decimal(n)| == 1 <==> n < 10
  {
  }

  lemma {:induction false} DecimalInjective(a: nat, b: nat)
    requires Decimal(a) == Decimal(b)
    ensures a == b
  {
    var s := Decimal(a);
    DecimalShort(a);
    DecimalShort(b);
    assert s[|s| - 1] == Digit(a % 10) == Digit(b % 10);
    if a >= 10 {
      assert s[..|s| - 1] == Decimal(a / 10) == Decimal(b / 10);
      DecimalInjective(a / 10, b / 10);
    }
  }

  predicate NulFree(s: string) {
    forall i :: 0 <= i < |s| ==> s[i] != Nul
  }

  lemma {:induction false} DecimalNulFree(n: nat)
    ensures NulFree(Decimal(n))
  {
    if n >= 10 {
      DecimalNulFree(n / 10);
    }
  }

  lemma TagNameNulFree(r: Relation)
    ensures NulFree(TagName(r))
  {
    match r
    case NoRelation =>
    case ParentCatalog(_) => assert NulFree("parent_catalog:");
    case ArtifactEntry(_) => assert NulFree("artifact_entry:");
    case RegistryRow(_) => assert NulFree("registry_row:");
    case RegistryEntry(_) => assert NulFree("registry_entry:");
  }

  /** The NUL a suffix starts with is its only one. */
  lemma SuffixNul(r: Relation)
    requires !r.NoRelation?
    ensures Suffix(r) != "" && Suffix(r)[0] == Nul && NulFree(Suffix(r)[1..])
  {
    TagNameNulFree(r);
    DecimalNulFree(r.id);
    hide TagName, Decimal;
    BehindNul(TagName(r), Decimal(r.id));
  }

  lemma BehindNul(x: string, y: string)
    ensures var s := [Nul] + x + y; s[0] == Nul && s[1..] == x + y
  {
  }

  lemma CutHead(x: string, y: string, u: string, v: string)
    requires x + y == u + v && |x| == |u|
    ensures x == u && y == v
  {
    assert x == (x + y)[..|x|] && y == (x + y)[|x|..];
    assert u == (u + v)[..|u|] && v == (u + v)[|u|..];
  }

  lemma LongerHeadDiffers(a: string, s: string, b: string, t: string)
    requires |a| < |b| && s != "" && NulFree(s[1..]) && t != "" && t[0] == Nul
    ensures a + s != b + t
  {
    var k := |b| - |a|;
    assert (b + t)[|b|] == Nul;
    assert k < |s| ==> (a + s)[|b|] == s[k] == s[1..][k - 1];
  }

  /** The last NUL ends the URL or host, whatever NULs that holds itself. */
  lemma SplitAtLastNul(a: string, s: string, b: string, t: string)
    requires a + s == b + t && s != "" && t != ""
    requires s[0] == Nul && NulFree(s[1..]) && t[0] == Nul && NulFree(t[1..])
    ensures a == b && s == t
  {
    if |a| < |b| {
      LongerHeadDiffers(a, s, b, t);
    } else if |b| < |a| {
      LongerHeadDiffers(b, t, a, s);
    } else {
      CutHead(a, s, b, t);
    }
  }

  lemma SuffixInjective(a: Relation, b: Relation)
    requires Suffix(a) == Suffix(b)
    ensures a == b
  {
    if !a.NoRelation? && !b.NoRelation? {
      hide TagName, Decimal;
      BehindNul(TagName(a), Decimal(a.id));
      BehindNul(TagName(b), Decimal(b.id));
      SameTag(a, b);
      CutHead(TagName(a), Decimal(a.id), TagName(b), Decimal(b.id));
      DecimalInjective(a.id, b.id);
    }
  }

  lemma SameTag(a: Relation, b: Relation)
    requires !a.NoRelation? && !b.NoRelation? && TagName(a) + Decimal(a.id) == TagName(b) + Decimal(b.id)
    ensures TagName(a) == TagName(b) && (a.ParentCatalog? <==> b.ParentCatalog?) && (a.ArtifactEntry? <==> b.ArtifactEntry?)
      && (a.RegistryRow? <==> b.RegistryRow?)
  {
    var s := TagName(a) + Decimal(a.id);
    assert s[0] == TagName(a)[0] == TagName(b)[0];
    assert (a.RegistryRow? || a.RegistryEntry?) && (b.RegistryRow? || b.RegistryEntry?) ==> s[9] == TagName(a)[9] == TagName(b)[9];
  }

  /** One of them has a relation, and the other's URL or host ends in what looks like it. */
  predicate Imitates(a: string, r: Relation, b: string, q: Relation) {
    r.NoRelation? && !q.NoRelation? && a == b + Suffix(q)
  }

  lemma BodiesMeet(a: string, r: Relation, b: string, q: Relation)
    ensures a + Suffix(r) == b + Suffix(q) <==> (a == b && r == q) || Imitates(a, r, b, q) || Imitates(b, q, a, r)
  {
    assert a + "" == a && b + "" == b;
    if a + Suffix(r) == b + Suffix(q) && !r.NoRelation? && !q.NoRelation? {
      SuffixNul(r);
      SuffixNul(q);
      SplitAtLastNul(a, Suffix(r), b, Suffix(q));
      SuffixInjective(r, q);
    }
  }

  lemma SameKind(k: Kind, url: string, host: string, p: Provenance, k': Kind, url': string, host': string, p': Provenance)
    requires Key(k, url, host, p) == Key(k', url', host', p')
    ensures k == k'
  {
    BuiltKeyOfKind(k, url, host, p);
    BuiltKeyOfKind(k', url', host', p');
    OneKindPerKey(Key(k, url, host, p), k, k');
  }

  lemma KeyBody(k: Kind, url: string, host: string, p: Provenance)
    ensures Key(k, url, host, p)[|KindName(k)| + 1..] == Natural(k, url, host) + Suffix(RelationOf(k, p))
  {
    assert Key(k, url, host, p) == KindName(k) + ":" + (Natural(k, url, host) + Suffix(RelationOf(k, p)));
  }

  /**
   The exact condition, for all items: two items share a key if and only if they
   agree on kind, on URL (host for a host_probe) and on the relationship, or agree
   on kind while one without a relationship has a URL that imitates the other's.
   */
  lemma KeysMeetExactly(k: Kind, url: string, host: string, p: Provenance,
                        k': Kind, url': string, host': string, p': Provenance)
    ensures var (a, r, b, q) := (Natural(k, url, host), RelationOf(k, p), Natural(k', url', host'), RelationOf(k', p'));
      Key(k, url, host, p) == Key(k', url', host', p')
      <==> k == k' && ((a == b && r == q) || Imitates(a, r, b, q) || Imitates(b, q, a, r))
  {
    hide Natural, RelationOf, Imitates;
    KeyBody(k, url, host, p);
    KeyBody(k', url', host', p');
    BodiesMeet(Natural(k, url, host), RelationOf(k, p), Natural(k', url', host'), RelationOf(k', p'));
    if Key(k, url, host, p) == Key(k', url', host', p') {
      SameKind(k, url, host, p, k', url', host', p');
    }
    if k == k' {
      KeyFromBody(k, url, host, p);
      KeyFromBody(k', url', host', p');
    }
  }

  lemma KeyFromBody(k: Kind, url: string, host: string, p: Provenance)
    ensures Key(k, url, host, p) == KindName(k) + ":" + (Natural(k, url, host) + Suffix(RelationOf(k, p)))
  {
  }

  /** Without a relationship the URL or host has no NUL; one that came out of a URL parser never has. */
  predicate Clean(k: Kind, url: string, host: string, p: Provenance) {
    RelationOf(k, p).NoRelation? ==> NulFree(Natural(k, url, host))
  }

  /**
   Two items share a key exactly when they agree on kind, on URL (host for a
   host_probe) and on the relationship. URLs of related items may hold any character.
   */
  lemma KeyInjective(k: Kind, url: string, host: string, p: Provenance,
                     k': Kind, url': string, host': string, p': Provenance)
    requires Clean(k, url, host, p) && Clean(k', url', host', p')
    ensures Key(k, url, host, p) == Key(k', url', host', p')
       <==> k == k' && Natural(k, url, host) == Natural(k', url', host') && RelationOf(k, p) == RelationOf(k', p')
  {
    hide Natural, RelationOf, Key;
    KeysMeetExactly(k, url, host, p, k', url', host', p');
    var (a, r, b, q) := (Natural(k, url, host), RelationOf(k, p), Natural(k', url', host'), RelationOf(k', p'));
    NoImitation(a, r, b, q);
    NoImitation(b, q, a, r);
  }

  lemma NoImitation(a: string, r: Relation, b: string, q: Relation)
    requires r.NoRelation? ==> NulFree(a)
    ensures !Imitates(a, r, b, q)
  {
    if !q.NoRelation? {
      SuffixNul(q);
      assert (b + Suffix(q))[|b|] == Nul;
    }
  }

  /** What is left out: a catalog URL that ends in a NUL and a parent collides with the child of that parent. */
  lemma ImitatingUrlCollides(url: string, host: string, parent: nat)
    ensures var none := Provenance(None, None, None, None, None, "");
      var imitation := url + [Nul] + "parent_catalog:" + Decimal(parent);
      && Key(CatalogFetch, imitation, host, none) == Key(CatalogFetch, url, host, none.(parentCatalog := Some(parent)))
      && imitation != url && RelationOf(CatalogFetch, none) != RelationOf(CatalogFetch, none.(parentCatalog := Some(parent)))
  {
    var none := Provenance(None, None, None, None, None, "");
    var imitation := url + [Nul] + "parent_catalog:" + Decimal(parent);
    assert imitation == url + Suffix(ParentCatalog(parent)) by {
      assert Suffix(ParentCatalog(parent)) == [Nul] + "parent_catalog:" + Decimal(parent);
    }
    KeysMeetExactly(CatalogFetch, imitation, host, none, CatalogFetch, url, host, none.(parentCatalog := Some(parent)));
    assert |imitation| > |url|;
  }
}
