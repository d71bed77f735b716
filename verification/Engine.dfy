/** Engine.process, and the work handlePageFetch hands to the frontier. */
module Engine {
  import opened Basics
  import opened FrontierTable
  import opened DedupKey
  import BoundedWork
  import F = Frontier

  const DefaultMaxAttempts: int := 3

  /** What a handler came back with. */
  datatype HandlerResult = Handled | Errored(transient: bool, canceled: bool, message: string)

  /** How process ends an item: by its handler's result, and by whether the context is cancelled. */
  datatype Ending = Completed | Requeued | Recorded(transient: bool, message: string)

  function EndingOf(result: HandlerResult, cancelled: bool): Ending {
    if result.Handled? then Completed
    else if cancelled || result.canceled then Requeued
    else Recorded(result.transient, result.message)
  }

  /**
   What a handler's result makes of the row it was leased as, column by column: done,
   pending as before, or one attempt and error more and then failed for good if the
   error is permanent or the attempts are used up.
   */
  predicate Settled(leased: Row, result: HandlerResult, cancelled: bool, maxAttempts: int, r: Row) {
    if result.Handled? then
      r == leased.(status := Done, lease := None, worker := "")
    else if cancelled || result.canceled then
      r == leased.(status := Pending, lease := None, worker := "")
    else
      r == leased.(status := if !result.transient || leased.attempts + 1 >= maxAttempts then Failed else Pending,
                   attempts := leased.attempts + 1, lastError := result.message, lease := None, worker := "")
  }

  class Engine {
    const frontier: F.Frontier
    const maxAttempts: int

    constructor (frontier: F.Frontier, maxAttempts: int)
      ensures this.frontier == frontier
      ensures this.maxAttempts == if maxAttempts > 0 then maxAttempts else DefaultMaxAttempts
    {
      this.frontier := frontier;
      this.maxAttempts := if maxAttempts > 0 then maxAttempts else DefaultMaxAttempts;
    }

    /** Completes, requeues or fails one dequeued item; a lost lease is logged and dropped. */
    method Process(id: nat, result: HandlerResult, cancelled: bool)
      modifies frontier.db
      ensures var t, u := old(frontier.db.rows), frontier.db.rows;
        if id < |t| && t[id].status == InFlight && t[id].worker == frontier.workerId
        then |u| == |t| && Settled(t[id], result, cancelled, maxAttempts, u[id]) && forall i :: 0 <= i < |t| && i != id ==> u[i] == t[i]
        else u == t
    {
      if result.Handled? {
        var _ := frontier.Complete(id);
        return;
      }
      if cancelled || result.canceled {
        var _ := frontier.Requeue(id);
        return;
      }
      var max := 1;
      if result.transient {
        max := maxAttempts;
      }
      var _, _ := frontier.Fail(id, result.message, max);
    }
  }

  // -- handlePageFetch ----------------------------------------------------------------

  /** A link or hint with the host of its URL, None when it has none. */
  datatype Link = Link(url: string, host: Option<string>)

  /** What ExtractLinks found on a page. */
  datatype Page = Page(hosts: seq<string>, hints: seq<Link>, links: seq<Link>)

  const NoProvenance: Provenance := Provenance(None, None, None, None, None, "")

  function Probes(hosts: seq<string>, runId: nat): seq<Call> {
    if hosts == [] then []
    else Probes(hosts[..|hosts| - 1], runId)
         + [EnqueueCall(BuildItem(HostProbe, "", hosts[|hosts| - 1], 0, NoProvenance, runId))]
  }

  function Catalogs(hints: seq<Link>, runId: nat): seq<Call> {
    if hints == [] then []
    else
      var before, hint := Catalogs(hints[..|hints| - 1], runId), hints[|hints| - 1];
      if hint.host.None? then before
      else before + [EnqueueCall(BuildItem(CatalogFetch, hint.url, hint.host.value, 0,
                                           NoProvenance.(probeMethod := "link_tag"), runId))]
  }

  function Pages(links: seq<Link>, depth: nat, budget: int, runId: nat): seq<Call> {
    if links == [] then []
    else
      var before, link := Pages(links[..|links| - 1], depth, budget, runId), links[|links| - 1];
      if link.host.None? then before
      else before + [BudgetedCall(BuildItem(PageFetch, link.url, link.host.value, depth, NoProvenance, runId), budget)]
  }

  /** The enqueue calls a page makes, in order, apart from those of its inline catalogs. */
  function PageCalls(page: Page, depth: nat, maxDepth: nat, budget: int, runId: nat): seq<Call> {
    Probes(page.hosts, runId) + Catalogs(page.hints, runId)
    + if depth < maxDepth then Pages(page.links, depth + 1, budget, runId) else []
  }

  // -- What the calls are, in columns and in order ------------------------------------------

  /** An enqueue of this item under this budget that may revive done and failed rows. */
  predicate Asks(c: Call, kind: Kind, url: string, host: string, depth: nat, key: string, via: string, runId: nat) {
    && c.item.kind == kind && c.item.url == url && c.item.host == host && c.item.depth == depth
    && c.item.priority == 0 && c.item.key == key && c.item.runId == runId
    && c.item.prov == Provenance(None, None, None, None, None, via)
    && c.reDone && c.reFailed
  }

  /** How many of the first k links have a host. */
  function Hosted(links: seq<Link>, k: nat): (n: nat)
    requires k <= |links|
    ensures n <= k
  {
    if k == 0 then 0 else Hosted(links, k - 1) + if links[k - 1].host.Some? then 1 else 0
  }

  ghost predicate ProbesEach(calls: seq<Call>, hosts: seq<string>, runId: nat) {
    && |calls| == |hosts|
    && forall k :: 0 <= k < |hosts| ==>
         Asks(calls[k], HostProbe, "", hosts[k], 0, "host_probe:" + hosts[k], "", runId) && calls[k].budget == -1
  }

  /** One call per link with a host, in order, and each as it should be. */
  ghost predicate OnePerHost(calls: seq<Call>, links: seq<Link>, ok: (Link, Call) -> bool) {
    && |calls| == Hosted(links, |links|)
    && forall k :: 0 <= k < |links| && links[k].host.Some? ==>
         Hosted(links, k) < |calls| && ok(links[k], calls[Hosted(links, k)])
  }

  function FetchesHint(runId: nat): (Link, Call) -> bool {
    (hint: Link, c: Call) =>
      && hint.host.Some? && c.budget == -1
      && Asks(c, CatalogFetch, hint.url, hint.host.value, 0, "catalog_fetch:" + hint.url, "link_tag", runId)
  }

  function CrawlsLink(depth: nat, budget: int, runId: nat): (Link, Call) -> bool {
    (link: Link, c: Call) =>
      && link.host.Some? && c.budget == budget
      && Asks(c, PageFetch, link.url, link.host.value, depth, "page_fetch:" + link.url, "", runId)
  }

  lemma {:induction false} HostedPrefix(links: seq<Link>, n: nat, k: nat)
    requires k <= n <= |links|
    ensures Hosted(links[..n], k) == Hosted(links, k)
  {
    if k > 0 {
      HostedPrefix(links, n, k - 1);
    }
  }

  lemma OneMoreLink(calls: seq<Call>, links: seq<Link>, more: seq<Call>, ok: (Link, Call) -> bool)
    requires links != [] && OnePerHost(calls, links[..|links| - 1], ok)
    requires var last := links[|links| - 1];
      if last.host.None? then more == [] else |more| == 1 && ok(last, more[0])
    ensures OnePerHost(calls + more, links, ok)
  {
    var n := |links| - 1;
    HostedPrefix(links, n, n);
    forall k | 0 <= k < n && links[k].host.Some?
      ensures Hosted(links, k) < |calls| && ok(links[k], calls[Hosted(links, k)])
    {
      HostedPrefix(links, n, k);
      assert links[..n][k] == links[k];
    }
  }

  lemma ProbeAsks(host: string, runId: nat)
    ensures Asks(EnqueueCall(BuildItem(HostProbe, "", host, 0, NoProvenance, runId)), HostProbe, "", host, 0, "host_probe:" + host, "", runId)
  {
    assert Key(HostProbe, "", host, NoProvenance) == "host_probe:" + host;
  }

  lemma HintAsks(hint: Link, runId: nat)
    requires hint.host.Some?
    ensures FetchesHint(runId)(hint,
      EnqueueCall(BuildItem(CatalogFetch, hint.url, hint.host.value, 0, NoProvenance.(probeMethod := "link_tag"), runId)))
  {
    assert Key(CatalogFetch, hint.url, hint.host.value, NoProvenance.(probeMethod := "link_tag")) == "catalog_fetch:" + hint.url;
  }

  lemma LinkAsks(link: Link, depth: nat, budget: int, runId: nat)
    requires link.host.Some?
    ensures CrawlsLink(depth, budget, runId)(link,
      BudgetedCall(BuildItem(PageFetch, link.url, link.host.value, depth, NoProvenance, runId), budget))
  {
    assert Key(PageFetch, link.url, link.host.value, NoProvenance) == "page_fetch:" + link.url;
  }

  lemma {:induction false} ProbesAre(hosts: seq<string>, runId: nat)
    ensures ProbesEach(Probes(hosts, runId), hosts, runId)
  {
    hide BuildItem, Asks;
    if hosts != [] {
      ProbesAre(hosts[..|hosts| - 1], runId);
      ProbeAsks(hosts[|hosts| - 1], runId);
    }
  }

  lemma {:induction false} CatalogsAre(hints: seq<Link>, runId: nat)
    ensures OnePerHost(Catalogs(hints, runId), hints, FetchesHint(runId))
  {
    hide BuildItem, Asks, FetchesHint, OnePerHost;
    if hints == [] {
      NoLinks(hints, FetchesHint(runId));
    } else {
      var before, last := Catalogs(hints[..|hints| - 1], runId), hints[|hints| - 1];
      CatalogsAre(hints[..|hints| - 1], runId);
      if last.host.Some? {
        HintAsks(last, runId);
      }
      OneMoreLink(before, hints, Catalogs(hints, runId)[|before|..], FetchesHint(runId));
      assert Catalogs(hints, runId) == before + Catalogs(hints, runId)[|before|..];
    }
  }

  lemma {:induction false} PagesAre(links: seq<Link>, depth: nat, budget: int, runId: nat)
    ensures OnePerHost(Pages(links, depth, budget, runId), links, CrawlsLink(depth, budget, runId))
  {
    hide BuildItem, Asks, CrawlsLink, OnePerHost;
    if links == [] {
      NoLinks(links, CrawlsLink(depth, budget, runId));
    } else {
      var before, last := Pages(links[..|links| - 1], depth, budget, runId), links[|links| - 1];
      PagesAre(links[..|links| - 1], depth, budget, runId);
      if last.host.Some? {
        LinkAsks(last, depth, budget, runId);
      }
      OneMoreLink(before, links, Pages(links, depth, budget, runId)[|before|..], CrawlsLink(depth, budget, runId));
      assert Pages(links, depth, budget, runId) == before + Pages(links, depth, budget, runId)[|before|..];
    }
  }

  lemma NoLinks(links: seq<Link>, ok: (Link, Call) -> bool)
    requires links == []
    ensures OnePerHost([], links, ok)
  {
  }

  method HandleHosts(hosts: seq<string>, runId: nat) returns (calls: seq<Call>)
    ensures calls == Probes(hosts, runId)
  {
    calls := [];
    for i := 0 to |hosts|
      invariant calls == Probes(hosts[..i], runId)
    {
      calls := calls + [EnqueueCall(BuildItem(HostProbe, "", hosts[i], 0, NoProvenance, runId))];
      assert hosts[..i + 1][..i] == hosts[..i];
    }
    assert hosts[..|hosts|] == hosts;
  }

  method HandleHints(hints: seq<Link>, runId: nat) returns (calls: seq<Call>)
    ensures calls == Catalogs(hints, runId)
  {
    calls := [];
    for i := 0 to |hints|
      invariant calls == Catalogs(hints[..i], runId)
    {
      assert hints[..i + 1][..i] == hints[..i];
      if hints[i].host.None? {
        continue;
      }
      var prov := NoProvenance.(probeMethod := "link_tag");
      calls := calls + [EnqueueCall(BuildItem(CatalogFetch, hints[i].url, hints[i].host.value, 0, prov, runId))];
    }
    assert hints[..|hints|] == hints;
  }

  method HandleLinks(links: seq<Link>, depth: nat, budget: int, runId: nat) returns (calls: seq<Call>)
    ensures calls == Pages(links, depth, budget, runId)
  {
    calls := [];
    for i := 0 to |links|
      invariant calls == Pages(links[..i], depth, budget, runId)
    {
      assert links[..i + 1][..i] == links[..i];
      if links[i].host.None? {
        continue;
      }
      calls := calls + [BudgetedCall(BuildItem(PageFetch, links[i].url, links[i].host.value, depth, NoProvenance, runId), budget)];
    }
    assert links[..|links|] == links;
  }

  method HandlePageFetch(page: Page, depth: nat, maxDepth: nat, budget: int, runId: nat) returns (calls: seq<Call>)
    ensures calls == PageCalls(page, depth, maxDepth, budget, runId)
    ensures exists probes, catalogs, pages ::
      && calls == probes + catalogs + pages
      && ProbesEach(probes, page.hosts, runId)
      && OnePerHost(catalogs, page.hints, FetchesHint(runId))
      && if depth < maxDepth then OnePerHost(pages, page.links, CrawlsLink(depth + 1, budget, runId)) else pages == []
  {
    hide Probes, Catalogs, Pages, ProbesEach, OnePerHost, FetchesHint, CrawlsLink;
    var probes := HandleHosts(page.hosts, runId);
    var catalogs := HandleHints(page.hints, runId);
    var pages: seq<Call> := [];
    if depth < maxDepth {
      pages := HandleLinks(page.links, depth + 1, budget, runId);
    }
    calls := probes + catalogs + pages;
    ProbesAre(page.hosts, runId);
    CatalogsAre(page.hints, runId);
    PagesAre(page.links, depth + 1, budget, runId);
  }

  /** A call fits the ranking of BoundedWork for a handler of (kind, depth). */
  predicate Fits(c: Call, kind: Kind, depth: nat, lim: BoundedWork.Limits) {
    KeyOfKind(c.item.key, c.item.kind) && BoundedWork.ChildOf(kind, depth, c.item.kind, c.item.depth, lim)
  }

  predicate AllFit(calls: seq<Call>, kind: Kind, depth: nat, lim: BoundedWork.Limits) {
    forall k :: 0 <= k < |calls| ==> Fits(calls[k], kind, depth, lim)
  }

  lemma {:induction false} ProbesFit(hosts: seq<string>, depth: nat, runId: nat, lim: BoundedWork.Limits)
    ensures |Probes(hosts, runId)| <= |hosts| && AllFit(Probes(hosts, runId), PageFetch, depth, lim)
  {
    if hosts != [] {
      var h := |hosts| - 1;
      ProbesFit(hosts[..h], depth, runId, lim);
      BuiltKeyOfKind(HostProbe, "", hosts[h], NoProvenance);
    }
  }

  lemma {:induction false} CatalogsFit(hints: seq<Link>, depth: nat, runId: nat, lim: BoundedWork.Limits)
    ensures |Catalogs(hints, runId)| <= |hints| && AllFit(Catalogs(hints, runId), PageFetch, depth, lim)
  {
    if hints != [] {
      var h := |hints| - 1;
      CatalogsFit(hints[..h], depth, runId, lim);
      if hints[h].host.Some? {
        BuiltKeyOfKind(CatalogFetch, hints[h].url, hints[h].host.value, NoProvenance.(probeMethod := "link_tag"));
      }
    }
  }

  lemma {:induction false} PagesFit(links: seq<Link>, depth: nat, budget: int, runId: nat, lim: BoundedWork.Limits)
    requires depth < lim.pageDepth
    ensures |Pages(links, depth + 1, budget, runId)| <= |links|
    ensures AllFit(Pages(links, depth + 1, budget, runId), PageFetch, depth, lim)
  {
    if links != [] {
      var h := |links| - 1;
      PagesFit(links[..h], depth, budget, runId, lim);
      if links[h].host.Some? {
        BuiltKeyOfKind(PageFetch, links[h].url, links[h].host.value, NoProvenance);
      }
    }
  }

  /** Everything a page_fetch enqueues ranks below it, and there is no more of it than the page has to offer. */
  lemma PageWorkFits(page: Page, depth: nat, budget: int, runId: nat, lim: BoundedWork.Limits)
    ensures var calls := PageCalls(page, depth, lim.pageDepth, budget, runId);
      && |calls| <= |page.hosts| + |page.hints| + |page.links|
      && AllFit(calls, PageFetch, depth, lim)
  {
    ProbesFit(page.hosts, depth, runId, lim);
    CatalogsFit(page.hints, depth, runId, lim);
    if depth < lim.pageDepth {
      PagesFit(page.links, depth, budget, runId, lim);
    }
  }
}
