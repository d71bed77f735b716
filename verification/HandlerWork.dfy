/** The frontier work of host probes and of the catalogs inlined in a page, against the ranks of BoundedWork. */
module HandlerWork {
  import opened Basics
  import opened FrontierTable
  import opened DedupKey
  import opened CatalogStore
  import opened CatalogRecovery
  import opened CatalogCompleteness
  import opened CatalogWork
  import BoundedWork
  import Engine
  import P = ProbeRecovery

  // -- handleHostProbe -----------------------------------------------------------------

  function IsResume(): P.Op -> nat { (op: P.Op) => if op.Resume? then 1 else 0 }

  function UrlCount(): P.Answer -> nat { (a: P.Answer) => if a.hit then |a.catalogURLs| else 0 }

  function IsHit(): P.ProbeRow -> nat { (p: P.ProbeRow) => if p.hit then 1 else 0 }

  lemma {:induction false} UrlResumes(via: string, urls: seq<string>)
    ensures Sum(P.UrlOps(via, urls), IsResume()) == |urls|
  {
    if urls != [] {
      var n := |urls| - 1;
      var record, resume := P.Record(P.ProbeRow(via, urls[n], true)), P.Resume(via, urls[n]);
      UrlResumes(via, urls[..n]);
      SumAppend(P.UrlOps(via, urls[..n]), [record, resume], IsResume());
      SumOne(record, IsResume());
      SumOne(resume, IsResume());
      assert [record, resume][1..] == [resume];
    }
  }

  lemma {:induction false} AnswerResumes(answers: seq<P.Answer>)
    ensures Sum(P.ProbeOps(answers), IsResume()) == Sum(answers, UrlCount())
  {
    if answers != [] {
      var n := |answers| - 1;
      var a := answers[n];
      AnswerResumes(answers[..n]);
      UrlResumes(a.via, a.catalogURLs);
      SumAppend(P.ProbeOps(answers[..n]), P.AnswerOps(a), IsResume());
      if !a.hit {
        SumOne(P.Record(P.ProbeRow(a.via, a.url, false)), IsResume());
      }
      SumAppend(answers[..n], [a], UrlCount());
      SumOne(a, UrlCount());
      assert answers[..n] + [a] == answers;
    }
  }

  lemma {:induction false} KnownResumes(probes: seq<P.ProbeRow>)
    ensures Sum(P.KnownOps(probes), IsResume()) == Sum(probes, IsHit())
  {
    if probes != [] {
      var n := |probes| - 1;
      var p := probes[n];
      KnownResumes(probes[..n]);
      SumAppend(P.KnownOps(probes[..n]), if p.hit then [P.Resume(p.via, p.url)] else [], IsResume());
      SumOne(P.Resume(p.via, p.url), IsResume());
      SumAppend(probes[..n], [p], IsHit());
      SumOne(p, IsHit());
      assert probes[..n] + [p] == probes;
    }
  }

  /**
   A host_probe makes one enqueue call for each catalog URL its hits list, or, when
   it skips the probing, one for each hit on record; every call ranks below it.
   */
  lemma ProbeWorkFits(h: P.Handler, skips: bool, probes: seq<P.ProbeRow>, answers: seq<P.Answer>, depth: nat, lim: BoundedWork.Limits)
    ensures var ops := P.AttemptOps(skips, probes, answers);
      && Sum(ops, IsResume()) == (if skips then Sum(probes, IsHit()) else Sum(answers, UrlCount()))
      && forall k :: 0 <= k < |ops| && ops[k].Resume? ==> Engine.Fits(P.ResumeOf(h, ops[k]), HostProbe, depth, lim)
  {
    AnswerResumes(answers);
    KnownResumes(probes);
    var ops := P.AttemptOps(skips, probes, answers);
    forall k | 0 <= k < |ops| && ops[k].Resume? ensures Engine.Fits(P.ResumeOf(h, ops[k]), HostProbe, depth, lim) {
      BuiltKeyOfKind(CatalogFetch, ops[k].url, h.host, Provenance(None, None, None, None, None, ops[k].via));
    }
  }

  // -- processInlineCatalogs ------------------------------------------------------------

  /** A catalog inlined in a page, under the page's URL with the fragment of its place. */
  datatype Inline = Inline(doc: Doc, source: string)

  function InlineTask(c: Inline): Task { Process(c.doc, c.source, None, 0) }

  function InlineTasks(catalogs: seq<Inline>): seq<Task> {
    if catalogs == [] then [] else [InlineTask(catalogs[0])] + InlineTasks(catalogs[1..])
  }

  function InlineEntries(): Inline -> nat { (c: Inline) => EntryCount(c.doc.entries) }

  /** Whatever a catalog may enqueue, a page may enqueue at any depth of its own. */
  lemma PagesMayDoCatalogWork(t: Table, u: Table, depth: nat, lim: BoundedWork.Limits)
    requires NewRowsFit(t, u, CatalogFetch, 0, lim)
    ensures NewRowsFit(t, u, PageFetch, depth, lim)
  {
    forall i | |t| <= i < |u| ensures RowFits(u[i], PageFetch, depth, lim) {
      assert RowFits(u[i], CatalogFetch, 0, lim);
    }
  }

  lemma OneInlineFits(cfg: Config, st: Store, c: Inline, depth: nat, lim: BoundedWork.Limits)
    requires lim.catalogDepth == cfg.maxDepth
    ensures var end := Drain(cfg, Job(st, [InlineTask(c)])).frontier;
      |end| - |st.frontier| <= EntryCount(c.doc.entries) && NewRowsFit(st.frontier, end, PageFetch, depth, lim)
  {
    hide Drain;
    if cfg.maxDepth == 0 {
      NoWorkAtTheLimit(cfg, st, c.doc, c.source, None, 0);
    } else {
      CatalogWorkFits(cfg, Job(st, [InlineTask(c)]), 0, lim);
      SumOne(InlineTask(c), Items());
      PagesMayDoCatalogWork(st.frontier, Drain(cfg, Job(st, [InlineTask(c)])).frontier, depth, lim);
    }
  }

  /** Inline catalogs enter at catalog depth 0 on a page of any depth; their rows rank below the page, one per entry at most. */
  lemma {:induction false} InlineWorkFits(cfg: Config, st: Store, catalogs: seq<Inline>, depth: nat, lim: BoundedWork.Limits)
    requires lim.catalogDepth == cfg.maxDepth
    ensures var end := Drain(cfg, Job(st, InlineTasks(catalogs))).frontier;
      && |end| - |st.frontier| <= Sum(catalogs, InlineEntries())
      && NewRowsFit(st.frontier, end, PageFetch, depth, lim)
    decreases |catalogs|
  {
    hide NewRowsFit;
    if catalogs == [] {
      assert NewRowsFit(st.frontier, st.frontier, PageFetch, depth, lim) by { NothingNew(st.frontier, depth, lim); }
    } else {
      var first := Drain(cfg, Job(st, [InlineTask(catalogs[0])]));
      OneInlineFits(cfg, st, catalogs[0], depth, lim);
      InlineWorkFits(cfg, first, catalogs[1..], depth, lim);
      DrainAppend(cfg, st, [InlineTask(catalogs[0])], InlineTasks(catalogs[1..]));
      NewRowsFitOn(st.frontier, first.frontier, Drain(cfg, Job(st, InlineTasks(catalogs))).frontier, PageFetch, depth, lim);
    }
  }

  lemma NothingNew(t: Table, depth: nat, lim: BoundedWork.Limits)
    ensures NewRowsFit(t, t, PageFetch, depth, lim)
  {
  }
}
