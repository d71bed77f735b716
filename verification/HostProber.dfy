/** handleHostProbe as internal/crawler/handlers.go writes it. */
module HostProber {
  import opened FrontierTable
  import opened EnqueueRaces
  import opened ProbeRecovery
  import opened ProbeRows

  class HostProber {
    const h: Handler
    var probes: seq<ProbeRow>
    var t: Table

    constructor (h: Handler, probes: seq<ProbeRow>, t: Table)
      ensures this.h == h && this.probes == probes && this.t == t
    {
      this.h := h;
      this.probes := probes;
      this.t := t;
    }

    function Contents(): Tables reads this { Tables(probes, t) }

    method RecordProbe(p: ProbeRow)
      modifies this
      ensures Contents() == Perform(h, old(Contents()), Record(p))
    {
      probes := probes + [p];
    }

    method ResumeCatalog(via: string, url: string)
      modifies this
      ensures Contents() == Perform(h, old(Contents()), Resume(via, url))
    {
      t := Enqueue(t, ResumeCall(CatalogItem(h.host, via, url, h.runId)), h.hostname).0;
    }

    method ReenqueueKnownCatalogHits()
      modifies this
      ensures Contents() == PerformAll(h, old(Contents()), KnownOps(old(probes)))
    {
      hide Enqueue;
      var known := probes;
      for i := 0 to |known|
        invariant Contents() == PerformAll(h, old(Contents()), KnownOps(known[..i]))
      {
        assert known[..i + 1][..i] == known[..i];
        assert KnownOps(known[..i]) + [] == KnownOps(known[..i]);
        if known[i].hit {
          PerformOne(h, old(Contents()), KnownOps(known[..i]), Resume(known[i].via, known[i].url));
          ResumeCatalog(known[i].via, known[i].url);
        }
      }
      assert known[..|known|] == known;
    }

    method HandleHit(a: Answer)
      modifies this
      ensures Contents() == PerformAll(h, old(Contents()), UrlOps(a.via, a.catalogURLs))
    {
      hide Enqueue;
      for i := 0 to |a.catalogURLs|
        invariant Contents() == PerformAll(h, old(Contents()), UrlOps(a.via, a.catalogURLs[..i]))
      {
        var url := a.catalogURLs[i];
        ghost var ops := UrlOps(a.via, a.catalogURLs[..i]);
        ghost var record, resume := Record(ProbeRow(a.via, url, true)), Resume(a.via, url);
        assert a.catalogURLs[..i + 1][..i] == a.catalogURLs[..i];
        assert ops + [record, resume] == ops + [record] + [resume];
        PerformOne(h, old(Contents()), ops, record);
        PerformOne(h, old(Contents()), ops + [record], resume);
        RecordProbe(ProbeRow(a.via, url, true));
        ResumeCatalog(a.via, url);
      }
      assert a.catalogURLs[..|a.catalogURLs|] == a.catalogURLs;
    }

    /** A failing probe method that asks for a retry fails the attempt, after all hits were recorded and resumed. */
    method HandleHostProbe(force: bool, attempts: nat, recent: bool, answers: seq<Answer>) returns (ok: bool)
      modifies this
      ensures Contents() == PerformAll(h, old(Contents()), AttemptOps(Skips(force, attempts, recent), old(probes), answers))
      ensures ok <==> (!force && attempts == 0 && recent) || forall k :: 0 <= k < |answers| ==> answers[k].hit || !answers[k].retry
      ensures !force && attempts == 0 && recent ==>
        && probes == old(probes)
        && Resumed(h, old(t), t, set p | p in old(probes) && p.hit :: (p.via, p.url))
      ensures force || attempts > 0 || !recent ==>
        && old(probes) <= probes && Reported(answers, probes[|old(probes)|..])
        && Resumed(h, old(t), t, set a, u | a in answers && a.hit && u in a.catalogURLs :: (a.via, u))
    {
      if !force && attempts == 0 && recent {
        SkipLeaves(h, Contents());
      } else {
        ProbeLeaves(h, Contents(), answers);
      }
      hide ProbeOps, KnownOps, PerformAll, Perform, Resumed, Reported;
      ok := true;
      NoAnswers(h, Contents(), answers[..0]);
      if !force && attempts == 0 {
        if recent {
          ReenqueueKnownCatalogHits();
          return;
        }
      }
      for i := 0 to |answers|
        invariant Contents() == PerformAll(h, old(Contents()), ProbeOps(answers[..i]))
        invariant ok <==> forall k :: 0 <= k < i ==> answers[k].hit || !answers[k].retry
      {
        var a := answers[i];
        ProbeOpsNext(answers, i);
        PerformAllAppend(h, old(Contents()), ProbeOps(answers[..i]), AnswerOps(a));
        if !a.hit {
          PerformOne(h, old(Contents()), ProbeOps(answers[..i]), Record(ProbeRow(a.via, a.url, false)));
          RecordProbe(ProbeRow(a.via, a.url, false));
          ok := ok && !a.retry;
          continue;
        }
        HandleHit(a);
      }
      assert answers[..|answers|] == answers;
    }
  }
}
