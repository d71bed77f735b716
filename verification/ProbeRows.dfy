/** What one undisturbed handleHostProbe leaves, in rows and columns. */
module ProbeRows {
  import opened Basics
  import opened FrontierTable
  import opened EnqueueRaces
  import opened ProbeRecovery

  /** A catalog_fetch row as a probe hit asks for it. */
  predicate IsProbedRow(h: Handler, r: Row, via: string, url: string) {
    && r.kind == CatalogFetch && r.url == url && r.host == h.host && r.depth == 0 && r.runId == h.runId
    && r.prov == Provenance(None, None, None, None, None, via)
    && r.key == "catalog_fetch:" + url
    && r.priority == 0 && r.status == Pending && r.attempts == 0 && r.lastError == "" && r.lease == None && r.worker == ""
  }

  /** A failed row for this URL, tried again for this hit. */
  predicate IsRetriedRow(h: Handler, r: Row, was: Row, via: string, url: string) {
    && was.status == Failed && was.key == "catalog_fetch:" + url
    && r == was.(depth := 0, runId := h.runId, prov := Provenance(None, None, None, None, None, via),
                 status := Pending, attempts := 0, lastError := "", lease := None, worker := "")
  }

  ghost predicate Probed(h: Handler, r: Row, hits: set<(string, string)>) {
    exists p :: p in hits && IsProbedRow(h, r, p.0, p.1)
  }

  ghost predicate Retried(h: Handler, r: Row, was: Row, hits: set<(string, string)>) {
    exists p :: p in hits && IsRetriedRow(h, r, was, p.0, p.1)
  }

  predicate Unlisted(t: Table, i: nat)
    requires i < |t|
  {
    forall j :: 0 <= j < i ==> t[j].key != t[i].key
  }

  /**
   hits are the catalog URLs to be fetched, each with the probe method that found it:
   a failed row is tried again, a missing one is added, any other is left as it is,
   and nothing else happens.
   */
  ghost predicate Resumed(h: Handler, t: Table, u: Table, hits: set<(string, string)>) {
    && |t| <= |u|
    && (forall i :: 0 <= i < |t| ==> u[i] == t[i] || Retried(h, u[i], t[i], hits))
    && (forall i :: |t| <= i < |u| ==> Unlisted(u, i) && Probed(h, u[i], hits))
    && forall p :: p in hits ==> exists i :: 0 <= i < |u| && u[i].key == "catalog_fetch:" + p.1 && u[i].status != Failed
  }

  lemma ItemIs(h: Handler, via: string, url: string)
    ensures var item := CatalogItem(h.host, via, url, h.runId);
      && item.key == "catalog_fetch:" + url && item.kind == CatalogFetch && item.url == url && item.host == h.host
      && item.depth == 0 && item.priority == 0 && item.runId == h.runId && item.prov == Provenance(None, None, None, None, None, via)
  {
    assert CatalogItem(h.host, via, url, h.runId).key == "catalog_fetch:" + url + "";
  }

  /** One resume. */
  lemma ResumeOne(h: Handler, t: Table, via: string, url: string)
    ensures Resumed(h, t, Enqueue(t, ResumeCall(CatalogItem(h.host, via, url, h.runId)), h.hostname).0, {(via, url)})
  {
    var c := ResumeCall(CatalogItem(h.host, via, url, h.runId));
    var (u, added) := Enqueue(t, c, h.hostname);
    var p := (via, url);
    EffectOfCall(t, c, h.hostname);
    ItemIs(h, via, url);
    hide Enqueue, CatalogItem;
    FirstOf(t, c.item.key);
    assert p in {p};
    if i :| 0 <= i < |t| && t[i].key == c.item.key && forall j :: 0 <= j < i ==> t[j].key != c.item.key {
      assert u[i].key == c.item.key && u[i].status != Failed;
      assert u[i] == t[i] || IsRetriedRow(h, u[i], t[i], p.0, p.1);
    } else {
      assert u[|t|].key == c.item.key;
      assert IsProbedRow(h, u[|t|], p.0, p.1);
    }
  }

  lemma {:induction false} FirstOf(t: Table, key: string)
    ensures (exists i :: 0 <= i < |t| && t[i].key == key) ==>
      exists i :: 0 <= i < |t| && t[i].key == key && forall j :: 0 <= j < i ==> t[j].key != key
  {
    FirstWithKey(t, key);
    assert FindKey(t, key).Some? ==> t[FindKey(t, key).value].key == key;
  }

  /** A retried or new row was failed or absent before, and is pending now. */
  lemma PendingNow(h: Handler, r: Row, was: Row, hits: set<(string, string)>, more: set<(string, string)>)
    requires hits <= more
    ensures Retried(h, r, was, hits) ==> Retried(h, r, was, more) && was.status == Failed && r.status == Pending && r.key == was.key
    ensures Probed(h, r, hits) ==> Probed(h, r, more) && r.status == Pending
  {
  }

  lemma ResumedMore(h: Handler, t: Table, u: Table, v: Table, hits: set<(string, string)>, more: set<(string, string)>)
    requires Resumed(h, t, u, hits) && Resumed(h, u, v, more)
    ensures Resumed(h, t, v, hits + more)
  {
    var all := hits + more;
    forall i | 0 <= i < |u|
      ensures v[i].key == u[i].key && (u[i].status != Failed ==> v[i] == u[i])
      ensures i < |t| ==> v[i] == t[i] || Retried(h, v[i], t[i], all)
      ensures i >= |t| ==> Probed(h, v[i], all)
    {
      PendingNow(h, v[i], u[i], more, all);
      if i < |t| {
        PendingNow(h, u[i], t[i], hits, all);
      } else {
        PendingNow(h, u[i], u[i], hits, all);
      }
    }
    forall i | |u| <= i < |v| ensures Probed(h, v[i], all) {
      PendingNow(h, v[i], v[i], more, all);
    }
    hide Probed, Retried;
    forall i | |t| <= i < |u| ensures Unlisted(v, i) {
      assert Unlisted(u, i);
    }
    forall p | p in all ensures exists i :: 0 <= i < |v| && v[i].key == "catalog_fetch:" + p.1 && v[i].status != Failed {
      if p in hits {
        var i :| 0 <= i < |u| && u[i].key == "catalog_fetch:" + p.1 && u[i].status != Failed;
        assert v[i] == u[i];
      }
    }
  }

  // -- Scripts ----------------------------------------------------------------------------

  ghost function HitsOf(ops: seq<Op>): set<(string, string)> {
    set op | op in ops && op.Resume? :: (op.via, op.url)
  }

  /** The probe rows a script writes, in order. */
  function RowsOf(ops: seq<Op>): seq<ProbeRow> {
    if ops == [] then []
    else RowsOf(ops[..|ops| - 1]) + if ops[|ops| - 1].Record? then [ops[|ops| - 1].probe] else []
  }

  lemma HitsAppend(a: seq<Op>, b: seq<Op>)
    ensures HitsOf(a + b) == HitsOf(a) + HitsOf(b)
  {
  }

  lemma {:induction false} RowsAppend(a: seq<Op>, b: seq<Op>)
    ensures RowsOf(a + b) == RowsOf(a) + RowsOf(b)
  {
    if b == [] {
      assert a + b == a;
    } else {
      assert (a + b)[..|a| + |b| - 1] == a + b[..|b| - 1];
      RowsAppend(a, b[..|b| - 1]);
    }
  }

  lemma RowsOne(op: Op)
    ensures RowsOf([op]) == if op.Record? then [op.probe] else []
    ensures HitsOf([op]) == if op.Resume? then {(op.via, op.url)} else {}
  {
    assert op.Resume? ==> op in [op];
  }

  lemma {:induction false} PerformLeaves(h: Handler, s: Tables, ops: seq<Op>)
    ensures var end := PerformAll(h, s, ops);
      Resumed(h, s.t, end.t, HitsOf(ops)) && end.probes == s.probes + RowsOf(ops)
  {
    hide Enqueue, Resumed;
    if ops == [] {
      NothingResumed(h, s.t);
      assert HitsOf(ops) == {};
    } else {
      var n := |ops| - 1;
      var op, before := ops[n], PerformAll(h, s, ops[..n]);
      PerformLeaves(h, s, ops[..n]);
      assert ops == ops[..n] + [op];
      HitsAppend(ops[..n], [op]);
      if op.Resume? {
        ResumeOne(h, before.t, op.via, op.url);
        ResumedMore(h, s.t, before.t, PerformAll(h, s, ops).t, HitsOf(ops[..n]), {(op.via, op.url)});
        assert HitsOf([op]) == {(op.via, op.url)};
      } else {
        assert HitsOf([op]) == {} && HitsOf(ops) == HitsOf(ops[..n]);
      }
    }
  }

  lemma NothingResumed(h: Handler, t: Table)
    ensures Resumed(h, t, t, {})
  {
  }

  // -- An attempt -------------------------------------------------------------------------

  /** Where the probe rows of answer k stand among those an attempt records. */
  function Place(answers: seq<Answer>, k: nat): nat
    requires k <= |answers|
  {
    if k == 0 then 0
    else Place(answers, k - 1) + if answers[k - 1].hit then |answers[k - 1].catalogURLs| else 1
  }

  /** One hit row for each catalog URL of an answer, or one miss row, from place `at` on. */
  predicate Reports(a: Answer, rows: seq<ProbeRow>, at: nat) {
    if a.hit
    then at + |a.catalogURLs| <= |rows| && forall i :: 0 <= i < |a.catalogURLs| ==> rows[at + i] == ProbeRow(a.via, a.catalogURLs[i], true)
    else at < |rows| && rows[at] == ProbeRow(a.via, a.url, false)
  }

  /** The answers' rows in order, and no others. */
  predicate Reported(answers: seq<Answer>, rows: seq<ProbeRow>) {
    && |rows| == Place(answers, |answers|)
    && forall k :: 0 <= k < |answers| ==> Reports(answers[k], rows, Place(answers, k))
  }

  lemma UrlsNext(via: string, urls: seq<string>)
    requires urls != []
    ensures var n := |urls| - 1; var before := UrlOps(via, urls[..n]);
      && HitsOf(UrlOps(via, urls)) == HitsOf(before) + {(via, urls[n])}
      && RowsOf(UrlOps(via, urls)) == RowsOf(before) + [ProbeRow(via, urls[n], true)]
  {
    var n := |urls| - 1;
    var before, record, resume := UrlOps(via, urls[..n]), Record(ProbeRow(via, urls[n], true)), Resume(via, urls[n]);
    assert UrlOps(via, urls) == before + [record] + [resume];
    hide *;
    HitsAppend(before + [record], [resume]);
    HitsAppend(before, [record]);
    RowsAppend(before + [record], [resume]);
    RowsAppend(before, [record]);
    RowsOne(record);
    RowsOne(resume);
  }

  lemma NoOps(via: string, urls: seq<string>, probes: seq<ProbeRow>)
    ensures urls == [] ==> HitsOf(UrlOps(via, urls)) == {} && RowsOf(UrlOps(via, urls)) == []
    ensures probes == [] ==> HitsOf(KnownOps(probes)) == {} && RowsOf(KnownOps(probes)) == []
  {
  }

  lemma {:induction false} UrlHits(via: string, urls: seq<string>)
    ensures HitsOf(UrlOps(via, urls)) == set u | u in urls :: (via, u)
  {
    hide *;
    if urls == [] {
      NoOps(via, urls, []);
    } else {
      var n := |urls| - 1;
      UrlHits(via, urls[..n]);
      UrlsNext(via, urls);
      assert urls == urls[..n] + [urls[n]];
    }
  }

  lemma {:induction false} UrlRows(via: string, urls: seq<string>)
    ensures |RowsOf(UrlOps(via, urls))| == |urls|
    ensures forall i :: 0 <= i < |urls| ==> RowsOf(UrlOps(via, urls))[i] == ProbeRow(via, urls[i], true)
  {
    hide *;
    if urls == [] {
      NoOps(via, urls, []);
    } else {
      UrlRows(via, urls[..|urls| - 1]);
      UrlsNext(via, urls);
    }
  }

  lemma {:induction false} ProbeHits(answers: seq<Answer>)
    ensures HitsOf(ProbeOps(answers)) == set a, u | a in answers && a.hit && u in a.catalogURLs :: (a.via, u)
  {
    if answers != [] {
      var n := |answers| - 1;
      ProbeHits(answers[..n]);
      HitsAppend(ProbeOps(answers[..n]), AnswerOps(answers[n]));
      AnswerScript(answers[n]);
      assert answers == answers[..n] + [answers[n]];
      assert HitsOf(ProbeOps(answers)) == HitsOf(ProbeOps(answers[..n])) + HitsOf(AnswerOps(answers[n]));
      hide HitsOf, ProbeOps, AnswerOps;
    }
  }

  lemma {:induction false} ProbeReports(answers: seq<Answer>)
    ensures Reported(answers, RowsOf(ProbeOps(answers)))
  {
    if answers != [] {
      var n := |answers| - 1;
      var a, earlier := answers[n], answers[..n];
      ProbeReports(earlier);
      RowsAppend(ProbeOps(earlier), AnswerOps(a));
      assert ProbeOps(answers) == ProbeOps(earlier) + AnswerOps(a);
      AnswerScript(a);
      hide Reported, Reports, RowsOf, ProbeOps, AnswerOps;
      ReportedMore(earlier, RowsOf(ProbeOps(earlier)), a, RowsOf(AnswerOps(a)));
      assert answers == earlier + [a];
    }
  }

  lemma ReportedMore(answers: seq<Answer>, rows: seq<ProbeRow>, a: Answer, more: seq<ProbeRow>)
    requires Reported(answers, rows) && Reports(a, more, 0) && |more| == if a.hit then |a.catalogURLs| else 1
    ensures Reported(answers + [a], rows + more)
  {
    var all, n := answers + [a], |answers|;
    hide Place, Reports;
    NextPlace(answers, a);
    SamePlace(answers, a, n);
    ReportsMove(a, rows, more);
    forall k | 0 <= k < n ensures Reports(all[k], rows + more, Place(all, k)) {
      SamePlace(answers, a, k);
      assert Reports(answers[k], rows, Place(answers, k));
      ReportsStay(answers[k], rows, more, Place(answers, k));
    }
  }

  lemma NextPlace(answers: seq<Answer>, a: Answer)
    ensures Place(answers + [a], |answers| + 1) == Place(answers + [a], |answers|) + if a.hit then |a.catalogURLs| else 1
  {
  }

  lemma ReportsStay(a: Answer, rows: seq<ProbeRow>, more: seq<ProbeRow>, at: nat)
    requires Reports(a, rows, at)
    ensures Reports(a, rows + more, at)
  {
  }

  lemma ReportsMove(a: Answer, rows: seq<ProbeRow>, more: seq<ProbeRow>)
    requires Reports(a, more, 0)
    ensures Reports(a, rows + more, |rows|)
  {
    if a.hit {
      forall i | 0 <= i < |a.catalogURLs| ensures (rows + more)[|rows| + i] == ProbeRow(a.via, a.catalogURLs[i], true) {
        assert more[0 + i] == ProbeRow(a.via, a.catalogURLs[i], true);
      }
    }
  }

  lemma {:induction false} SamePlace(answers: seq<Answer>, a: Answer, k: nat)
    requires k <= |answers|
    ensures Place(answers + [a], k) == Place(answers, k)
  {
    if k > 0 {
      SamePlace(answers, a, k - 1);
    }
  }

  lemma AnswerScript(a: Answer)
    ensures HitsOf(AnswerOps(a)) == set u | a.hit && u in a.catalogURLs :: (a.via, u)
    ensures |RowsOf(AnswerOps(a))| == if a.hit then |a.catalogURLs| else 1
    ensures Reports(a, RowsOf(AnswerOps(a)), 0)
  {
    if a.hit {
      UrlHits(a.via, a.catalogURLs);
      UrlRows(a.via, a.catalogURLs);
    } else {
      RowsOne(Record(ProbeRow(a.via, a.url, false)));
    }
  }

  lemma KnownNext(probes: seq<ProbeRow>)
    requires probes != []
    ensures var n := |probes| - 1;
      var p, before := probes[n], KnownOps(probes[..n]);
      && HitsOf(KnownOps(probes)) == HitsOf(before) + (if p.hit then {(p.via, p.url)} else {})
      && RowsOf(KnownOps(probes)) == RowsOf(before)
  {
    var n := |probes| - 1;
    var resume := Resume(probes[n].via, probes[n].url);
    HitsAppend(KnownOps(probes[..n]), [resume]);
    RowsAppend(KnownOps(probes[..n]), [resume]);
    RowsOne(resume);
    assert KnownOps(probes) == if probes[n].hit then KnownOps(probes[..n]) + [resume] else KnownOps(probes[..n]);
  }

  lemma {:induction false} KnownScript(probes: seq<ProbeRow>)
    ensures HitsOf(KnownOps(probes)) == set p | p in probes && p.hit :: (p.via, p.url)
    ensures RowsOf(KnownOps(probes)) == []
  {
    hide *;
    if probes == [] {
      NoOps("", [], probes);
    } else {
      var n := |probes| - 1;
      KnownScript(probes[..n]);
      KnownNext(probes);
      assert probes == probes[..n] + [probes[n]];
    }
  }

  /** What a probe leaves: the answers on record and a fetch for every URL they list. */
  lemma ProbeLeaves(h: Handler, s: Tables, answers: seq<Answer>)
    ensures var end := PerformAll(h, s, ProbeOps(answers));
      && s.probes <= end.probes && Reported(answers, end.probes[|s.probes|..])
      && Resumed(h, s.t, end.t, set a, u | a in answers && a.hit && u in a.catalogURLs :: (a.via, u))
  {
    hide ProbeOps, PerformAll, Resumed, Reported;
    ProbeHits(answers);
    ProbeReports(answers);
    PerformLeaves(h, s, ProbeOps(answers));
  }

  /** What skipping leaves: a fetch for every hit on record, and no new record. */
  lemma SkipLeaves(h: Handler, s: Tables)
    ensures var end := PerformAll(h, s, KnownOps(s.probes));
      end.probes == s.probes && Resumed(h, s.t, end.t, set p | p in s.probes && p.hit :: (p.via, p.url))
  {
    hide KnownOps, PerformAll, Resumed;
    KnownScript(s.probes);
    PerformLeaves(h, s, KnownOps(s.probes));
  }
}
