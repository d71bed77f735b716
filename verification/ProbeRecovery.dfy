/**
 handleHostProbe under crashes: a probe hit is recorded before its catalog_fetch
 is resumed, so a crash in between leaves a promise that later attempts must keep.
 Only probe rows this handler wrote are meant; they carry catalog URLs.
 */
module ProbeRecovery {
  import opened Basics
  import opened FrontierTable
  import opened FrontierSystem
  import opened DedupKey
  import opened EnqueueRaces

  /** One probes row of the host. */
  datatype ProbeRow = ProbeRow(via: string, url: string, hit: bool)

  /** What one probe method answered. */
  datatype Answer = Answer(via: string, hit: bool, url: string, catalogURLs: seq<string>, retry: bool)

  datatype Op = Record(probe: ProbeRow) | Resume(via: string, url: string)

  function CatalogItem(host: string, via: string, url: string, runId: nat): Item {
    BuildItem(CatalogFetch, url, host, 0, Provenance(None, None, None, None, None, via), runId)
  }

  function CatalogKey(url: string): string {
    Key(CatalogFetch, url, "", Provenance(None, None, None, None, None, ""))
  }

  lemma ItemKey(host: string, via: string, url: string, runId: nat)
    ensures CatalogItem(host, via, url, runId).key == CatalogKey(url)
  {
  }

  // -- The operations of an attempt, in order ------------------------------------------

  function UrlOps(via: string, urls: seq<string>): seq<Op> {
    if urls == [] then []
    else
      var n := |urls| - 1;
      UrlOps(via, urls[..n]) + [Record(ProbeRow(via, urls[n], true)), Resume(via, urls[n])]
  }

  function AnswerOps(a: Answer): seq<Op> {
    if a.hit then UrlOps(a.via, a.catalogURLs) else [Record(ProbeRow(a.via, a.url, false))]
  }

  /** A full probe. */
  function ProbeOps(answers: seq<Answer>): seq<Op> {
    if answers == [] then []
    else ProbeOps(answers[..|answers| - 1]) + AnswerOps(answers[|answers| - 1])
  }

  /** reenqueueKnownCatalogHits. */
  function KnownOps(probes: seq<ProbeRow>): seq<Op> {
    if probes == [] then []
    else
      var p := probes[|probes| - 1];
      KnownOps(probes[..|probes| - 1]) + if p.hit then [Resume(p.via, p.url)] else []
  }

  function AnswerUrls(answers: seq<Answer>): set<string> {
    set a, u | a in answers && a.hit && u in a.catalogURLs :: u
  }

  function PromisedUrls(probes: seq<ProbeRow>): set<string> {
    set p | p in probes && p.hit :: p.url
  }

  predicate Resumes(ops: seq<Op>, url: string) {
    exists k :: 0 <= k < |ops| && ops[k].Resume? && ops[k].url == url
  }

  /** Every hit an operation records is resumed by a later one. */
  predicate RecordsThenResumes(ops: seq<Op>) {
    forall k :: 0 <= k < |ops| && ops[k].Record? && ops[k].probe.hit ==> Resumes(ops[k + 1..], ops[k].probe.url)
  }

  /** No operation records a hit outside urls. */
  predicate RecordsOnly(ops: seq<Op>, urls: set<string>) {
    forall k :: 0 <= k < |ops| && ops[k].Record? && ops[k].probe.hit ==> ops[k].probe.url in urls
  }

  lemma ResumesLater(a: seq<Op>, b: seq<Op>, url: string)
    requires Resumes(a, url) || Resumes(b, url)
    ensures Resumes(a + b, url)
  {
    if Resumes(a, url) {
      var k :| 0 <= k < |a| && a[k].Resume? && a[k].url == url;
      assert (a + b)[k] == a[k];
    } else {
      var k :| 0 <= k < |b| && b[k].Resume? && b[k].url == url;
      assert (a + b)[|a| + k] == b[k];
    }
  }

  lemma ScriptsAppend(a: seq<Op>, b: seq<Op>, urls: set<string>)
    requires RecordsThenResumes(a) && RecordsThenResumes(b) && RecordsOnly(a, urls) && RecordsOnly(b, urls)
    ensures RecordsThenResumes(a + b) && RecordsOnly(a + b, urls)
  {
    var s := a + b;
    forall k | 0 <= k < |s| && s[k].Record? && s[k].probe.hit ensures Resumes(s[k + 1..], s[k].probe.url) {
      if k < |a| {
        assert s[k + 1..] == a[k + 1..] + b;
        ResumesLater(a[k + 1..], b, s[k].probe.url);
      } else {
        assert s[k + 1..] == b[k - |a| + 1..];
      }
    }
  }

  lemma {:induction false} UrlOpsOk(via: string, urls: seq<string>, all: set<string>)
    requires forall k :: 0 <= k < |urls| ==> urls[k] in all
    ensures RecordsThenResumes(UrlOps(via, urls)) && RecordsOnly(UrlOps(via, urls), all)
    ensures forall k :: 0 <= k < |urls| ==> Resumes(UrlOps(via, urls), urls[k])
  {
    if urls != [] {
      var n := |urls| - 1;
      var before := UrlOps(via, urls[..n]);
      var last := [Record(ProbeRow(via, urls[n], true)), Resume(via, urls[n])];
      UrlOpsOk(via, urls[..n], all);
      forall k | 0 <= k < |last| && last[k].Record? ensures Resumes(last[k + 1..], last[k].probe.url) {
        assert last[k + 1..][0] == Resume(via, urls[n]);
      }
      ScriptsAppend(before, last, all);
      assert Resumes(last, urls[n]) by { assert last[1].Resume?; }
      forall k | 0 <= k < |urls| ensures Resumes(UrlOps(via, urls), urls[k]) {
        assert k < n ==> Resumes(before, urls[..n][k]);
        ResumesLater(before, last, urls[k]);
      }
    }
  }

  lemma {:induction false} ProbeOpsOk(answers: seq<Answer>, all: set<string>)
    requires AnswerUrls(answers) <= all
    ensures RecordsThenResumes(ProbeOps(answers)) && RecordsOnly(ProbeOps(answers), all)
    ensures forall u :: u in AnswerUrls(answers) ==> Resumes(ProbeOps(answers), u)
  {
    if answers != [] {
      var n := |answers| - 1;
      var a := answers[n];
      ProbeOpsOk(answers[..n], all);
      if a.hit {
        forall k | 0 <= k < |a.catalogURLs| ensures a.catalogURLs[k] in all {
          assert a in answers && a.hit && a.catalogURLs[k] in a.catalogURLs;
          assert a.catalogURLs[k] in AnswerUrls(answers);
        }
        UrlOpsOk(a.via, a.catalogURLs, all);
      }
      ScriptsAppend(ProbeOps(answers[..n]), AnswerOps(a), all);
      forall u | u in AnswerUrls(answers) ensures Resumes(ProbeOps(answers), u) {
        var b :| b in answers && b.hit && u in b.catalogURLs;
        assert b in answers[..n] || b == a;
        if b in answers[..n] {
          assert u in AnswerUrls(answers[..n]);
        } else {
          var k :| 0 <= k < |a.catalogURLs| && a.catalogURLs[k] == u;
          assert Resumes(AnswerOps(a), a.catalogURLs[k]);
        }
        ResumesLater(ProbeOps(answers[..n]), AnswerOps(a), u);
      }
    }
  }

  lemma {:induction false} KnownOpsOk(probes: seq<ProbeRow>)
    ensures forall k :: 0 <= k < |KnownOps(probes)| ==> KnownOps(probes)[k].Resume?
    ensures forall u :: u in PromisedUrls(probes) ==> Resumes(KnownOps(probes), u)
  {
    if probes != [] {
      var n := |probes| - 1;
      var p := probes[n];
      var last := if p.hit then [Resume(p.via, p.url)] else [];
      KnownOpsOk(probes[..n]);
      forall u | u in PromisedUrls(probes) ensures Resumes(KnownOps(probes), u) {
        var q :| q in probes && q.hit && q.url == u;
        assert q in probes[..n] || q == p;
        assert q in probes[..n] ==> u in PromisedUrls(probes[..n]);
        assert q == p ==> last[0].Resume?;
        ResumesLater(KnownOps(probes[..n]), last, u);
      }
    }
  }

  // -- Attempts, crashes and everybody else ---------------------------------------------

  /** An attempt in progress: what it has left to do, and the statement its current Resume is at. */
  datatype Phase = Idle | Busy(ops: seq<Op>, at: At) | Finished

  datatype World = World(probes: seq<ProbeRow>, t: Table, phase: Phase)

  datatype Event =
    | Start(answers: seq<Answer>)   // probe the host
    | Skip                          // probed recently: resume the known hits only
    | Handle                        // the handler's next statement
    | Return(ok: bool)              // the attempt is through; ok means the item becomes done
    | Crash
    | Others(t: Table)              // any statements of other goroutines and processes

  /** What the frontier's transition system allows is no more than that. */
  lemma StepsKeepKeys(s: State, step: Step, hostname: string -> string)
    requires StateOk(s, hostname) && Enabled(s, step)
    ensures KeysKept(s.t, Apply(s, step, hostname).t)
  {
    hide Apply;
    StepOk(s, step, hostname);
  }

  ghost predicate Possible(w: World, e: Event) {
    match e
    case Start(_) => !w.phase.Busy?
    case Skip => !w.phase.Busy?
    case Handle => w.phase.Busy? && w.phase.ops != []
    case Return(_) => w.phase.Busy? && w.phase.ops == []
    case Crash => w.phase.Busy?
    case Others(t) => KeysKept(w.t, t)
  }

  /** The host and run of the handler's item. */
  datatype Handler = Handler(host: string, runId: nat, hostname: string -> string)

  function ResumeOf(h: Handler, op: Op): Call
    requires op.Resume?
  {
    ResumeCall(CatalogItem(h.host, op.via, op.url, h.runId))
  }

  function Handled(h: Handler, w: World): World
    requires w.phase.Busy? && w.phase.ops != []
  {
    var op, rest := w.phase.ops[0], w.phase.ops[1..];
    match op
    case Record(p) => World(w.probes + [p], w.t, Busy(rest, Create))
    case Resume(_, _) =>
      var (u, next) := EnqueueStep(w.t, ResumeOf(h, op), w.phase.at, h.hostname);
      World(w.probes, u, if next.Continue? then Busy(w.phase.ops, next.at) else Busy(rest, Create))
  }

  ghost function After(h: Handler, w: World, e: Event): World
    requires Possible(w, e)
  {
    match e
    case Start(answers) => w.(phase := Busy(ProbeOps(answers), Create))
    case Skip => w.(phase := Busy(KnownOps(w.probes), Create))
    case Handle => Handled(h, w)
    case Return(ok) => w.(phase := if ok then Finished else Idle)
    case Crash => w.(phase := Idle)
    case Others(t) => w.(t := t)
  }

  ghost predicate IsHistory(h: Handler, run: seq<World>, events: seq<Event>) {
    && |run| == |events| + 1
    && forall k {:trigger events[k]} :: 0 <= k < |events| ==> Possible(run[k], events[k]) && run[k + 1] == After(h, run[k], events[k])
  }

  /** Every full probe discovers the same catalog URLs. */
  ghost predicate StableAnswers(events: seq<Event>, urls: set<string>) {
    forall k :: 0 <= k < |events| && events[k].Start? ==> AnswerUrls(events[k].answers) == urls
  }

  predicate Kept(t: Table, url: string) { KeyIn(t, CatalogKey(url)) }

  /** Every recorded hit has its catalog_fetch row. */
  ghost predicate PromisesKept(w: World) {
    forall u :: u in PromisedUrls(w.probes) ==> Kept(w.t, u)
  }

  /** A Resume behind its Create has its row, and may write it only if it saw it failed. */
  ghost predicate MidCall(h: Handler, t: Table, op: Op, at: At)
    requires op.Resume?
  {
    && Kept(t, op.url)
    && (at.Lookup? || (at.Update? && CallOk(t, ResumeOf(h, op), at)))
  }

  ghost predicate WorldOk(h: Handler, w: World, urls: set<string>) {
    && PromisedUrls(w.probes) <= urls
    && (w.phase.Busy? ==>
          && RecordsThenResumes(w.phase.ops) && RecordsOnly(w.phase.ops, urls)
          && (forall u :: u in PromisedUrls(w.probes) ==> Kept(w.t, u) || Resumes(w.phase.ops, u))
          && (w.phase.at.Create? || (w.phase.ops != [] && w.phase.ops[0].Resume? && MidCall(h, w.t, w.phase.ops[0], w.phase.at))))
    && (w.phase.Finished? ==> PromisesKept(w))
  }

  lemma KeptOn(t: Table, u: Table, url: string)
    requires KeysKept(t, u) && Kept(t, url)
    ensures Kept(u, url)
  {
    var i :| 0 <= i < |t| && t[i].key == CatalogKey(url);
    assert u[i].key == CatalogKey(url);
  }

  lemma TailOk(ops: seq<Op>, urls: set<string>)
    requires ops != [] && RecordsThenResumes(ops) && RecordsOnly(ops, urls)
    ensures RecordsThenResumes(ops[1..]) && RecordsOnly(ops[1..], urls)
  {
    var rest := ops[1..];
    forall k | 0 <= k < |rest| && rest[k].Record? && rest[k].probe.hit ensures Resumes(rest[k + 1..], rest[k].probe.url) {
      assert rest[k] == ops[k + 1] && rest[k + 1..] == ops[k + 2..];
    }
  }

  lemma RecordOk(h: Handler, w: World, urls: set<string>)
    requires WorldOk(h, w, urls) && w.phase.Busy? && w.phase.ops != [] && w.phase.ops[0].Record?
    ensures WorldOk(h, Handled(h, w), urls)
  {
    var ops, p := w.phase.ops, w.phase.ops[0].probe;
    TailOk(ops, urls);
    forall u | u in PromisedUrls(w.probes + [p]) ensures u in urls && (Kept(w.t, u) || Resumes(ops[1..], u)) {
      var q :| q in w.probes + [p] && q.hit && q.url == u;
      if q in w.probes {
        assert u in PromisedUrls(w.probes);
        assert Resumes(ops, u) ==> Resumes(ops[1..], u) by {
          if Resumes(ops, u) {
            var k :| 0 <= k < |ops| && ops[k].Resume? && ops[k].url == u;
            assert ops[1..][k - 1] == ops[k];
          }
        }
      }
    }
  }

  /** A statement of Resume keeps every key, never touches a done row, and leaves the row of its own key behind. */
  lemma ResumeStatement(h: Handler, t: Table, op: Op, at: At)
    requires op.Resume? && (at.Create? || MidCall(h, t, op, at))
    ensures var (u, next) := EnqueueStep(t, ResumeOf(h, op), at, h.hostname);
      && KeysKept(t, u) && Kept(u, op.url)
      && (forall i :: 0 <= i < |t| && t[i].status.Done? ==> u[i] == t[i])
      && (next.Continue? ==> MidCall(h, u, op, next.at))
  {
    ItemKey(h.host, op.via, op.url, h.runId);
    var (u, next) := EnqueueStep(t, ResumeOf(h, op), at, h.hostname);
    if at.Create? {
      assert next.Return? ==> u[|t|].key == CatalogKey(op.url);
    } else {
      KeptOn(t, u, op.url);
    }
  }

  lemma ResumeOk(h: Handler, w: World, urls: set<string>)
    requires WorldOk(h, w, urls) && w.phase.Busy? && w.phase.ops != [] && w.phase.ops[0].Resume?
    ensures WorldOk(h, Handled(h, w), urls)
  {
    hide EnqueueStep;
    var ops := w.phase.ops;
    var u := Handled(h, w).t;
    ResumeStatement(h, w.t, ops[0], w.phase.at);
    TailOk(ops, urls);
    forall url | url in PromisedUrls(w.probes) ensures Kept(u, url) || Resumes(ops[1..], url) {
      if Kept(w.t, url) {
        KeptOn(w.t, u, url);
      } else {
        var k :| 0 <= k < |ops| && ops[k].Resume? && ops[k].url == url;
        assert k > 0 ==> ops[1..][k - 1] == ops[k];
      }
    }
  }

  lemma OthersOk(h: Handler, w: World, t: Table, urls: set<string>)
    requires WorldOk(h, w, urls) && KeysKept(w.t, t)
    ensures WorldOk(h, w.(t := t), urls)
  {
    forall url | Kept(w.t, url) ensures Kept(t, url) {
      KeptOn(w.t, t, url);
    }
  }

  lemma EventOk(h: Handler, w: World, e: Event, urls: set<string>)
    requires WorldOk(h, w, urls) && Possible(w, e) && (e.Start? ==> AnswerUrls(e.answers) == urls)
    ensures WorldOk(h, After(h, w, e), urls)
  {
    match e
    case Start(answers) => ProbeOpsOk(answers, urls);
    case Skip => KnownOpsOk(w.probes);
    case Handle =>
      if w.phase.ops[0].Record? {
        RecordOk(h, w, urls);
      } else {
        ResumeOk(h, w, urls);
      }
    case Others(t) => OthersOk(h, w, t, urls);
    case Return(_) =>
    case Crash =>
  }

  /**
   Recovery of probe promises. Whatever crashes, skips and repetitions there were
   and whatever everybody else did in between: once the host_probe row is done,
   every hit this handler ever recorded has its catalog_fetch row.
   */
  lemma DoneMeansPromisesKept(h: Handler, run: seq<World>, events: seq<Event>, urls: set<string>, k: nat)
    requires IsHistory(h, run, events) && StableAnswers(events, urls) && k < |run|
    requires run[0].phase.Idle? && PromisedUrls(run[0].probes) <= urls
    ensures run[k].phase.Finished? ==> PromisesKept(run[k])
  {
    hide After;
    var ok := (w: World) => WorldOk(h, w, urls);
    forall m | 0 <= m && m + 1 < |run| && ok(run[m]) ensures ok(run[m + 1]) {
      EventOk(h, run[m], events[m], urls);
    }
    KeptAlongRun(run, ok, k);
  }

  /** On the way no statement of the handler changes a done row, so no completed catalog_fetch is run again. */
  lemma NoDoneRowRevived(h: Handler, run: seq<World>, events: seq<Event>, urls: set<string>, k: nat, i: nat)
    requires IsHistory(h, run, events) && StableAnswers(events, urls) && k < |events|
    requires run[0].phase.Idle? && PromisedUrls(run[0].probes) <= urls
    requires !events[k].Others? && i < |run[k].t| && run[k].t[i].status.Done?
    ensures i < |run[k + 1].t| && run[k + 1].t[i] == run[k].t[i]
  {
    hide EnqueueStep;
    var ok := (w: World) => WorldOk(h, w, urls);
    forall m | 0 <= m && m + 1 < |run| && ok(run[m]) ensures ok(run[m + 1]) {
      EventOk(h, run[m], events[m], urls);
    }
    KeptAlongRun(run, ok, k);
    if events[k].Handle? && run[k].phase.ops[0].Resume? {
      ResumeStatement(h, run[k].t, run[k].phase.ops[0], run[k].phase.at);
    }
  }

  // -- One undisturbed attempt -------------------------------------------------------------

  datatype Tables = Tables(probes: seq<ProbeRow>, t: Table)

  function Perform(h: Handler, s: Tables, op: Op): Tables {
    match op
    case Record(p) => s.(probes := s.probes + [p])
    case Resume(_, _) => s.(t := Enqueue(s.t, ResumeOf(h, op), h.hostname).0)
  }

  function PerformAll(h: Handler, s: Tables, ops: seq<Op>): Tables {
    if ops == [] then s else Perform(h, PerformAll(h, s, ops[..|ops| - 1]), ops[|ops| - 1])
  }

  lemma {:induction false} PerformAllAppend(h: Handler, s: Tables, a: seq<Op>, b: seq<Op>)
    ensures PerformAll(h, s, a + b) == PerformAll(h, PerformAll(h, s, a), b)
  {
    if b == [] {
      assert a + b == a;
    } else {
      var n := |b| - 1;
      assert (a + b)[..|a| + n] == a + b[..n];
      PerformAllAppend(h, s, a, b[..n]);
    }
  }

  lemma PerformOne(h: Handler, s: Tables, ops: seq<Op>, op: Op)
    ensures PerformAll(h, s, ops + [op]) == Perform(h, PerformAll(h, s, ops), op)
  {
    assert (ops + [op])[..|ops|] == ops;
  }

  lemma ProbeOpsNext(answers: seq<Answer>, i: nat)
    requires i < |answers|
    ensures ProbeOps(answers[..i + 1]) == ProbeOps(answers[..i]) + AnswerOps(answers[i])
  {
    assert answers[..i + 1][..i] == answers[..i];
  }

  lemma NoAnswers(h: Handler, s: Tables, answers: seq<Answer>)
    requires answers == []
    ensures PerformAll(h, s, ProbeOps(answers)) == s
  {
  }

  predicate Skips(force: bool, attempts: nat, recent: bool) { !force && attempts == 0 && recent }

  function AttemptOps(skips: bool, probes: seq<ProbeRow>, answers: seq<Answer>): seq<Op> {
    if skips then KnownOps(probes) else ProbeOps(answers)
  }

  // -- Without stable answers ----------------------------------------------------------------

  lemma KeyOfUrl(a: string, b: string)
    ensures CatalogKey(a) == CatalogKey(b) <==> a == b
  {
    var head := KindName(CatalogFetch) + ":";
    assert CatalogKey(a) == head + a && CatalogKey(b) == head + b;
    assert a == (head + a)[|head|..] && b == (head + b)[|head|..];
  }

  lemma ResumeAdds(h: Handler, t: Table, op: Op, url: string)
    requires op.Resume?
    ensures Kept(Enqueue(t, ResumeOf(h, op), h.hostname).0, url) <==> Kept(t, url) || op.url == url
  {
    var c := ResumeOf(h, op);
    var u := Enqueue(t, c, h.hostname).0;
    ResumeKeys(h, t, op);
    KeyOfUrl(op.url, url);
    hide Enqueue, ResumeOf, CatalogKey;
    if Kept(t, url) {
      KeptOn(t, u, url);
    }
    if Kept(u, url) {
      var i :| 0 <= i < |u| && u[i].key == CatalogKey(url);
      assert i < |t| ==> t[i].key == CatalogKey(url);
    }
  }

  /** The keys behind a Resume: those from before, and its own at the end if it was not there. */
  lemma ResumeKeys(h: Handler, t: Table, op: Op)
    requires op.Resume?
    ensures var u := Enqueue(t, ResumeOf(h, op), h.hostname).0;
      && KeysKept(t, u) && Kept(u, op.url)
      && forall i :: |t| <= i < |u| ==> u[i].key == CatalogKey(op.url)
  {
    var c := ResumeOf(h, op);
    var u := Enqueue(t, c, h.hostname).0;
    EnqueueOutcome(t, c, h.hostname);
    ItemKey(h.host, op.via, op.url, h.runId);
    hide CatalogKey;
    if Kept(t, op.url) {
      KeptOn(t, u, op.url);
    } else {
      assert u[|t|].key == CatalogKey(op.url);
    }
  }

  lemma {:induction false} PerformedRows(h: Handler, s: Tables, ops: seq<Op>, url: string)
    ensures Kept(PerformAll(h, s, ops).t, url) <==> Kept(s.t, url) || Resumes(ops, url)
  {
    if ops != [] {
      var n := |ops| - 1;
      var before := PerformAll(h, s, ops[..n]);
      PerformedRows(h, s, ops[..n], url);
      assert ops == ops[..n] + [ops[n]];
      assert Resumes(ops, url) <==> Resumes(ops[..n], url) || (ops[n].Resume? && ops[n].url == url) by {
        assert [ops[n]][0] == ops[n];
        if Resumes(ops[..n], url) || Resumes([ops[n]], url) {
          ResumesLater(ops[..n], [ops[n]], url);
        }
        if Resumes(ops, url) {
          var k :| 0 <= k < |ops| && ops[k].Resume? && ops[k].url == url;
          assert k < n ==> ops[..n][k] == ops[k];
        }
      }
      if ops[n].Resume? {
        ResumeAdds(h, before.t, ops[n], url);
      }
    }
  }

  lemma {:induction false} PerformedHits(h: Handler, s: Tables, ops: seq<Op>)
    ensures forall u :: u in PromisedUrls(PerformAll(h, s, ops).probes) ==>
      u in PromisedUrls(s.probes) || exists k :: 0 <= k < |ops| && ops[k].Record? && ops[k].probe.hit && ops[k].probe.url == u
    ensures PromisedUrls(s.probes) <= PromisedUrls(PerformAll(h, s, ops).probes)
  {
    hide Enqueue;
    if ops != [] {
      var n := |ops| - 1;
      var before := PerformAll(h, s, ops[..n]);
      PerformedHits(h, s, ops[..n]);
      forall u | u in PromisedUrls(PerformAll(h, s, ops).probes)
        ensures u in PromisedUrls(s.probes) || exists k :: 0 <= k < |ops| && ops[k].Record? && ops[k].probe.hit && ops[k].probe.url == u
      {
        var q :| q in PerformAll(h, s, ops).probes && q.hit && q.url == u;
        if q in before.probes {
          assert u in PromisedUrls(before.probes);
          if u !in PromisedUrls(s.probes) {
            var k :| 0 <= k < n && ops[..n][k].Record? && ops[..n][k].probe.hit && ops[..n][k].probe.url == u;
            assert ops[k] == ops[..n][k];
          }
        } else {
          assert ops[n].Record? && ops[n].probe == q;
        }
      }
      assert forall q :: q in before.probes ==> q in PerformAll(h, s, ops).probes;
    }
  }

  lemma {:induction false} UrlsResumeOnly(via: string, urls: seq<string>, url: string)
    requires Resumes(UrlOps(via, urls), url)
    ensures url in urls
  {
    var n := |urls| - 1;
    var before, ops := UrlOps(via, urls[..n]), UrlOps(via, urls);
    var k :| 0 <= k < |ops| && ops[k].Resume? && ops[k].url == url;
    if k < |before| {
      assert before[k] == ops[k];
      UrlsResumeOnly(via, urls[..n], url);
    } else {
      assert ops[k].url == urls[n];
    }
  }

  lemma {:induction false} ProbeResumesOnly(answers: seq<Answer>, url: string)
    ensures Resumes(ProbeOps(answers), url) ==> url in AnswerUrls(answers)
  {
    if Resumes(ProbeOps(answers), url) {
      var n := |answers| - 1;
      var a := answers[n];
      var before, ops := ProbeOps(answers[..n]), ProbeOps(answers);
      var k :| 0 <= k < |ops| && ops[k].Resume? && ops[k].url == url;
      if k < |before| {
        assert before[k] == ops[k];
        ProbeResumesOnly(answers[..n], url);
        var b :| b in answers[..n] && b.hit && url in b.catalogURLs;
        assert b in answers;
      } else {
        assert AnswerOps(a)[k - |before|] == ops[k];
        UrlsResumeOnly(a.via, a.catalogURLs, url);
        assert a in answers;
      }
    }
  }

  lemma FullProbeRows(h: Handler, s: Tables, answers: seq<Answer>, url: string)
    ensures Kept(PerformAll(h, s, ProbeOps(answers)).t, url) <==> Kept(s.t, url) || url in AnswerUrls(answers)
  {
    hide PerformAll, Kept;
    ProbeOpsOk(answers, AnswerUrls(answers));
    ProbeResumesOnly(answers, url);
    PerformedRows(h, s, ProbeOps(answers), url);
  }

  lemma FullProbeHits(h: Handler, s: Tables, answers: seq<Answer>)
    ensures var end := PerformAll(h, s, ProbeOps(answers));
      PromisedUrls(s.probes) <= PromisedUrls(end.probes) <= PromisedUrls(s.probes) + AnswerUrls(answers)
  {
    hide PerformAll;
    var ops := ProbeOps(answers);
    ProbeOpsOk(answers, AnswerUrls(answers));
    PerformedHits(h, s, ops);
    forall u | u in PromisedUrls(PerformAll(h, s, ops).probes) && u !in PromisedUrls(s.probes) ensures u in AnswerUrls(answers) {
      var k :| 0 <= k < |ops| && ops[k].Record? && ops[k].probe.hit && ops[k].probe.url == u;
    }
  }

  /**
   The exact condition, for answers that may change from attempt to attempt: an
   undisturbed full probe leaves every recorded hit with its row if and only if
   each hit that an earlier attempt left without one is found again.
   */
  lemma FullProbeKeepsPromisesExactly(h: Handler, s: Tables, answers: seq<Answer>)
    ensures var end := PerformAll(h, s, ProbeOps(answers));
      (forall u :: u in PromisedUrls(end.probes) ==> Kept(end.t, u))
      <==> (forall u :: u in PromisedUrls(s.probes) ==> Kept(s.t, u) || u in AnswerUrls(answers))
  {
    hide PerformAll, Kept, PromisedUrls, AnswerUrls;
    FullProbeHits(h, s, answers);
    forall u ensures Kept(PerformAll(h, s, ProbeOps(answers)).t, u) <==> Kept(s.t, u) || u in AnswerUrls(answers) {
      FullProbeRows(h, s, answers, u);
    }
  }

  // -- A promise that is lost --------------------------------------------------------------------

  /** The leased row of the host_probe item itself. */
  function HostProbeRow(h: Handler): Row {
    var none := Provenance(None, None, None, None, None, "");
    LeaseRow(NewRow(BuildItem(HostProbe, "", h.host, 0, none, h.runId), h.hostname), "w", 0)
  }

  lemma Then(h: Handler, run: seq<World>, events: seq<Event>, e: Event) returns (run': seq<World>, events': seq<Event>)
    requires IsHistory(h, run, events) && Possible(run[|run| - 1], e)
    ensures IsHistory(h, run', events') && run'[0] == run[0]
    ensures run'[|run'| - 1] == After(h, run[|run| - 1], e)
  {
    run', events' := run + [After(h, run[|run| - 1], e)], events + [e];
  }

  /**
   A full probe finds a catalog and records the hit; the process dies before the
   resume; the next full probe, retried or forced, does not find it and succeeds.
   The host_probe row is done, the hit is on record, and there is no catalog_fetch row.
   */
  lemma PromiseLost(h: Handler, via: string, url: string) returns (run: seq<World>, events: seq<Event>)
    ensures IsHistory(h, run, events) && run[0] == World([], [HostProbeRow(h)], Idle)
    ensures var last := run[|run| - 1];
      && last.phase.Finished? && last.t == [Released(HostProbeRow(h), Done)]
      && url in PromisedUrls(last.probes) && !Kept(last.t, url)
  {
    var hit, miss := ProbeRow(via, url, true), ProbeRow(via, url, false);
    var t := [HostProbeRow(h)];
    OneHitOps(via, url);
    OneMissOps(via, url);
    run, events := [World([], t, Idle)], [];
    assert IsHistory(h, run, events);
    assert url in PromisedUrls([] + [hit] + [miss]) by {
      assert hit in [] + [hit] + [miss];
    }
    hide IsHistory, Kept, ProbeOps, HostProbeRow, PromisedUrls;
    run, events := Then(h, run, events, Start([Answer(via, true, "", [url], false)]));
    run, events := Then(h, run, events, Handle);
    run, events := Then(h, run, events, Event.Crash);
    run, events := Then(h, run, events, Start([Answer(via, false, url, [], false)]));
    run, events := Then(h, run, events, Handle);
    run, events := Then(h, run, events, Event.Return(true));
    run, events := Then(h, run, events, Others([Released(HostProbeRow(h), Done)]));
    NotACatalogRow(h, url);
  }

  lemma OneMissOps(via: string, url: string)
    ensures ProbeOps([Answer(via, false, url, [], false)]) == [Record(ProbeRow(via, url, false))]
  {
    assert [Answer(via, false, url, [], false)][..0] == [];
  }

  lemma OneHitOps(via: string, url: string)
    ensures ProbeOps([Answer(via, true, "", [url], false)]) == [Record(ProbeRow(via, url, true)), Resume(via, url)]
  {
    var a := Answer(via, true, "", [url], false);
    assert [a][..0] == [] && [url][..0] == [];
    assert UrlOps(via, [url]) == [] + [Record(ProbeRow(via, url, true)), Resume(via, url)];
  }

  lemma NotACatalogRow(h: Handler, url: string)
    ensures !Kept([Released(HostProbeRow(h), Done)], url)
  {
    var none := Provenance(None, None, None, None, None, "");
    BuiltKeyOfKind(HostProbe, "", h.host, none);
    BuiltKeyOfKind(CatalogFetch, url, "", none);
    hide Key;
    if Kept([Released(HostProbeRow(h), Done)], url) {
      OneKindPerKey(CatalogKey(url), HostProbe, CatalogFetch);
    }
  }
}
