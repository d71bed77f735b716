/** What the dedup key means in the table: one row per kind, URL or host, and relationship. */
module RelationRows {
  import opened Basics
  import opened FrontierTable
  import opened FrontierSystem
  import opened DedupKey

  predicate Built(k: Kind, url: string, host: string, p: Provenance, key: string) {
    key == Key(k, url, host, p) && Clean(k, url, host, p)
  }

  predicate RowBuilt(r: Row) { Built(r.kind, r.url, r.host, r.prov, r.key) }

  predicate ItemBuilt(item: Item) { Built(item.kind, item.url, item.host, item.prov, item.key) }

  /** Every row, and every item an enqueue call is at work on, has the key of its own columns. */
  ghost predicate StateBuilt(s: State) {
    && (forall i :: 0 <= i < |s.t| ==> RowBuilt(s.t[i]))
    && forall p :: 0 <= p < |s.procs| && s.procs[p].doing.Calling? ==> ItemBuilt(s.procs[p].doing.call.item)
  }

  /** The item is one that buildItem makes, whatever priority it is given afterwards. */
  predicate OfBuildItem(item: Item) {
    && item == BuildItem(item.kind, item.url, item.host, item.depth, item.prov, item.runId).(priority := item.priority)
    && Clean(item.kind, item.url, item.host, item.prov)
  }

  /** Every enqueue call is given such an item. */
  predicate BuildsItems(step: Step) { step.Begin? ==> OfBuildItem(step.call.item) }

  lemma BuildItemBuilds(item: Item)
    requires OfBuildItem(item)
    ensures ItemBuilt(item)
  {
  }

  /** Re-activation adopts the item's provenance and keeps URL, host and key; the key is still the row's own. */
  lemma ReactivatedStaysBuilt(r: Row, item: Item)
    requires RowBuilt(r) && ItemBuilt(item) && r.key == item.key
    ensures RowBuilt(Reactivated(r, item))
  {
    hide Key, Clean;
    KeyInjective(r.kind, r.url, r.host, r.prov, item.kind, item.url, item.host, item.prov);
    SameParts(r, item);
  }

  lemma SameParts(r: Row, item: Item)
    requires r.kind == item.kind && Natural(r.kind, r.url, r.host) == Natural(item.kind, item.url, item.host)
    ensures Key(r.kind, r.url, r.host, item.prov) == Key(item.kind, item.url, item.host, item.prov)
    ensures Clean(item.kind, item.url, item.host, item.prov) ==> Clean(r.kind, r.url, r.host, item.prov)
  {
  }

  lemma StatementStaysBuilt(t: Table, c: Call, at: At, hostname: string -> string)
    requires (forall i :: 0 <= i < |t| ==> RowBuilt(t[i])) && ItemBuilt(c.item) && CallOk(t, c, at)
    ensures var u := EnqueueStep(t, c, at, hostname).0; forall i :: 0 <= i < |u| ==> RowBuilt(u[i])
  {
    if at.Update? {
      ReactivatedStaysBuilt(t[at.id], c.item);
    }
  }

  /** The columns a key is made of. */
  predicate SameColumns(r: Row, r': Row) {
    r'.kind == r.kind && r'.url == r.url && r'.host == r.host && r'.prov == r.prov && r'.key == r.key
  }

  lemma OthersKeepColumns(s: State, step: Step, hostname: string -> string)
    requires Enabled(s, step) && !step.Advance?
    ensures var u := TableAfter(s, step, hostname); |u| == |s.t| && forall i :: 0 <= i < |u| ==> SameColumns(s.t[i], u[i])
  {
  }

  lemma ProcsStayBuilt(s: State, step: Step, hostname: string -> string)
    requires Enabled(s, step) && StateBuilt(s) && BuildsItems(step)
    ensures var procs := ProcsAfter(s, step, hostname);
      forall p :: 0 <= p < |procs| && procs[p].doing.Calling? ==> ItemBuilt(procs[p].doing.call.item)
  {
    if step.Begin? {
      BuildItemBuilds(step.call.item);
    }
    hide RowBuilt, ItemBuilt, OfBuildItem, EnqueueStep;
  }

  lemma StepStaysBuilt(s: State, step: Step, hostname: string -> string)
    requires StateOk(s, hostname) && Enabled(s, step) && StateBuilt(s) && BuildsItems(step)
    ensures StateBuilt(Apply(s, step, hostname))
  {
    hide ItemBuilt, OfBuildItem, ProcsAfter, EnqueueStep, Key, Clean;
    ProcsStayBuilt(s, step, hostname);
    if step.Advance? {
      var d := s.procs[step.p].doing;
      StatementStaysBuilt(s.t, d.call, d.at, hostname);
    } else {
      OthersKeepColumns(s, step, hostname);
      hide TableAfter;
    }
  }

  /**
   Over every run: each row's key is the key of its own columns, through
   re-activation too, and no two rows agree on kind, on URL (host for a
   host_probe) and on the relationship.
   */
  lemma OneRowPerRelation(run: seq<State>, steps: seq<Step>, hostname: string -> string, k: nat)
    requires IsRun(run, steps, hostname) && StateOk(run[0], hostname) && StateBuilt(run[0]) && k < |run|
    requires forall m :: 0 <= m < |steps| ==> BuildsItems(steps[m])
    ensures forall i :: 0 <= i < |run[k].t| ==> RowBuilt(run[k].t[i])
    ensures forall i, j :: 0 <= i < j < |run[k].t| ==> !SameWork(run[k].t[i], run[k].t[j])
  {
    hide Apply, RowBuilt, ItemBuilt, OfBuildItem, SameWork;
    var ok := (s: State) => StateOk(s, hostname) && StateBuilt(s);
    forall m | 0 <= m && m + 1 < |run| && ok(run[m]) ensures ok(run[m + 1]) {
      StepOk(run[m], steps[m], hostname);
      StepStaysBuilt(run[m], steps[m], hostname);
    }
    KeptAlongRun(run, ok, k);
    var t := run[k].t;
    forall i, j | 0 <= i < j < |t| ensures !SameWork(t[i], t[j]) {
      if SameWork(t[i], t[j]) {
        SameWorkSameKey(t[i], t[j]);
      }
    }
  }

  predicate SameWork(r: Row, r': Row) {
    && r.kind == r'.kind
    && Natural(r.kind, r.url, r.host) == Natural(r'.kind, r'.url, r'.host)
    && RelationOf(r.kind, r.prov) == RelationOf(r'.kind, r'.prov)
  }

  lemma SameWorkSameKey(r: Row, r': Row)
    requires RowBuilt(r) && RowBuilt(r') && SameWork(r, r')
    ensures r.key == r'.key
  {
  }
}
