/**
 Why a crawl drains: a weight over live rows and open handlers that every step
 strictly lowers, whatever the interleaving, unless it hands a row back, which
 costs the price of one attempt at most.
 */
module BoundedWork {
  import opened Basics
  import opened FrontierTable
  import opened DedupKey
  import opened FrontierSystem
  import opened EnqueueRaces
  import opened Quiescence

  /** The configured depth budgets, the most enqueue calls one handler call makes, and the retry cap. */
  datatype Limits = Limits(pageDepth: nat, catalogDepth: nat, referralDepth: nat, children: nat, attempts: nat)

  function Left(depth: nat, limit: nat): nat {
    if depth >= limit then 0 else limit - depth
  }

  function Rank(kind: Kind, depth: nat, lim: Limits): nat {
    match kind
    case ArtifactFetch => 0
    case RegistryHarvest => 1 + Left(depth, lim.referralDepth + 1)
    case CatalogFetch => lim.referralDepth + 3 + Left(depth, lim.catalogDepth)
    case HostProbe => lim.referralDepth + lim.catalogDepth + 4
    case PageFetch => lim.referralDepth + lim.catalogDepth + 5 + Left(depth, lim.pageDepth)
  }

  /**
   What a handler of (kind, depth) may enqueue. Registry results that are
   catalog pointers are excluded: they re-enter catalogs at depth 0.
   */
  predicate ChildOf(kind: Kind, depth: nat, child: Kind, childDepth: nat, lim: Limits) {
    match kind
    case PageFetch => child.PageFetch? ==> depth < lim.pageDepth && childDepth == depth + 1
    case HostProbe => child.CatalogFetch? && childDepth == 0
    case CatalogFetch =>
      && depth < lim.catalogDepth
      && (match child
          case CatalogFetch => depth < childDepth <= lim.catalogDepth
          case RegistryHarvest => childDepth == 0
          case ArtifactFetch => true
          case _ => false)
    case RegistryHarvest => child.RegistryHarvest? && depth <= lim.referralDepth && childDepth == depth + 1
    case ArtifactFetch => false
  }

  lemma ChildRanksLower(kind: Kind, depth: nat, child: Kind, childDepth: nat, lim: Limits)
    requires ChildOf(kind, depth, child, childDepth, lim)
    ensures Rank(child, childDepth, lim) < Rank(kind, depth, lim)
  {
  }

  /** The price of one attempt at a row of this rank: its own steps and all that its children may cost. */
  function Price(rank: nat, lim: Limits): nat {
    3 + lim.children * (7 + lim.attempts * (if rank == 0 then 0 else Price(rank - 1, lim)))
  }

  /** The price of one enqueue call by a handler of this rank. */
  function CallPrice(rank: nat, lim: Limits): nat {
    7 + ChildPrice(rank, lim)
  }

  function ChildPrice(rank: nat, lim: Limits): nat {
    lim.attempts * (if rank == 0 then 0 else Price(rank - 1, lim))
  }

  lemma {:induction false} PriceGrows(a: nat, b: nat, lim: Limits)
    requires a <= b
    ensures Price(a, lim) <= Price(b, lim)
    decreases b
  {
    if a < b {
      PriceGrows(if a == 0 then 0 else a - 1, b - 1, lim);
      var x, y := (if a == 0 then 0 else Price(a - 1, lim)), Price(b - 1, lim);
      TimesGrows(lim.attempts, x, y);
      TimesGrows(lim.children, 7 + lim.attempts * x, 7 + lim.attempts * y);
    }
  }

  lemma TimesGrows(m: nat, x: nat, y: nat)
    requires x <= y
    ensures m * x <= m * y
  {
  }

  function RowRank(r: Row, lim: Limits): nat { Rank(r.kind, r.depth, lim) }

  function Weight(r: Row, lim: Limits): nat {
    match r.status
    case Pending => Left(r.attempts, lim.attempts) * Price(RowRank(r, lim), lim)
    case InFlight => Left(r.attempts + 1, lim.attempts) * Price(RowRank(r, lim), lim)
    case _ => 0
  }

  function RowWeight(lim: Limits): Row -> nat { (r: Row) => Weight(r, lim) }

  function HandlerWeight(q: Proc, lim: Limits): nat {
    if q.held.None? || q.doing.Gone? then 0
    else
      var rank := Rank(q.held.value.kind, q.held.value.depth, lim);
      var rest := Left(q.begun, lim.children) * CallPrice(rank, lim);
      match q.doing
      case Working => 2 + rest
      case Failing(_, _, _) => 1 + rest
      case Calling(_, at) => 2 + rest + Fuel(at) + ChildPrice(rank, lim)
      case Gone => 0
  }

  function ProcWeight(lim: Limits): Proc -> nat { (q: Proc) => HandlerWeight(q, lim) }

  function TotalWeight(s: State, lim: Limits): nat {
    Sum(s.t, RowWeight(lim)) + Sum(s.procs, ProcWeight(lim))
  }

  // -- The invariant -----------------------------------------------------------------

  ghost predicate ProcOk(s: State, q: Proc, lim: Limits) {
    && q.held.Some? && q.held.value.id < |s.t|
    && q.begun <= lim.children
    && (q.doing.Calling? ==>
          && KeyOfKind(q.doing.call.item.key, q.doing.call.item.kind)
          && ChildOf(q.held.value.kind, q.held.value.depth, q.doing.call.item.kind, q.doing.call.item.depth, lim))
    && (q.doing.Failing? ==>
          q.doing.attempts == s.t[q.held.value.id].attempts + 1 && q.doing.maxAttempts <= lim.attempts)
  }

  ghost predicate LiveRowOk(r: Row, lim: Limits) {
    && KeyOfKind(r.key, r.kind)
    && (!Finished(r.status) ==> r.attempts < lim.attempts)
  }

  ghost predicate WorkOk(s: State, lim: Limits, hostname: string -> string) {
    && StateOk(s, hostname) && HandlersHold(s)
    && (forall i :: 0 <= i < |s.t| ==> LiveRowOk(s.t[i], lim))
    && (forall p :: 0 <= p < |s.procs| && Alive(s, p) ==> ProcOk(s, s.procs[p], lim))
  }

  /** The handlers' own steps, as far as they finish their items, and non-empty dequeues. */
  ghost predicate Productive(s: State, step: Step, lim: Limits) {
    match step
    case Dequeue(_, _, ids, _, _) => ids != []
    case Begin(p, call) =>
      && p < |s.procs| && s.procs[p].held.Some?
      && s.procs[p].begun < lim.children
      && KeyOfKind(call.item.key, call.item.kind)
      && ChildOf(s.procs[p].held.value.kind, s.procs[p].held.value.depth, call.item.kind, call.item.depth, lim)
    case Advance(_) => true
    case Complete(_) => true
    case FailRead(_, m, _) => m <= lim.attempts
    case FailWrite(_) => true
    case _ => false
  }

  /** A crash, a handler that is interrupted, or a reclaim of what crashed handlers have left. */
  ghost predicate Setback(s: State, step: Step) {
    match step
    case Crash(_) => true
    case Requeue(_) => true
    case Reclaim(_, now) => Closed(s, step) && exists i :: 0 <= i < |s.t| && Expired(s.t[i], now)
    case _ => false
  }

  /** A step of a crawl that is not seeded and takes no lease from a live handler. */
  ghost predicate Fair(s: State, step: Step, lim: Limits) {
    Productive(s, step, lim) || Setback(s, step)
  }

  function IsExpired(now: int): Row -> nat { (r: Row) => if Expired(r, now) then 1 else 0 }

  /** How many leased rows a step hands out again without using up an attempt. */
  function HandedBack(s: State, step: Step): nat {
    match step
    case Requeue(_) => 1
    case Reclaim(_, now) => Sum(s.t, IsExpired(now))
    case _ => 0
  }

  // -- Each step lowers the weight -----------------------------------------------------

  lemma OneLess(n: nat, limit: nat, x: nat)
    requires n < limit
    ensures Left(n, limit) * x == Left(n + 1, limit) * x + x
  {
  }

  /** Leasing a pending row turns one of its attempts into its handler's allowance, and one unit falls off. */
  lemma LeaseLowers(r: Row, id: nat, w: string, until: int, lim: Limits)
    requires r.status.Pending? && r.attempts < lim.attempts
    ensures Weight(LeaseRow(r, w, until), lim) + HandlerWeight(Proc(w, Some(Held(id, r.kind, r.depth)), Working, 0), lim) + 1
         == Weight(r, lim)
  {
    OneLess(r.attempts, lim.attempts, Price(RowRank(r, lim), lim));
  }

  lemma CallLowers(q: Proc, call: Call, lim: Limits)
    requires q.held.Some? && q.doing.Working? && q.begun < lim.children
    ensures HandlerWeight(q.(doing := Calling(call, FirstStatement(call)), begun := q.begun + 1), lim) < HandlerWeight(q, lim)
  {
    OneLess(q.begun, lim.children, CallPrice(Rank(q.held.value.kind, q.held.value.depth, lim), lim));
  }

  /** A call that returns leaves what it had set aside for the row it may have activated. */
  lemma ReturnLeaves(q: Proc, lim: Limits)
    requires q.held.Some? && q.doing.Calling?
    ensures HandlerWeight(q.(doing := Working), lim) + ChildPrice(Rank(q.held.value.kind, q.held.value.depth, lim), lim)
          < HandlerWeight(q, lim)
  {
  }

  lemma ContinueLowers(q: Proc, at: At, lim: Limits)
    requires q.held.Some? && q.doing.Calling? && Fuel(at) < Fuel(q.doing.at)
    ensures HandlerWeight(q.(doing := Calling(q.doing.call, at)), lim) < HandlerWeight(q, lim)
  {
  }

  /** A row that a call inserts or revives costs no more than the call had set aside for it. */
  lemma ActivationFits(q: Held, item: Item, r: Row, lim: Limits)
    requires ChildOf(q.kind, q.depth, item.kind, item.depth, lim)
    requires r.kind == item.kind && r.depth == item.depth && r.attempts == 0 && r.status.Pending?
    ensures Weight(r, lim) <= ChildPrice(Rank(q.kind, q.depth, lim), lim)
  {
    ChildRanksLower(q.kind, q.depth, item.kind, item.depth, lim);
    PriceGrows(RowRank(r, lim), Rank(q.kind, q.depth, lim) - 1, lim);
    TimesGrows(lim.attempts, Price(RowRank(r, lim), lim), Price(Rank(q.kind, q.depth, lim) - 1, lim));
  }

  /** Failing a leased row with attempts to spare keeps the weight of the attempts that remain. */
  lemma FailKeeps(r: Row, maxAttempts: int, message: string, lim: Limits)
    requires r.status.InFlight? && r.attempts < lim.attempts && maxAttempts <= lim.attempts
    ensures Weight(Released(r, FailStatus(r.attempts + 1, maxAttempts)).(attempts := r.attempts + 1, lastError := message), lim)
         <= Weight(r, lim)
  {
  }

  // -- Lifted to the whole state --------------------------------------------------------

  lemma {:induction false} LeaseWeight(t: Table, ids: seq<nat>, w: string, until: int, lim: Limits)
    requires Distinct(ids)
    requires forall k :: 0 <= k < |ids| ==> ids[k] < |t| && t[ids[k]].status.Pending? && t[ids[k]].attempts < lim.attempts
    ensures Sum(LeaseAll(t, ids, w, until), RowWeight(lim)) + Sum(Handlers(t, ids, w), ProcWeight(lim)) + |ids|
         == Sum(t, RowWeight(lim))
    decreases |ids|
  {
    if ids != [] {
      var i, rest := ids[0], ids[1..];
      var t1 := t[i := LeaseRow(t[i], w, until)];
      forall k | 0 <= k < |rest| ensures rest[k] != i && rest[k] < |t| && t1[rest[k]] == t[rest[k]] {
        assert rest[k] == ids[k + 1];
      }
      assert Distinct(rest);
      LeaseWeight(t1, rest, w, until, lim);
      assert Handlers(t1, rest, w) == Handlers(t, ids, w)[1..];
      SumUpdate(t, i, LeaseRow(t[i], w, until), RowWeight(lim));
      LeaseLowers(t[i], i, w, until, lim);
      assert ProcWeight(lim)(Handlers(t, ids, w)[0]) ==
        HandlerWeight(Proc(w, Some(Held(i, t[i].kind, t[i].depth)), Working, 0), lim);
    }
  }

  lemma DequeueLowers(s: State, step: Step, lim: Limits, hostname: string -> string)
    requires WorkOk(s, lim, hostname) && Enabled(s, step) && Productive(s, step, lim) && step.Dequeue?
    ensures TotalWeight(Apply(s, step, hostname), lim) < TotalWeight(s, lim)
  {
    forall k | 0 <= k < |step.ids|
      ensures s.t[step.ids[k]].status.Pending? && s.t[step.ids[k]].attempts < lim.attempts
    {
      assert Eligible(s.t[step.ids[k]], step.count, step.index);
      assert LiveRowOk(s.t[step.ids[k]], lim);
    }
    LeaseWeight(s.t, step.ids, step.worker, step.until, lim);
    SumAppend(s.procs, Handlers(s.t, step.ids, step.worker), ProcWeight(lim));
  }

  /** The weight of the state when one goroutine and at most one row change. */
  lemma OneProcChanges(s: State, p: nat, q: Proc, lim: Limits)
    requires p < |s.procs|
    ensures Sum(s.procs[p := q], ProcWeight(lim)) + HandlerWeight(s.procs[p], lim)
         == Sum(s.procs, ProcWeight(lim)) + HandlerWeight(q, lim)
  {
    SumUpdate(s.procs, p, q, ProcWeight(lim));
  }

  lemma OneRowChanges(t: Table, i: nat, r: Row, lim: Limits)
    requires i < |t|
    ensures Sum(t[i := r], RowWeight(lim)) + Weight(t[i], lim) == Sum(t, RowWeight(lim)) + Weight(r, lim)
  {
    SumUpdate(t, i, r, RowWeight(lim));
  }

  lemma OneRowMore(t: Table, r: Row, lim: Limits)
    ensures Sum(t + [r], RowWeight(lim)) == Sum(t, RowWeight(lim)) + Weight(r, lim)
  {
    SumAppend(t, [r], RowWeight(lim));
    SumOne(r, RowWeight(lim));
  }

  /** The rows after a statement of a handler's call weigh at most what the call had set aside more. */
  lemma StatementFits(t: Table, q: Held, c: Call, at: At, lim: Limits, hostname: string -> string)
    requires CallOk(t, c, at) && KeyOfKind(c.item.key, c.item.kind)
    requires ChildOf(q.kind, q.depth, c.item.kind, c.item.depth, lim)
    requires at.Update? ==> LiveRowOk(t[at.id], lim)
    ensures Sum(EnqueueStep(t, c, at, hostname).0, RowWeight(lim))
         <= Sum(t, RowWeight(lim)) + ChildPrice(Rank(q.kind, q.depth, lim), lim)
  {
    if at.Create? {
      OneRowMore(t, NewRow(c.item, hostname), lim);
      ActivationFits(q, c.item, NewRow(c.item, hostname), lim);
    } else if at.Update? {
      OneKindPerKey(c.item.key, t[at.id].kind, c.item.kind);
      OneRowChanges(t, at.id, Reactivated(t[at.id], c.item), lim);
      ActivationFits(q, c.item, Reactivated(t[at.id], c.item), lim);
    }
  }

  lemma StatementMovesOn(t: Table, c: Call, at: At, hostname: string -> string)
    ensures var (u, next) := EnqueueStep(t, c, at, hostname); next.Continue? ==> u == t && Fuel(next.at) < Fuel(at)
  {
  }

  lemma AdvanceLowers(s: State, step: Step, lim: Limits, hostname: string -> string)
    requires Enabled(s, step) && step.Advance?
    requires ProcOk(s, s.procs[step.p], lim) && CallOk(s.t, s.procs[step.p].doing.call, s.procs[step.p].doing.at)
    requires forall i :: 0 <= i < |s.t| ==> LiveRowOk(s.t[i], lim)
    ensures TotalWeight(Apply(s, step, hostname), lim) < TotalWeight(s, lim)
  {
    var p := step.p;
    var q := s.procs[p];
    var (t', next) := EnqueueStep(s.t, q.doing.call, q.doing.at, hostname);
    StatementMovesOn(s.t, q.doing.call, q.doing.at, hostname);
    if next.Continue? {
      ContinueLowers(q, next.at, lim);
      OneProcChanges(s, p, q.(doing := Calling(q.doing.call, next.at)), lim);
    } else {
      StatementFits(s.t, q.held.value, q.doing.call, q.doing.at, lim, hostname);
      ReturnLeaves(q, lim);
      OneProcChanges(s, p, q.(doing := Working), lim);
    }
  }

  lemma BeginLowers(s: State, step: Step, lim: Limits, hostname: string -> string)
    requires Enabled(s, step) && Productive(s, step, lim) && step.Begin?
    ensures TotalWeight(Apply(s, step, hostname), lim) < TotalWeight(s, lim)
  {
    var q := s.procs[step.p];
    CallLowers(q, step.call, lim);
    OneProcChanges(s, step.p, q.(doing := Calling(step.call, FirstStatement(step.call)), begun := q.begun + 1), lim);
  }

  lemma LeavingLowers(q: Proc, lim: Limits)
    requires q.held.Some? && (q.doing.Working? || q.doing.Failing?)
    ensures HandlerWeight(q.(doing := Gone), lim) == 0 < HandlerWeight(q, lim)
    ensures forall a: nat, m: int, msg: string {:trigger Failing(a, m, msg)} ::
      q.doing.Working? ==> HandlerWeight(q.(doing := Failing(a, m, msg)), lim) < HandlerWeight(q, lim)
  {
  }

  lemma FinishLowers(s: State, step: Step, lim: Limits, hostname: string -> string)
    requires Enabled(s, step) && (step.Complete? || step.FailRead? || step.FailWrite?)
    requires Holds(s, step.p) && ProcOk(s, s.procs[step.p], lim)
    requires LiveRowOk(s.t[s.procs[step.p].held.value.id], lim)
    ensures TotalWeight(Apply(s, step, hostname), lim) < TotalWeight(s, lim)
  {
    hide Price;
    LeavingLowers(s.procs[step.p], lim);
    if step.FailWrite? {
      FailLowers(s, step, lim, hostname);
    } else {
      var p, q := step.p, s.procs[step.p];
      var id := q.held.value.id;
      if step.Complete? {
        OneProcChanges(s, p, q.(doing := Gone), lim);
        OneRowChanges(s.t, id, Released(s.t[id], Done), lim);
      } else {
        OneProcChanges(s, p, q.(doing := Failing(s.t[id].attempts + 1, step.maxAttempts, step.message)), lim);
      }
    }
  }

  lemma FailLowers(s: State, step: Step, lim: Limits, hostname: string -> string)
    requires Enabled(s, step) && step.FailWrite?
    requires Holds(s, step.p) && ProcOk(s, s.procs[step.p], lim)
    requires LiveRowOk(s.t[s.procs[step.p].held.value.id], lim)
    requires HandlerWeight(s.procs[step.p].(doing := Gone), lim) < HandlerWeight(s.procs[step.p], lim)
    ensures TotalWeight(Apply(s, step, hostname), lim) < TotalWeight(s, lim)
  {
    hide Price;
    var p, q := step.p, s.procs[step.p];
    var id := q.held.value.id;
    OneProcChanges(s, p, q.(doing := Gone), lim);
    FailKeeps(s.t[id], q.doing.maxAttempts, q.doing.message, lim);
    OneRowChanges(s.t, id, FailRow(s.t, id, q.worker, q.doing.attempts, q.doing.maxAttempts, q.doing.message)[id], lim);
  }

  /** Every productive step of every interleaving strictly lowers the weight. */
  lemma StepLowers(s: State, step: Step, lim: Limits, hostname: string -> string)
    requires WorkOk(s, lim, hostname) && Enabled(s, step) && Productive(s, step, lim)
    ensures TotalWeight(Apply(s, step, hostname), lim) < TotalWeight(s, lim)
  {
    if step.Dequeue? {
      DequeueLowers(s, step, lim, hostname);
    } else {
      assert Alive(s, step.p) && Holds(s, step.p) && ProcOk(s, s.procs[step.p], lim);
      match step
      case Begin(_, _) => BeginLowers(s, step, lim, hostname);
      case Advance(_) => AdvanceLowers(s, step, lim, hostname);
      case _ => FinishLowers(s, step, lim, hostname);
    }
  }

  // -- What handing back costs ------------------------------------------------------------

  /** No attempt costs more than one at a page of depth 0. */
  function TopPrice(lim: Limits): nat { Price(Rank(PageFetch, 0, lim), lim) }

  lemma HandBackCosts(r: Row, lim: Limits)
    requires r.status.InFlight? && LiveRowOk(r, lim)
    ensures Weight(Released(r, Pending), lim) <= Weight(r, lim) + TopPrice(lim)
  {
    OneLess(r.attempts, lim.attempts, Price(RowRank(r, lim), lim));
    PriceGrows(RowRank(r, lim), Rank(PageFetch, 0, lim), lim);
  }

  lemma {:induction false} ReclaimCosts(t: Table, now: int, lim: Limits)
    requires forall i :: 0 <= i < |t| ==> LiveRowOk(t[i], lim)
    ensures Sum(ReclaimExpired(t, now), RowWeight(lim)) <= Sum(t, RowWeight(lim)) + TopPrice(lim) * Sum(t, IsExpired(now))
  {
    hide LiveRowOk, Weight, TopPrice;
    if t != [] {
      var u := ReclaimExpired(t, now);
      assert u[1..] == ReclaimExpired(t[1..], now);
      forall i | 0 <= i < |t[1..]| ensures LiveRowOk(t[1..][i], lim) {
        assert t[1..][i] == t[i + 1];
      }
      ReclaimCosts(t[1..], now, lim);
      if Expired(t[0], now) {
        HandBackCosts(t[0], lim);
      }
      Distribute(TopPrice(lim), IsExpired(now)(t[0]), Sum(t[1..], IsExpired(now)));
    }
  }

  lemma OneTimesMore(m: nat, n: nat)
    ensures (m + 1) * n == m * n + n
  {
  }

  lemma Distribute(m: nat, x: nat, y: nat)
    ensures m * (x + y) == m * x + m * y
  {
  }

  lemma RequeueCosts(s: State, p: nat, lim: Limits, hostname: string -> string)
    requires Enabled(s, Requeue(p)) && Holds(s, p) && LiveRowOk(s.t[s.procs[p].held.value.id], lim)
    ensures TotalWeight(Apply(s, Requeue(p), hostname), lim) < TotalWeight(s, lim) + TopPrice(lim) + 1
  {
    hide TopPrice, Price, LiveRowOk, Rank;
    var q := s.procs[p];
    var id := q.held.value.id;
    LeavingLowers(q, lim);
    hide HandlerWeight, Weight;
    OneProcChanges(s, p, q.(doing := Gone), lim);
    HandBackCosts(s.t[id], lim);
    OneRowChanges(s.t, id, Released(s.t[id], Pending), lim);
  }

  lemma CrashLowers(s: State, p: nat, lim: Limits, hostname: string -> string)
    requires Enabled(s, Crash(p)) && s.procs[p].held.Some?
    ensures TotalWeight(Apply(s, Crash(p), hostname), lim) < TotalWeight(s, lim)
  {
    hide Price;
    var q := s.procs[p];
    assert HandlerWeight(q.(doing := Gone), lim) < HandlerWeight(q, lim);
    hide HandlerWeight;
    OneProcChanges(s, p, q.(doing := Gone), lim);
  }

  lemma ReclaimLowers(s: State, clock: string, now: int, lim: Limits, hostname: string -> string)
    requires forall i :: 0 <= i < |s.t| ==> LiveRowOk(s.t[i], lim)
    requires exists i :: 0 <= i < |s.t| && Expired(s.t[i], now)
    ensures TotalWeight(Apply(s, Reclaim(clock, now), hostname), lim)
          < TotalWeight(s, lim) + (TopPrice(lim) + 1) * Sum(s.t, IsExpired(now))
  {
    var s' := Apply(s, Reclaim(clock, now), hostname);
    assert s'.t == ReclaimExpired(s.t, now) && s'.procs == s.procs;
    hide TopPrice, LiveRowOk, Apply, ReclaimExpired, Sum;
    var i :| 0 <= i < |s.t| && Expired(s.t[i], now);
    SumAtLeast(s.t, i, IsExpired(now));
    ReclaimCosts(s.t, now, lim);
    OneTimesMore(TopPrice(lim), Sum(s.t, IsExpired(now)));
  }

  lemma SetbackCosts(s: State, step: Step, lim: Limits, hostname: string -> string)
    requires WorkOk(s, lim, hostname) && Enabled(s, step) && Setback(s, step)
    ensures TotalWeight(Apply(s, step, hostname), lim) < TotalWeight(s, lim) + (TopPrice(lim) + 1) * HandedBack(s, step)
  {
    hide TopPrice, TotalWeight, Apply, LiveRowOk, ProcOk;
    if step.Reclaim? {
      ReclaimLowers(s, step.clock, step.now, lim, hostname);
    } else {
      assert Alive(s, step.p) && Holds(s, step.p);
      if step.Crash? {
        CrashLowers(s, step.p, lim, hostname);
      } else {
        RequeueCosts(s, step.p, lim, hostname);
      }
    }
  }

  // -- The invariant holds along the run ------------------------------------------------

  lemma FairIsClosed(s: State, step: Step, lim: Limits)
    requires Fair(s, step, lim)
    ensures Closed(s, step)
  {
  }

  lemma EnqueuedRowOk(t: Table, c: Call, at: At, lim: Limits, hostname: string -> string, i: nat)
    requires KeyOfKind(c.item.key, c.item.kind) && 1 <= lim.attempts
    requires i < |EnqueueStep(t, c, at, hostname).0| && (i < |t| ==> LiveRowOk(t[i], lim))
    ensures LiveRowOk(EnqueueStep(t, c, at, hostname).0[i], lim)
  {
  }

  lemma LiveRowStays(s: State, step: Step, lim: Limits, hostname: string -> string, i: nat)
    requires Enabled(s, step) && Fair(s, step, lim) && 1 <= lim.attempts
    requires i < |s.t| ==> LiveRowOk(s.t[i], lim)
    requires step.Advance? ==> KeyOfKind(s.procs[step.p].doing.call.item.key, s.procs[step.p].doing.call.item.kind)
    requires step.FailWrite? ==> s.procs[step.p].doing.maxAttempts <= lim.attempts
    requires i < |Apply(s, step, hostname).t|
    ensures LiveRowOk(Apply(s, step, hostname).t[i], lim)
  {
    if step.Dequeue? {
      if i in step.ids {
        DequeueTakesPending(s, step, i);
      }
    } else if step.Advance? {
      EnqueuedRowOk(s.t, s.procs[step.p].doing.call, s.procs[step.p].doing.at, lim, hostname, i);
    }
  }

  /** The goroutine that took the step, if it is still there. */
  lemma ActorStaysOk(s: State, step: Step, lim: Limits, hostname: string -> string)
    requires Enabled(s, step) && Fair(s, step, lim) && !step.Dequeue? && !step.Reclaim?
    requires Holds(s, step.p) && ProcOk(s, s.procs[step.p], lim)
    requires Alive(Apply(s, step, hostname), step.p)
    ensures ProcOk(Apply(s, step, hostname), Apply(s, step, hostname).procs[step.p], lim)
  {
  }

  lemma BystanderStaysOk(s: State, s': State, q: Proc, lim: Limits)
    requires ProcOk(s, q, lim)
    requires q.held.value.id < |s'.t| && s'.t[q.held.value.id].attempts == s.t[q.held.value.id].attempts
    ensures ProcOk(s', q, lim)
  {
  }

  lemma ProcStaysOk(s: State, step: Step, lim: Limits, hostname: string -> string, p: nat)
    requires StateOk(s, hostname) && HandlersHold(s)
    requires forall q :: 0 <= q < |s.procs| && Alive(s, q) ==> ProcOk(s, s.procs[q], lim)
    requires Enabled(s, step) && Fair(s, step, lim)
    requires Alive(Apply(s, step, hostname), p)
    ensures ProcOk(Apply(s, step, hostname), Apply(s, step, hostname).procs[p], lim)
  {
    if step.Dequeue? {
      if p < |s.procs| {
        assert Alive(s, p);
        BystanderStaysOk(s, Apply(s, step, hostname), s.procs[p], lim);
      }
    } else if !step.Reclaim? && p == step.p {
      assert Alive(s, p);
      ActorStaysOk(s, step, lim, hostname);
    } else {
      FairIsClosed(s, step, lim);
      LiveRowKept(s, step, hostname, p);
      BystanderStaysOk(s, Apply(s, step, hostname), s.procs[p], lim);
    }
  }

  lemma StepWorkOk(s: State, step: Step, lim: Limits, hostname: string -> string)
    requires WorkOk(s, lim, hostname) && Enabled(s, step) && Fair(s, step, lim) && 1 <= lim.attempts
    ensures WorkOk(Apply(s, step, hostname), lim, hostname)
  {
    var s' := Apply(s, step, hostname);
    StepOk(s, step, hostname);
    FairIsClosed(s, step, lim);
    StepHolds(s, step, hostname);
    forall i | 0 <= i < |s'.t| ensures LiveRowOk(s'.t[i], lim) {
      assert i < |s.t| ==> LiveRowOk(s.t[i], lim);
      assert step.Advance? || step.FailWrite? ==> Alive(s, step.p) && ProcOk(s, s.procs[step.p], lim);
      LiveRowStays(s, step, lim, hostname, i);
    }
    forall p | 0 <= p < |s'.procs| && Alive(s', p) ensures ProcOk(s', s'.procs[p], lim) {
      ProcStaysOk(s, step, lim, hostname, p);
    }
  }

  ghost predicate FairRun(run: seq<State>, steps: seq<Step>, lim: Limits, hostname: string -> string) {
    && IsRun(run, steps, hostname)
    && forall k :: 0 <= k < |steps| ==> Fair(run[k], steps[k], lim)
  }

  /** The rows handed back in the first k steps. */
  function TotalBack(run: seq<State>, steps: seq<Step>, k: nat): nat
    requires k <= |steps| < |run|
  {
    if k == 0 then 0 else TotalBack(run, steps, k - 1) + HandedBack(run[k - 1], steps[k - 1])
  }

  lemma StepCosts(s: State, step: Step, lim: Limits, hostname: string -> string)
    requires WorkOk(s, lim, hostname) && Enabled(s, step) && Fair(s, step, lim) && 1 <= lim.attempts
    ensures WorkOk(Apply(s, step, hostname), lim, hostname)
    ensures TotalWeight(Apply(s, step, hostname), lim) < TotalWeight(s, lim) + (TopPrice(lim) + 1) * HandedBack(s, step)
  {
    hide Apply, Enabled, WorkOk, TotalWeight, TopPrice;
    StepWorkOk(s, step, lim, hostname);
    if Productive(s, step, lim) {
      StepLowers(s, step, lim, hostname);
    } else {
      SetbackCosts(s, step, lim, hostname);
    }
  }

  lemma {:induction false} WeightFalls(run: seq<State>, steps: seq<Step>, lim: Limits, hostname: string -> string, k: nat)
    requires FairRun(run, steps, lim, hostname) && 1 <= lim.attempts && WorkOk(run[0], lim, hostname)
    requires k < |run|
    ensures WorkOk(run[k], lim, hostname)
    ensures TotalWeight(run[k], lim) + k <= TotalWeight(run[0], lim) + (TopPrice(lim) + 1) * TotalBack(run, steps, k)
  {
    hide Apply, Enabled, WorkOk, TotalWeight, TopPrice, Fair, HandedBack;
    if k > 0 {
      WeightFalls(run, steps, lim, hostname, k - 1);
      assert Enabled(run[k - 1], steps[k - 1]) && run[(k - 1) + 1] == Apply(run[k - 1], steps[k - 1], hostname);
      StepCosts(run[k - 1], steps[k - 1], lim, hostname);
      Distribute(TopPrice(lim) + 1, TotalBack(run, steps, k - 1), HandedBack(run[k - 1], steps[k - 1]));
    }
  }

  /** The worker of a fleet of this size that may dequeue a pending row. */
  function OwnerOf(r: Row, count: nat): (index: nat)
    requires count >= 1
    ensures index < count && (r.status.Pending? ==> Eligible(r, count, index))
  {
    if count == 1 then 0 else r.shard % count
  }

  ghost predicate InFleet(step: Step, count: nat) {
    step.Dequeue? ==> step.count == count && step.index < count
  }

  lemma SomeoneMoves(s: State, p: nat, lim: Limits, hostname: string -> string)
    requires WorkOk(s, lim, hostname) && Alive(s, p)
    ensures exists step :: Enabled(s, step) && Fair(s, step, lim) && !step.Dequeue?
  {
    assert Holds(s, p);
    var doing := s.procs[p].doing;
    var step := if doing.Calling? then Advance(p) else if doing.Failing? then FailWrite(p) else Complete(p);
    assert Enabled(s, step) && Fair(s, step, lim);
  }

  /** With every handler gone a reclaim finds the leases they left. */
  lemma ReclaimMoves(s: State, i: nat, lim: Limits, hostname: string -> string)
    requires StateOk(s, hostname) && i < |s.t| && s.t[i].status.InFlight?
    requires forall p :: 0 <= p < |s.procs| ==> !Alive(s, p)
    ensures exists step :: Enabled(s, step) && Fair(s, step, lim) && !step.Dequeue?
  {
    assert RowOk(s.t[i], hostname);
    var step := Reclaim("w", s.t[i].lease.value + 1);
    assert Expired(s.t[i], step.now);
    assert Enabled(s, step) && Fair(s, step, lim);
  }

  lemma NextStepExists(s: State, lim: Limits, hostname: string -> string, count: nat)
    requires WorkOk(s, lim, hostname) && !Drained(s.t) && count >= 1
    ensures exists step :: Enabled(s, step) && Fair(s, step, lim) && InFleet(step, count)
  {
    var i :| 0 <= i < |s.t| && !Finished(s.t[i].status);
    if s.t[i].status.Pending? {
      var step := Dequeue("w", 0, [i], count, OwnerOf(s.t[i], count));
      assert Enabled(s, step) && Fair(s, step, lim) && InFleet(step, count);
    } else {
      if p :| 0 <= p < |s.procs| && Alive(s, p) {
        SomeoneMoves(s, p, lim, hostname);
      } else {
        ReclaimMoves(s, i, lim, hostname);
      }
      hide Enabled, Fair;
      var step :| Enabled(s, step) && Fair(s, step, lim) && !step.Dequeue?;
      assert InFleet(step, count);
    }
  }

  /**
   Every crawl drains: whatever the interleaving, the number of steps is bounded by
   the weight at the start and the price of an attempt for each row that a requeue,
   or a reclaim after a crash, hands back; and a run after which a fleet of workers,
   of any size, can go no further has emptied the frontier. Page links, catalog cycles
   and registry referrals are all included, as are crashes at any point and
   re-activations that adopt a deeper depth.
   */
  lemma EveryCrawlDrains(run: seq<State>, steps: seq<Step>, lim: Limits, hostname: string -> string, count: nat)
    requires FairRun(run, steps, lim, hostname) && 1 <= lim.attempts && WorkOk(run[0], lim, hostname) && count >= 1
    ensures |steps| <= TotalWeight(run[0], lim) + (TopPrice(lim) + 1) * TotalBack(run, steps, |steps|)
    ensures var last := run[|steps|];
      Drained(last.t) || exists step :: Enabled(last, step) && Fair(last, step, lim) && InFleet(step, count)
  {
    WeightFalls(run, steps, lim, hostname, |steps|);
    if !Drained(run[|steps|].t) {
      NextStepExists(run[|steps|], lim, hostname, count);
    }
  }
}
