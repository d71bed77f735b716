/**
 Engine.Run's worker pool: one dispatcher, K goroutines, an unbuffered channel
 and an atomic in-flight counter, under every schedule.
 */
module Dispatcher {
  import opened Basics

  /** Where a goroutine is: receiving, inside process, before its decrement, or returned. */
  datatype Goroutine = Receiving | Processing(item: nat) | Counting | Exited

  /** Where the dispatcher is. Fetched is between Dequeue and the counter's Add. */
  datatype Phase = Polling | Fetched(batch: seq<nat>) | Sending(batch: seq<nat>) | Closed | Returned

  /** dequeued and processed are histories of item ids, in order. */
  datatype Pool = Pool(phase: Phase, workers: seq<Goroutine>, inFlight: int,
                       dequeued: seq<nat>, processed: seq<nat>)

  datatype Step =
    | Dequeue(batch: seq<nat>)   // a non-empty batch came back
    | Count                      // inFlight.Add(len(batch))
    | Send(g: nat)               // the next item of the batch meets goroutine g
    | Process(g: nat)            // process returns
    | Decrement(g: nat)          // inFlight.Add(-1), back to the channel
    | Close                      // loop left: cancelled, drained, or a query failed
    | Exit(g: nat)               // channel closed
    | Return                     // wg.Wait returned

  predicate Enabled(s: Pool, step: Step) {
    match step
    case Dequeue(batch) => s.phase.Polling? && batch != []
    case Count => s.phase.Fetched?
    case Send(g) => s.phase.Sending? && s.phase.batch != [] && g < |s.workers| && s.workers[g].Receiving?
    case Process(g) => g < |s.workers| && s.workers[g].Processing?
    case Decrement(g) => g < |s.workers| && s.workers[g].Counting?
    case Close => s.phase.Polling?
    case Exit(g) => s.phase.Closed? && g < |s.workers| && s.workers[g].Receiving?
    case Return => s.phase.Closed? && forall g :: 0 <= g < |s.workers| ==> s.workers[g].Exited?
  }

  function Apply(s: Pool, step: Step): Pool
    requires Enabled(s, step)
  {
    match step
    case Dequeue(batch) => s.(phase := Fetched(batch), dequeued := s.dequeued + batch)
    case Count => s.(phase := Sending(s.phase.batch), inFlight := s.inFlight + |s.phase.batch|)
    case Send(g) =>
      s.(phase := if |s.phase.batch| == 1 then Polling else Sending(s.phase.batch[1..]),
         workers := s.workers[g := Processing(s.phase.batch[0])])
    case Process(g) =>
      s.(workers := s.workers[g := Counting], processed := s.processed + [s.workers[g].item])
    case Decrement(g) => s.(workers := s.workers[g := Receiving], inFlight := s.inFlight - 1)
    case Close => s.(phase := Closed)
    case Exit(g) => s.(workers := s.workers[g := Exited])
    case Return => s.(phase := Returned)
  }

  function Unsent(p: Phase): seq<nat> {
    match p
    case Fetched(batch) => batch
    case Sending(batch) => batch
    case _ => []
  }

  function Is(item: nat): nat -> nat {
    (x: nat) => if x == item then 1 else 0
  }

  function Has(item: nat): Goroutine -> nat {
    (w: Goroutine) => if w == Processing(item) then 1 else 0
  }

  /** How often an item occurs in a history. */
  function Times(items: seq<nat>, item: nat): nat {
    Sum(items, Is(item))
  }

  lemma {:induction false} TimesIn(items: seq<nat>, item: nat)
    ensures Times(items, item) > 0 <==> item in items
  {
    if items != [] {
      TimesIn(items[1..], item);
    }
  }

  function Busy(): Goroutine -> nat {
    (w: Goroutine) => if w.Processing? || w.Counting? then 1 else 0
  }

  /** Nothing is lost or doubled between Dequeue and process. */
  ghost predicate ItemsOk(s: Pool, item: nat) {
    Times(s.dequeued, item) == Times(Unsent(s.phase), item) + Sum(s.workers, Has(item)) + Times(s.processed, item)
  }

  predicate Open(p: Phase) {
    p.Polling? || p.Fetched? || p.Sending?
  }

  /** The counter is what it should be, and goroutines leave only once the channel is closed. */
  ghost predicate CounterOk(s: Pool) {
    && s.inFlight == (if s.phase.Sending? then |s.phase.batch| else 0) + Sum(s.workers, Busy())
    && (s.phase.Sending? || s.phase.Fetched? ==> s.phase.batch != [])
    && (Open(s.phase) ==> forall g :: 0 <= g < |s.workers| ==> !s.workers[g].Exited?)
    && (s.phase.Returned? ==> forall g :: 0 <= g < |s.workers| ==> s.workers[g].Exited?)
  }

  ghost predicate PoolOk(s: Pool) {
    CounterOk(s) && forall item: nat :: ItemsOk(s, item)
  }

  lemma SendKeepsItems(s: Pool, g: nat, item: nat)
    requires ItemsOk(s, item) && Enabled(s, Send(g))
    ensures ItemsOk(Apply(s, Send(g)), item)
  {
    var batch := s.phase.batch;
    SumUpdate(s.workers, g, Processing(batch[0]), Has(item));
    assert Times(batch, item) == Is(item)(batch[0]) + Times(batch[1..], item);
    assert |batch| == 1 ==> batch[1..] == [];
  }

  lemma ProcessKeepsItems(s: Pool, g: nat, item: nat)
    requires ItemsOk(s, item) && Enabled(s, Process(g))
    ensures ItemsOk(Apply(s, Process(g)), item)
  {
    SumUpdate(s.workers, g, Counting, Has(item));
    SumAppend(s.processed, [s.workers[g].item], Is(item));
    SumOne(s.workers[g].item, Is(item));
  }

  lemma ItemsConserved(s: Pool, step: Step, item: nat)
    requires ItemsOk(s, item) && Enabled(s, step)
    ensures ItemsOk(Apply(s, step), item)
  {
    match step
    case Dequeue(batch) => SumAppend(s.dequeued, batch, Is(item));
    case Send(g) => SendKeepsItems(s, g, item);
    case Process(g) => ProcessKeepsItems(s, g, item);
    case Decrement(g) => SumUpdate(s.workers, g, Receiving, Has(item));
    case Exit(g) => SumUpdate(s.workers, g, Exited, Has(item));
    case _ =>
  }

  lemma CounterExact(s: Pool, step: Step)
    requires CounterOk(s) && Enabled(s, step)
    ensures CounterOk(Apply(s, step))
  {
    match step
    case Send(g) => SumUpdate(s.workers, g, Processing(s.phase.batch[0]), Busy());
    case Process(g) => SumUpdate(s.workers, g, Counting, Busy());
    case Decrement(g) => SumUpdate(s.workers, g, Receiving, Busy());
    case Exit(g) => SumUpdate(s.workers, g, Exited, Busy());
    case _ =>
  }

  lemma StepOk(s: Pool, step: Step)
    requires PoolOk(s) && Enabled(s, step)
    ensures PoolOk(Apply(s, step)) && |Apply(s, step).workers| == |s.workers|
  {
    forall item: nat ensures ItemsOk(Apply(s, step), item) {
      ItemsConserved(s, step, item);
    }
    CounterExact(s, step);
  }

  ghost predicate IsRun(run: seq<Pool>, steps: seq<Step>) {
    && |run| == |steps| + 1
    && forall k {:trigger steps[k]} :: 0 <= k < |steps| ==> Enabled(run[k], steps[k]) && run[k + 1] == Apply(run[k], steps[k])
  }

  /** The pool as Run starts it: `size` goroutines at the channel, nothing dequeued. */
  ghost predicate Starts(s: Pool, size: nat) {
    && s.phase.Polling? && s.inFlight == 0 && s.dequeued == [] && s.processed == []
    && |s.workers| == size && forall g :: 0 <= g < size ==> s.workers[g].Receiving?
  }

  lemma {:induction false} QuietWorkers(workers: seq<Goroutine>, item: nat)
    requires forall g :: 0 <= g < |workers| ==> workers[g].Receiving? || workers[g].Exited?
    ensures Sum(workers, Has(item)) == 0 && Sum(workers, Busy()) == 0
  {
    if workers != [] {
      assert forall g :: 0 <= g < |workers[1..]| ==> workers[1..][g] == workers[g + 1];
      QuietWorkers(workers[1..], item);
    }
  }

  lemma StartsOk(s: Pool, size: nat)
    requires Starts(s, size)
    ensures PoolOk(s)
  {
    forall item: nat ensures ItemsOk(s, item) {
      QuietWorkers(s.workers, item);
    }
    QuietWorkers(s.workers, 0);
  }

  lemma RunKeepsPool(run: seq<Pool>, steps: seq<Step>, size: nat, k: nat)
    requires IsRun(run, steps) && Starts(run[0], size) && k < |run|
    ensures PoolOk(run[k]) && |run[k].workers| == size
  {
    StartsOk(run[0], size);
    var ok := (s: Pool) => PoolOk(s) && |s.workers| == size;
    forall m | 0 <= m && m + 1 < |run| && ok(run[m]) ensures ok(run[m + 1]) {
      StepOk(run[m], steps[m]);
    }
    KeptAlongRun(run, ok, k);
  }

  lemma ReturnedBalances(s: Pool, item: nat)
    requires PoolOk(s) && s.phase.Returned?
    ensures Times(s.dequeued, item) == Times(s.processed, item) && s.inFlight == 0
  {
    assert ItemsOk(s, item);
    QuietWorkers(s.workers, item);
  }

  /**
   Conservation: when Run returns, every item Dequeue returned has gone through
   process exactly as often as it was dequeued, and the counter reads zero.
   */
  lemma ReturnedMeansProcessed(run: seq<Pool>, steps: seq<Step>, size: nat, k: nat, item: nat)
    requires IsRun(run, steps) && Starts(run[0], size) && k < |run| && run[k].phase.Returned?
    ensures Times(run[k].dequeued, item) == Times(run[k].processed, item) && run[k].inFlight == 0
  {
    RunKeepsPool(run, steps, size, k);
    ReturnedBalances(run[k], item);
  }

  /** At no time has an item been processed more often than it was dequeued. */
  lemma NeverProcessedTwice(run: seq<Pool>, steps: seq<Step>, size: nat, k: nat, item: nat)
    requires IsRun(run, steps) && Starts(run[0], size) && k < |run|
    ensures Times(run[k].processed, item) <= Times(run[k].dequeued, item)
  {
    RunKeepsPool(run, steps, size, k);
    assert ItemsOk(run[k], item);
  }

  /** An idle snapshot (counter zero) outside a send means no goroutine has an item. */
  lemma IdleMeansNobodyWorks(run: seq<Pool>, steps: seq<Step>, size: nat, k: nat, g: nat)
    requires IsRun(run, steps) && Starts(run[0], size) && k < |run| && g < size
    requires run[k].inFlight == 0
    ensures |run[k].workers| == size && !run[k].workers[g].Processing? && !run[k].phase.Sending?
  {
    RunKeepsPool(run, steps, size, k);
    SumAtLeast(run[k].workers, g, Busy());
  }

  /** The pool never deadlocks: until Run has returned, some step can be taken. */
  lemma NeverStuck(run: seq<Pool>, steps: seq<Step>, size: nat, k: nat)
    requires IsRun(run, steps) && Starts(run[0], size) && size >= 1 && k < |run|
    requires !run[k].phase.Returned?
    ensures exists step :: Enabled(run[k], step)
  {
    RunKeepsPool(run, steps, size, k);
    var s := run[k];
    match s.phase
    case Polling => assert Enabled(s, Close);
    case Fetched(_) => assert Enabled(s, Count);
    case Sending(_) =>
      if s.workers[0].Receiving? {
        assert Enabled(s, Send(0));
      } else if s.workers[0].Processing? {
        assert Enabled(s, Process(0));
      } else {
        assert Enabled(s, Decrement(0));
      }
    case Closed =>
      if g :| 0 <= g < |s.workers| && !s.workers[g].Exited? {
        if s.workers[g].Receiving? {
          assert Enabled(s, Exit(g));
        } else if s.workers[g].Processing? {
          assert Enabled(s, Process(g));
        } else {
          assert Enabled(s, Decrement(g));
        }
      } else {
        assert Enabled(s, Return);
      }
  }
}
