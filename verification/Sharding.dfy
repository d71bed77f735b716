/** Host-affinity sharding: which worker may dequeue which row. */
module Sharding {
  import opened FrontierTable
  import opened FrontierSystem

  /** Every pending row is eligible for exactly one index of a fleet of `count` workers. */
  lemma ExactlyOneOwner(r: Row, count: nat)
    requires count >= 1 && r.status.Pending?
    ensures exists index: nat ::
      && index < count && Eligible(r, count, index)
      && forall other: nat :: other < count && Eligible(r, count, other) ==> other == index
  {
    var index := if count == 1 then 0 else r.shard % count;
    assert Eligible(r, count, index);
  }

  predicate Serves(shard: nat, count: nat, index: nat)
    requires count >= 1
  {
    shard % count == index
  }

  ghost predicate HasShard(count: nat, index: nat)
    requires count >= 1
  {
    exists shard: nat :: shard < HostShardCount && Serves(shard, count, index)
  }

  /** Every index of the fleet has a shard of its own exactly when the fleet is no larger than the shard space. */
  lemma EveryIndexServesSomeShard(count: nat)
    requires count >= 1
    ensures (forall index: nat :: index < count ==> HasShard(count, index)) <==> count <= HostShardCount
  {
    if count <= HostShardCount {
      forall index: nat | index < count ensures HasShard(count, index) {
        SmallMod(index, count);
        assert Serves(index, count, index);
      }
    } else {
      forall shard: nat | shard < HostShardCount ensures !Serves(shard, count, HostShardCount) {
        SmallMod(shard, count);
      }
      assert !HasShard(count, HostShardCount);
    }
  }

  lemma SmallMod(a: nat, m: nat)
    requires a < m
    ensures a % m == a
  {
  }

  /** The host a row is fetched from: that of its URL, or its own if the URL has none. */
  function HostOfRow(r: Row, hostname: string -> string): string {
    if r.url == "" || hostname(r.url) == "" then r.host else hostname(r.url)
  }

  lemma {:induction false} XorZero(a: nat)
    ensures Xor(a, 0) == a
  {
    if a > 0 {
      XorZero(a / 2);
    }
  }

  lemma XorStep(a: nat, b: nat)
    requires a > 0
    ensures Xor(a, b) == (if a % 2 == b % 2 then 0 else 1) + 2 * Xor(a / 2, b / 2)
  {
  }

  lemma XorOfA()
    ensures Xor(0x811C9DC5, 0x61) == 0x811C9DA4
  {
    hide Xor;
    XorZero(16922939);
    XorStep(2166136261, 97);
    XorStep(1083068130, 48);
    XorStep(541534065, 24);
    XorStep(270767032, 12);
    XorStep(135383516, 6);
    XorStep(67691758, 3);
    XorStep(33845879, 1);
  }

  lemma FnvOfOne(c: char)
    ensures Fnv1a("") == 0x811C9DC5 && Fnv1a([c]) == Xor(0x811C9DC5, c as int) * 0x01000193 % 0x1_0000_0000
  {
    hide Xor;
    assert [c][..0] == "";
  }

  /** Two of the published test vectors of 32-bit FNV-1a, and the shard the second gives. */
  lemma FnvVectors()
    ensures Fnv1a("") == 0x811C9DC5 && Fnv1a("a") == 0xE40C292C && HostShard("a") == 2348
  {
    hide Xor, Fnv1a;
    FnvOfOne('a');
    XorOfA();
  }

  /** The host a row fetches never changes, through re-activation and all. */
  lemma {:induction false} FetchHostFixed(run: seq<State>, steps: seq<Step>, hostname: string -> string, j: nat, k: nat, i: nat)
    requires IsRun(run, steps, hostname) && StateOk(run[0], hostname) && j <= k < |run| && i < |run[j].t|
    ensures i < |run[k].t|
    ensures HostOfRow(run[k].t[i], hostname) == HostOfRow(run[j].t[i], hostname)
    ensures run[k].t[i].shard == HostShard(HostOfRow(run[j].t[i], hostname))
    decreases k
  {
    RunOk(run, steps, hostname, k);
    if j < k {
      FetchHostFixed(run, steps, hostname, j, k - 1, i);
      RunOk(run, steps, hostname, k - 1);
      StepOk(run[k - 1], steps[k - 1], hostname);
    } else {
      assert RowOk(run[k].t[i], hostname);
    }
  }

  /**
   Over a whole run, two dequeues by different indices of one fleet never
   return rows that fetch from the same host.
   */
  lemma HostsAreNotShared(
      run: seq<State>, steps: seq<Step>, hostname: string -> string, count: nat, j: nat, k: nat, a: nat, b: nat)
    requires IsRun(run, steps, hostname) && StateOk(run[0], hostname)
    requires j < |steps| && k < |steps| && steps[j].Dequeue? && steps[k].Dequeue?
    requires steps[j].count == steps[k].count == count && 1 <= count
    requires steps[j].index < count && steps[k].index < count && steps[j].index != steps[k].index
    requires a in steps[j].ids && b in steps[k].ids
    ensures a < |run[j].t| && b < |run[k].t|
    ensures HostOfRow(run[j].t[a], hostname) != HostOfRow(run[k].t[b], hostname)
  {
    DequeueTakesPending(run[j], steps[j], a);
    DequeueTakesPending(run[k], steps[k], b);
    FetchHostFixed(run, steps, hostname, j, j, a);
    FetchHostFixed(run, steps, hostname, k, k, b);
  }
}
