/** Shared building blocks: an optional value, and sums over sequences. */
module Basics {
  datatype Option<+T> = None | Some(value: T)

  function Min(a: int, b: int): int { if a < b then a else b }

  function Max(a: int, b: int): int { if a < b then b else a }

  function Sum<T>(s: seq<T>, f: T -> nat): nat {
    if s == [] then 0 else f(s[0]) + Sum(s[1..], f)
  }

  lemma SumOne<T>(x: T, f: T -> nat)
    ensures Sum([x], f) == f(x)
  {
    assert [x][1..] == [];
  }

  lemma {:induction false} SumAppend<T>(s: seq<T>, t: seq<T>, f: T -> nat)
    ensures Sum(s + t, f) == Sum(s, f) + Sum(t, f)
  {
    if s == [] {
      assert s + t == t;
    } else {
      assert (s + t)[1..] == s[1..] + t;
      SumAppend(s[1..], t, f);
    }
  }

  lemma {:induction false} SumUpdate<T>(s: seq<T>, i: nat, x: T, f: T -> nat)
    requires i < |s|
    ensures Sum(s[i := x], f) + f(s[i]) == Sum(s, f) + f(x)
  {
    if i == 0 {
      assert s[0 := x][1..] == s[1..];
    } else {
      assert s[i := x][1..] == s[1..][i - 1 := x];
      SumUpdate(s[1..], i - 1, x, f);
    }
  }

  lemma {:induction false} SumMonotone<T>(s: seq<T>, f: T -> nat, g: T -> nat)
    requires forall i :: 0 <= i < |s| ==> f(s[i]) <= g(s[i])
    ensures Sum(s, f) <= Sum(s, g)
  {
    if s != [] {
      assert f(s[0]) <= g(s[0]);
      forall i | 0 <= i < |s[1..]| ensures f(s[1..][i]) <= g(s[1..][i]) {
        assert s[1..][i] == s[i + 1];
      }
      SumMonotone(s[1..], f, g);
    }
  }

  /** Two sequences that agree under f position by position have equal sums. */
  lemma {:induction false} SumCongruent<T>(s: seq<T>, t: seq<T>, f: T -> nat)
    requires |s| == |t|
    requires forall i :: 0 <= i < |s| ==> f(s[i]) == f(t[i])
    ensures Sum(s, f) == Sum(t, f)
  {
    if s != [] {
      assert f(s[0]) == f(t[0]);
      forall i | 0 <= i < |s[1..]| ensures f(s[1..][i]) == f(t[1..][i]) {
        assert s[1..][i] == s[i + 1] && t[1..][i] == t[i + 1];
      }
      SumCongruent(s[1..], t[1..], f);
    }
  }

  lemma {:induction false} SumAtLeast<T>(s: seq<T>, i: nat, f: T -> nat)
    requires i < |s|
    ensures f(s[i]) <= Sum(s, f)
  {
    if i > 0 {
      SumAtLeast(s[1..], i - 1, f);
    }
  }

  /** The places where f is 1. */
  ghost function Places<T>(s: seq<T>, f: T -> nat): set<nat> {
    set i: nat | i < |s| && f(s[i]) == 1
  }

  /** A sum of ones is the number of places they stand at. */
  lemma {:induction false} SumCounts<T>(s: seq<T>, f: T -> nat)
    requires forall i :: 0 <= i < |s| ==> f(s[i]) <= 1
    ensures Sum(s, f) == |Places(s, f)|
  {
    if s == [] {
      assert Places(s, f) == {};
    } else {
      var n := |s| - 1;
      assert s == s[..n] + [s[n]];
      SumAppend(s[..n], [s[n]], f);
      SumOne(s[n], f);
      SumCounts(s[..n], f);
      assert Places(s, f) == Places(s[..n], f) + if f(s[n]) == 1 then {n} else {};
    }
  }

  /** Induction along a run: what every step keeps holds everywhere. */
  lemma {:induction false} KeptAlongRun<S>(run: seq<S>, ok: S -> bool, k: nat)
    requires k < |run| && ok(run[0])
    requires forall m :: 0 <= m && m + 1 < |run| && ok(run[m]) ==> ok(run[m + 1])
    ensures ok(run[k])
  {
    if k > 0 {
      KeptAlongRun(run, ok, k - 1);
      assert ok(run[(k - 1) + 1]);
    }
  }

  /** Where a run first goes from not p to p. */
  lemma {:induction false} FirstChange<S>(run: seq<S>, p: S -> bool, a: nat, b: nat) returns (m: nat)
    requires a <= b < |run| && !p(run[a]) && p(run[b])
    ensures a <= m < b && p(run[m + 1]) && forall x :: a <= x <= m ==> !p(run[x])
    decreases b - a
  {
    if p(run[a + 1]) {
      m := a;
    } else {
      m := FirstChange(run, p, a + 1, b);
    }
  }

  function Iterate<S>(step: S -> S, s: S, n: nat): S {
    if n == 0 then s else step(Iterate(step, s, n - 1))
  }

  lemma {:induction false} IterateAdds<S>(step: S -> S, s: S, m: nat, n: nat)
    ensures Iterate(step, Iterate(step, s, m), n) == Iterate(step, s, m + n)
  {
    if n > 0 {
      IterateAdds(step, s, m, n - 1);
    }
  }

  lemma IterateSplit<S>(step: S -> S, s: S, i: nat, n: nat)
    requires i < n
    ensures Iterate(step, step(Iterate(step, s, i)), n - i - 1) == Iterate(step, s, n)
  {
    IterateAdds(step, s, i + 1, n - i - 1);
  }

  lemma {:induction false} IterateKeeps<S(!new)>(step: S -> S, ok: S -> bool, s: S, n: nat)
    requires ok(s) && forall x :: ok(x) ==> ok(step(x))
    ensures ok(Iterate(step, s, n))
  {
    if n > 0 {
      IterateKeeps(step, ok, s, n - 1);
    }
  }

  /** A weight that every step lowers runs out. */
  lemma {:induction false} IterateEnds<S(!new)>(step: S -> S, weight: S -> nat, s: S) returns (n: nat)
    requires forall x :: weight(x) > 0 ==> weight(step(x)) < weight(x)
    ensures weight(Iterate(step, s, n)) == 0
    decreases weight(s)
  {
    n := 0;
    if weight(s) > 0 {
      var m := IterateEnds(step, weight, step(s));
      n := m + 1;
      IterateSplit(step, s, 0, n);
    }
  }

  lemma {:induction false} IterateCommutes<S>(step: S -> S, view: S -> S, s: S, n: nat)
    requires forall j :: 0 <= j < n ==> step(view(Iterate(step, s, j))) == view(step(Iterate(step, s, j)))
    ensures Iterate(step, view(s), n) == view(Iterate(step, s, n))
  {
    if n > 0 {
      IterateCommutes(step, view, s, n - 1);
    }
  }

  /** A loop over 0, 1, ..., n - 1. */
  function Fold<S>(f: (S, nat) -> S, s: S, n: nat): S {
    if n == 0 then s else f(Fold(f, s, n - 1), n - 1)
  }
}
