/** domainsFromLog (internal/seed/ct.go): windows read backward from the newest leaf, page by page. */
module CtLog {
  import opened Basics
  import opened Hostnames

  const MaxOverfetchFactor: int := 4
  const DefaultEntriesPerPage: int := 256

  /** leaf i's names, None when it does not parse. */
  type Leaves = nat -> Option<seq<string>>

  /** How many leaves the log returns to its k-th request, for the range from a to b. */
  type Server = (nat, nat, nat) -> nat

  /** The log answers with a prefix of the range. */
  ghost predicate Prefixes(served: Server) {
    forall k: nat, a: nat, b: nat :: a <= b ==> served(k, a, b) <= b - a + 1
  }

  /** Never with an empty one (section 4.6 of RFC 6962). */
  ghost predicate NonEmpty(served: Server) {
    forall k: nat, a: nat, b: nat :: a <= b ==> served(k, a, b) >= 1
  }

  function Range(a: nat, b: nat): (r: seq<nat>)
    requires a <= b
    ensures |r| == b - a
  {
    seq(b - a, i requires 0 <= i < b - a => a + i)
  }

  function Start(end: int, window: int): (s: nat)
    requires end >= 0 && window >= 1
    ensures s <= end
  {
    if end - window + 1 < 0 then 0 else end - window + 1
  }

  /** The leaves in reading order: up to `windows` adjacent windows going backward, each read forward. */
  function WindowOrder(end: int, window: int, windows: nat): seq<nat>
    requires end >= -1 && window >= 1
  {
    if end < 0 || windows == 0 then []
    else Range(Start(end, window), end + 1) + WindowOrder(Start(end, window) - 1, window, windows - 1)
  }

  function NamesOf(leaves: Leaves, taken: seq<nat>): seq<string> {
    if taken == [] then []
    else
      NamesOf(leaves, taken[..|taken| - 1])
      + (match leaves(taken[|taken| - 1])
         case Some(names) => names
         case None => [])
  }

  lemma {:induction false} NamesAppend(leaves: Leaves, a: seq<nat>, b: seq<nat>)
    ensures NamesOf(leaves, a + b) == NamesOf(leaves, a) + NamesOf(leaves, b)
  {
    if b == [] {
      assert a + b == a;
    } else {
      var n := |b| - 1;
      assert (a + b)[..|a| + n] == a + b[..n];
      NamesAppend(leaves, a, b[..n]);
    }
  }

  lemma RangeNext(a: nat, b: nat, c: nat)
    requires a <= b <= c
    ensures Range(a, c) == Range(a, b) + Range(b, c)
  {
  }

  /** A host name that one of the names of a leaf that was read comes to. */
  ghost predicate Named(t: Text, leaves: Leaves, taken: seq<nat>, x: string) {
    exists leaf, raw :: leaf in taken && leaves(leaf).Some? && raw in leaves(leaf).value && SanitizeName(t, raw) == Some(x)
  }

  lemma {:induction false} NamesListed(leaves: Leaves, taken: seq<nat>, raw: string)
    ensures raw in NamesOf(leaves, taken) <==> exists leaf :: leaf in taken && leaves(leaf).Some? && raw in leaves(leaf).value
  {
    if taken != [] {
      var n := |taken| - 1;
      NamesListed(leaves, taken[..n], raw);
      assert taken == taken[..n] + [taken[n]];
    }
  }

  /** The first n of the host names read, each once: all of them if they are fewer than n. */
  lemma Collected(t: Text, leaves: Leaves, taken: seq<nat>, n: int)
    ensures var r := Take(Sanitize(t, NamesOf(leaves, taken)), n);
      && |r| <= Max(n, 0) && Distinct(r)
      && (forall x :: x in r ==> Named(t, leaves, taken, x))
      && (|r| < n ==> forall x :: Named(t, leaves, taken, x) ==> x in r)
  {
    var names := NamesOf(leaves, taken);
    var all := Sanitize(t, names);
    SanitizeMeans(t, names);
    forall x ensures x in all <==> Named(t, leaves, taken, x) {
      ComesFromLeaf(t, leaves, taken, x);
    }
    hide Sanitize, NamesOf, Named, SanitizeName;
    assert forall x :: x in Take(all, n) ==> x in all;
  }

  lemma ComesFromLeaf(t: Text, leaves: Leaves, taken: seq<nat>, x: string)
    ensures Comes(t, NamesOf(leaves, taken), x) <==> Named(t, leaves, taken, x)
  {
    hide NamesOf, SanitizeName;
    var names := NamesOf(leaves, taken);
    if Comes(t, names, x) {
      var k :| 0 <= k < |names| && SanitizeName(t, names[k]) == Some(x);
      NamesListed(leaves, taken, names[k]);
      var leaf :| leaf in taken && leaves(leaf).Some? && names[k] in leaves(leaf).value;
      assert Named(t, leaves, taken, x);
    }
    if Named(t, leaves, taken, x) {
      var leaf, raw :| leaf in taken && leaves(leaf).Some? && raw in leaves(leaf).value && SanitizeName(t, raw) == Some(x);
      NamesListed(leaves, taken, raw);
      var k :| 0 <= k < |names| && names[k] == raw;
    }
  }

  // -- The shape of the reading order -----------------------------------------------------

  predicate DistinctReads(s: seq<nat>) { forall i, j :: 0 <= i < j < |s| ==> s[i] != s[j] }

  /** With w windows the order covers exactly the newest min(w * window, end + 1) leaves, each once. */
  lemma {:induction false} WindowOrderCovers(end: int, window: int, windows: nat)
    requires end >= -1 && window >= 1
    ensures var r := WindowOrder(end, window, windows); var n := Min(windows * window, end + 1);
      && |r| == n
      && DistinctReads(r)
      && forall x: nat :: x in r <==> end - n < x <= end
    decreases windows
  {
    if end >= 0 && windows > 0 {
      var start: int := Start(end, window);
      var first, rest := Range(start, end + 1), WindowOrder(start - 1, window, windows - 1);
      WindowOrderCovers(start - 1, window, windows - 1);
      assert windows * window == (windows - 1) * window + window;
      WindowCovers(start, end, first, rest, Min((windows - 1) * window, start));
    } else {
      assert windows == 0 ==> windows * window == 0;
    }
  }

  lemma WindowCovers(start: nat, end: int, first: seq<nat>, rest: seq<nat>, n: int)
    requires start <= end && first == Range(start, end + 1) && 0 <= n <= start
    requires |rest| == n && DistinctReads(rest) && forall x: nat :: x in rest <==> start - 1 - n < x <= start - 1
    ensures var r := first + rest; DistinctReads(r) && forall x: nat :: x in r <==> start - 1 - n < x <= end
  {
    var r := first + rest;
    forall i, j | 0 <= i < j < |r| ensures r[i] != r[j] {
      if j >= |first| {
        assert rest[j - |first|] in rest;
      }
    }
    forall x: nat | start <= x <= end ensures x in r {
      assert first[x - start] == x;
    }
  }

  // -- The loops ---------------------------------------------------------------------------

  function WindowSize(n: int): int { if n < 1 then 1 else n }

  function EntriesPerPage(configured: int): int {
    if configured > 0 then configured else DefaultEntriesPerPage
  }

  /** The leaves of one answer; one that does not parse is passed over. */
  method ReadPage(c: DomainCollector, leaves: Leaves, cursor: nat, count: nat)
    requires c.Valid()
    modifies c
    ensures c.Valid() && c.fed == old(c.fed) + NamesOf(leaves, Range(cursor, cursor + count))
  {
    hide NamesOf, Sanitize, Take, Range;
    ghost var fed := c.fed;
    NoNames(leaves, cursor);
    assert fed + [] == fed;
    for i := 0 to count
      invariant c.Valid() && c.fed == fed + NamesOf(leaves, Range(cursor, cursor + i))
    {
      LeafNext(leaves, cursor, i);
      ghost var so := NamesOf(leaves, Range(cursor, cursor + i));
      var names := leaves(cursor + i);
      if names.None? {
        assert so + [] == so;
        continue;
      }
      assert fed + so + names.value == fed + (so + names.value);
      c.Add(names.value);
    }
  }

  lemma NoNames(leaves: Leaves, cursor: nat)
    ensures NamesOf(leaves, Range(cursor, cursor)) == []
  {
  }

  lemma PageNext(leaves: Leaves, fed: seq<string>, start: nat, cursor: nat, count: nat)
    requires start <= cursor
    ensures fed + NamesOf(leaves, Range(start, cursor)) + NamesOf(leaves, Range(cursor, cursor + count))
         == fed + NamesOf(leaves, Range(start, cursor + count))
  {
    hide NamesOf;
    RangeNext(start, cursor, cursor + count);
    NamesAppend(leaves, Range(start, cursor), Range(cursor, cursor + count));
  }

  /** One window: pages of the range from start to end, until the collector is full or the log answers nothing. */
  method ReadWindow(c: DomainCollector, leaves: Leaves, served: Server, request: nat, start: nat, end: nat, page: int)
    returns (cursor: nat, request': nat)
    requires c.Valid() && start <= end && page >= 1 && Prefixes(served)
    modifies c
    ensures c.Valid() && start <= cursor <= end + 1
    ensures c.fed == old(c.fed) + NamesOf(leaves, Range(start, cursor))
    ensures NonEmpty(served) ==> cursor == end + 1 || c.Full()
  {
    hide NamesOf, Sanitize, Take, Range;
    cursor, request' := start, request;
    NoNames(leaves, start);
    assert old(c.fed) + NamesOf(leaves, Range(start, start)) == old(c.fed);
    while cursor <= end
      invariant c.Valid() && start <= cursor <= end + 1
      invariant c.fed == old(c.fed) + NamesOf(leaves, Range(start, cursor))
      decreases end + 1 - cursor
    {
      var pageEnd := cursor + page - 1;
      if pageEnd > end {
        pageEnd := end;
      }
      var count := served(request', cursor, pageEnd);
      request' := request' + 1;
      if count == 0 {
        break;
      }
      ReadPage(c, leaves, cursor, count);
      PageNext(leaves, old(c.fed), start, cursor, count);
      cursor := cursor + count;
      if c.Full() {
        break;
      }
    }
  }

  lemma LeafNext(leaves: Leaves, cursor: nat, i: nat)
    ensures NamesOf(leaves, Range(cursor, cursor + i + 1))
         == NamesOf(leaves, Range(cursor, cursor + i)) + (if leaves(cursor + i).Some? then leaves(cursor + i).value else [])
  {
    var r := Range(cursor, cursor + i + 1);
    assert r[..|r| - 1] == Range(cursor, cursor + i);
  }

  /**
   The names of the newest leaves, or None when the log has no leaves. taken is
   what was read, in order.
   */
  method DomainsFromLog(t: Text, leaves: Leaves, served: Server, treeSize: int, n: int, configuredPage: int)
    returns (domains: Option<seq<string>>, ghost taken: seq<nat>)
    requires Prefixes(served)
    ensures domains.None? <==> treeSize <= 0
    ensures domains.Some? ==> domains.value == Take(Sanitize(t, NamesOf(leaves, taken)), n)
    ensures DistinctReads(taken) && forall x :: x in taken ==> x < treeSize
    ensures domains.Some? ==>
      && |domains.value| <= Max(n, 0) && Distinct(domains.value)
      && (forall x :: x in domains.value ==> Named(t, leaves, taken, x))
      && (|domains.value| < n ==> forall x :: Named(t, leaves, taken, x) ==> x in domains.value)
    ensures domains.Some? && |domains.value| < n && NonEmpty(served) ==>
      forall x: nat :: x in taken <==> treeSize - 4 * n <= x < treeSize
    ensures domains.Some? && NonEmpty(served) ==>
      && taken <= WindowOrder(treeSize - 1, WindowSize(n), 4) && |taken| <= Min(4 * WindowSize(n), treeSize)
      && domains.value == Take(Sanitize(t, NamesOf(leaves, WindowOrder(treeSize - 1, WindowSize(n), 4))), n)
  {
    hide NamesOf, Sanitize, Take, Range, WindowOrder, DistinctReads;
    taken := [];
    NothingTaken(leaves);
    if treeSize <= 0 {
      return None, taken;
    }
    var windowSize := WindowSize(n);
    var maxFetch := windowSize * MaxOverfetchFactor;
    if maxFetch > treeSize {
      maxFetch := treeSize;
    }
    var page := EntriesPerPage(configuredPage);
    var c := new DomainCollector(t, n);
    var end, fetched, request := treeSize - 1, 0, 0;
    ghost var k: nat := 0;
    ghost var whole := WindowOrder(treeSize - 1, windowSize, 4);
    assert [] + whole == whole;
    while end >= 0 && !c.Full() && fetched < maxFetch
      invariant c.Valid() && c.t == t && c.limit == n && fresh(c)
      invariant -1 <= end < treeSize && fetched == |taken| && k <= 4
      invariant c.fed == NamesOf(leaves, taken)
      invariant DistinctReads(taken) && forall x :: x in taken ==> end < x < treeSize
      invariant NonEmpty(served) ==> c.Full() || fetched == treeSize - 1 - end == Min(k * windowSize, treeSize)
      invariant NonEmpty(served) ==> taken <= whole
      invariant NonEmpty(served) ==> c.Full() || taken + WindowOrder(end, windowSize, 4 - k) == whole
      decreases end + 1
    {
      var start: int := Start(end, windowSize);
      ghost var before := taken;
      var cursor;
      cursor, request := ReadWindow(c, leaves, served, request, start, end, page);
      taken := before + Range(start, cursor);
      NamesAppend(leaves, before, Range(start, cursor));
      ReadsStayDistinct(before, start, cursor, end, treeSize);
      fetched := fetched + (cursor - start);
      if NonEmpty(served) {
        OneWindow(before, whole, start, cursor, end, windowSize, k, treeSize, maxFetch);
      }
      k := if k < 4 then k + 1 else 4;
      end := start - 1;
    }
    Collected(t, leaves, taken, n);
    hide Named, Distinct;
    if NonEmpty(served) {
      WindowOrderCovers(treeSize - 1, windowSize, 4);
      AtTheEnd(t, leaves, taken, whole, end, windowSize, k, treeSize, maxFetch, n);
    }
    return Some(c.names), taken;
  }

  lemma NothingTaken(leaves: Leaves)
    ensures DistinctReads([]) && NamesOf(leaves, []) == []
  {
  }

  lemma ReadsStayDistinct(before: seq<nat>, start: nat, cursor: nat, end: int, treeSize: int)
    requires start <= cursor <= end + 1 && end < treeSize
    requires DistinctReads(before) && forall x :: x in before ==> end < x < treeSize
    ensures var taken := before + Range(start, cursor);
      DistinctReads(taken) && forall x :: x in taken ==> start - 1 < x < treeSize
  {
    var r := Range(start, cursor);
    var taken := before + r;
    forall i, j | 0 <= i < j < |taken| ensures taken[i] != taken[j] {
      if i < |before| <= j {
        assert taken[i] in before && taken[j] == start + (j - |before|);
      }
    }
  }

  /** A window read while fewer than maxFetch leaves were read is one of the four. */
  lemma OneWindow(before: seq<nat>, whole: seq<nat>, start: nat, cursor: nat, end: int, window: int, k: nat, treeSize: int, maxFetch: int)
    requires 0 <= end < treeSize && window >= 1 && k <= 4 && start == Start(end, window) && start <= cursor <= end + 1
    requires maxFetch == Min(window * MaxOverfetchFactor, treeSize)
    requires |before| == treeSize - 1 - end == Min(k * window, treeSize) && |before| < maxFetch
    requires before + WindowOrder(end, window, 4 - k) == whole
    ensures k < 4
    ensures before + Range(start, cursor) <= whole
    ensures cursor == end + 1 ==>
      && |before| + (cursor - start) == treeSize - start == Min((k + 1) * window, treeSize)
      && before + Range(start, cursor) + WindowOrder(start - 1, window, 4 - (k + 1)) == whole
  {
    hide Range;
    WindowsLeft(k, window, treeSize, |before|, end);
    assert WindowOrder(end, window, 4 - k) == Range(start, end + 1) + WindowOrder(start - 1, window, 4 - (k + 1));
    hide WindowOrder;
    var rest := WindowOrder(start - 1, window, 4 - (k + 1));
    RangeNext(start, cursor, end + 1);
    assert whole == before + (Range(start, end + 1) + rest);
    assert whole == before + Range(start, cursor) + (Range(cursor, end + 1) + rest);
    assert cursor == end + 1 ==> Range(start, cursor) == Range(start, end + 1);
  }

  lemma WindowsLeft(k: nat, window: int, treeSize: int, done: nat, end: int)
    requires 0 <= end < treeSize && window >= 1 && k <= 4
    requires done == treeSize - 1 - end == Min(k * window, treeSize)
    requires done < Min(window * MaxOverfetchFactor, treeSize)
    ensures k < 4
    ensures treeSize - Start(end, window) == Min((k + 1) * window, treeSize)
  {
    assert (k + 1) * window == k * window + window;
  }

  lemma AtTheEnd(t: Text, leaves: Leaves, taken: seq<nat>, whole: seq<nat>, end: int, window: int, k: nat, treeSize: int, maxFetch: int, n: int)
    requires -1 <= end < treeSize && window >= 1 && k <= 4 && maxFetch == Min(window * MaxOverfetchFactor, treeSize)
    requires taken <= whole
    requires |Take(Sanitize(t, NamesOf(leaves, taken)), n)| < n ==>
      && |taken| == treeSize - 1 - end == Min(k * window, treeSize)
      && taken + WindowOrder(end, window, 4 - k) == whole
      && (end < 0 || |taken| >= maxFetch)
    ensures Take(Sanitize(t, NamesOf(leaves, whole)), n) == Take(Sanitize(t, NamesOf(leaves, taken)), n)
    ensures |Take(Sanitize(t, NamesOf(leaves, taken)), n)| < n ==> taken == whole
  {
    if |Take(Sanitize(t, NamesOf(leaves, taken)), n)| >= n {
      hide NamesOf, Sanitize, Take;
      var more := whole[|taken|..];
      assert whole == taken + more;
      NamesAppend(leaves, taken, more);
      FullIsFinal(t, NamesOf(leaves, taken), NamesOf(leaves, more), n);
    } else {
      hide NamesOf, Sanitize, Take;
      assert k < 4 ==> k * window <= 3 * window;
      assert WindowOrder(end, window, 4 - k) == [];
      assert taken + [] == taken;
    }
  }
}
