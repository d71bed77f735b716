/** Cursor pagination of Search and GetCatalog (internal/jsonout/search.go). */
module Search {
  import opened Basics
  import Like

  /** An entry row; texts are the columns a query looks into. */
  datatype Row = Row(id: nat, catalog: nat, texts: seq<string>)

  /** A table in id order, as the database yields it; ids start at 1. */
  ghost predicate Ordered(rows: seq<Row>) {
    && (forall i :: 0 <= i < |rows| ==> rows[i].id > 0)
    && forall i, j :: 0 <= i < j < |rows| ==> rows[i].id < rows[j].id
  }

  type Filter = Row -> bool

  // -- One page -----------------------------------------------------------------------

  const DefaultLimit: nat := 50
  const MaxLimit: nat := 200

  function PageLimit(limit: int): (r: Option<nat>)
    ensures r.Some? ==> 1 <= r.value <= MaxLimit
    ensures r.None? <==> limit < 0 || limit > MaxLimit
  {
    if limit == 0 then Some(DefaultLimit)
    else if limit < 1 || limit > MaxLimit then None
    else Some(limit)
  }

  /** WHERE: beyond the cursor, if there is one, and matching. */
  predicate Wanted(r: Row, cursor: nat, keep: Filter) {
    (cursor > 0 ==> r.id > cursor) && keep(r)
  }

  function Select(rows: seq<Row>, cursor: nat, keep: Filter): seq<Row> {
    if rows == [] then []
    else if Wanted(rows[0], cursor, keep) then [rows[0]] + Select(rows[1..], cursor, keep)
    else Select(rows[1..], cursor, keep)
  }

  /** LIMIT. */
  function Take(rows: seq<Row>, n: nat): seq<Row> {
    if n < |rows| then rows[..n] else rows
  }

  /** next is 0 when there is no later page. */
  datatype Page = Page(entries: seq<Row>, next: nat)

  function PageOf(rows: seq<Row>, cursor: nat, keep: Filter, limit: nat): Page
    requires limit >= 1
  {
    var found := Take(Select(rows, cursor, keep), limit + 1);
    if |found| > limit then Page(found[..limit], found[limit - 1].id) else Page(found, 0)
  }

  /**
   The first n of the rows beyond the cursor that match, in id order; next is the
   last one's id if any are left and 0 otherwise.
   */
  ghost predicate IsPage(rows: seq<Row>, cursor: nat, keep: Filter, n: nat, p: Page) {
    && Ordered(p.entries) && |p.entries| <= n
    && (forall r :: r in p.entries ==> r in rows && r.id > cursor && keep(r))
    && (forall r :: r in rows && r.id > cursor && keep(r) && (p.next == 0 || r.id <= p.next) ==> r in p.entries)
    && (p.next != 0 ==>
          && |p.entries| == n > 0 && p.next == p.entries[n - 1].id
          && exists r :: r in rows && r.id > p.next && keep(r))
  }

  lemma {:induction false} SelectMembers(rows: seq<Row>, cursor: nat, keep: Filter, r: Row)
    ensures r in Select(rows, cursor, keep) <==> r in rows && Wanted(r, cursor, keep)
  {
    if rows != [] {
      SelectMembers(rows[1..], cursor, keep, r);
    }
  }

  lemma PageOfFound(found: seq<Row>, n: nat, p: Page)
    requires Ordered(found) && n >= 1
    requires p == if |found| > n then Page(found[..n], found[n - 1].id) else Page(found, 0)
    ensures Ordered(p.entries) && |p.entries| <= n
    ensures forall r :: r in p.entries ==> r in found
    ensures forall r :: r in found && (p.next == 0 || r.id <= p.next) ==> r in p.entries
    ensures p.next != 0 ==> |p.entries| == n && p.next == p.entries[n - 1].id && exists r :: r in found && r.id > p.next
  {
    if |found| > n {
      forall r | r in found && r.id <= p.next ensures r in p.entries {
        var i :| 0 <= i < |found| && found[i] == r;
        assert i < n;
        assert p.entries[i] == r;
      }
      assert found[n] in found && found[n].id > p.next;
    }
  }

  lemma Selected(rows: seq<Row>, cursor: nat, keep: Filter)
    requires Ordered(rows)
    ensures Ordered(Select(rows, cursor, keep))
    ensures forall r :: r in Select(rows, cursor, keep) <==> r in rows && r.id > cursor && keep(r)
  {
    SelectOrdered(rows, cursor, keep);
    forall r ensures r in Select(rows, cursor, keep) <==> r in rows && r.id > cursor && keep(r) {
      SelectMembers(rows, cursor, keep, r);
    }
  }

  lemma TakenPage(rows: seq<Row>, cursor: nat, keep: Filter, n: nat)
    requires n >= 1
    ensures var found := Select(rows, cursor, keep);
      PageOf(rows, cursor, keep, n) == if |found| > n then Page(found[..n], found[n - 1].id) else Page(found, 0)
  {
    hide Select;
    var found := Select(rows, cursor, keep);
    assert |found| > n ==> found[..n + 1][..n] == found[..n];
  }

  lemma PageIs(rows: seq<Row>, cursor: nat, keep: Filter, n: nat)
    requires Ordered(rows) && n >= 1
    ensures IsPage(rows, cursor, keep, n, PageOf(rows, cursor, keep, n))
  {
    hide Select, PageOf, Take, Ordered;
    Selected(rows, cursor, keep);
    TakenPage(rows, cursor, keep, n);
    PageOfFound(Select(rows, cursor, keep), n, PageOf(rows, cursor, keep, n));
  }

  lemma SamePages(rows: seq<Row>, cursor: nat, keep: Filter, keep': Filter, n: nat, p: Page)
    requires IsPage(rows, cursor, keep, n, p) && forall r :: keep(r) == keep'(r)
    ensures IsPage(rows, cursor, keep', n, p)
  {
  }

  datatype SearchResult = Found(page: Page) | BadLimit | BadVerdict

  predicate KnownVerdict(verdict: string) {
    verdict == "" || verdict == "valid" || verdict == "valid_with_warnings" || verdict == "invalid"
  }

  /** A limit is one to 200, or 0 for 50. */
  method SearchPage(rows: seq<Row>, cursor: nat, keep: Filter, rawLimit: int, verdict: string) returns (r: SearchResult)
    ensures r.BadLimit? <==> rawLimit < 0 || rawLimit > 200
    ensures r.BadVerdict? <==> 0 <= rawLimit <= 200 && verdict != "" && verdict != "valid" && verdict != "valid_with_warnings" && verdict != "invalid"
    ensures r.Found? ==> r.page == PageOf(rows, cursor, keep, if rawLimit == 0 then 50 else rawLimit)
    ensures r.Found? && Ordered(rows) ==> IsPage(rows, cursor, keep, if rawLimit == 0 then 50 else rawLimit, r.page)
  {
    hide IsPage, Ordered, Select, Wanted;
    var limit := PageLimit(rawLimit);
    if limit.None? {
      return BadLimit;
    }
    if !KnownVerdict(verdict) {
      return BadVerdict;
    }
    if Ordered(rows) {
      PageIs(rows, cursor, keep, limit.value);
    }
    var found := Take(Select(rows, cursor, keep), limit.value + 1);
    var more := |found| > limit.value;
    if more {
      found := found[..limit.value];
    }
    var entries: seq<Row> := [];
    for i := 0 to |found|
      invariant entries == found[..i]
    {
      entries := entries + [found[i]];
    }
    assert found[..|found|] == found;
    var next := 0;
    if more {
      next := entries[|entries| - 1].id;
    }
    return Found(Page(entries, next));
  }

  /** The entry page of GetCatalog: the same paging over one catalog's rows. */
  method CatalogPage(rows: seq<Row>, catalog: nat, cursor: nat, rawLimit: int) returns (r: SearchResult)
    ensures r.BadLimit? <==> rawLimit < 0 || rawLimit > 200
    ensures 0 <= rawLimit <= 200 ==> r.Found?
    ensures r.Found? && Ordered(rows) ==>
      IsPage(rows, cursor, (row: Row) => row.catalog == catalog, if rawLimit == 0 then 50 else rawLimit, r.page)
  {
    hide IsPage, Ordered;
    r := SearchPage(rows, cursor, InCatalog(catalog), rawLimit, "");
    if r.Found? && Ordered(rows) {
      SamePages(rows, cursor, InCatalog(catalog), (row: Row) => row.catalog == catalog, if rawLimit == 0 then 50 else rawLimit, r.page);
    }
  }

  function InCatalog(catalog: nat): Filter { (r: Row) => r.catalog == catalog }

  // -- The text filter ------------------------------------------------------------------

  /**
   Lower-casing, character by character: of the query by strings.ToLower, over all of
   Unicode, and of the columns by SQL's LOWER, which in SQLite knows ASCII only.
   */
  datatype Lowering = Lowering(query: char -> char, column: char -> char)

  function Each(f: char -> char): string -> string {
    (s: string) => seq(|s|, i requires 0 <= i < |s| => f(s[i]))
  }

  function AsciiLower(c: char): char { if 'A' <= c <= 'Z' then (c as int + 32) as char else c }

  /** What is left of the query after trim is matched against each column; an empty query is no filter. */
  predicate QueryMatches(trim: string -> string, l: Lowering, query: string, texts: seq<string>) {
    var needle := trim(query);
    needle == ""
    || exists k :: 0 <= k < |texts| && Like.Matches(Like.LikeContains(Each(l.query), needle), Each(l.column)(texts[k]))
  }

  lemma QueryFindsSubstrings(trim: string -> string, l: Lowering, query: string, texts: seq<string>)
    ensures var needle := trim(query);
      QueryMatches(trim, l, query, texts)
      <==> needle == "" || exists k :: 0 <= k < |texts| && Like.Contains(Each(l.column)(texts[k]), Each(l.query)(needle))
  {
    hide Like.Matches, Like.Contains, Like.LikeContains;
    var needle := trim(query);
    forall k | 0 <= k < |texts|
      ensures Like.Matches(Like.LikeContains(Each(l.query), needle), Each(l.column)(texts[k]))
         <==> Like.Contains(Each(l.column)(texts[k]), Each(l.query)(needle))
    {
      Like.LikeMeansContains(Each(l.query), needle, Each(l.column)(texts[k]));
    }
  }

  /** Case-insensitive search: the text contains the needle when both are lower-cased alike. */
  predicate Insensitive(l: Lowering, needle: string, text: string) {
    Like.Contains(Each(l.query)(text), Each(l.query)(needle))
  }

  predicate Finds(l: Lowering, needle: string, text: string) {
    Like.Contains(Each(l.column)(text), Each(l.query)(needle))
  }

  /** Both lower-casings take the same characters to those of the needle. */
  ghost predicate LowersAlike(l: Lowering, needle: string) {
    forall i, x: char :: 0 <= i < |needle| ==> (l.query(x) == l.query(needle[i]) <==> l.column(x) == l.query(needle[i]))
  }

  lemma ContainsAt(f: char -> char, text: string, part: string)
    ensures Like.Contains(Each(f)(text), part)
       <==> exists j :: 0 <= j <= |text| - |part| && HasAt(f, text, part, j)
  {
    var s := Each(f)(text);
    if Like.Contains(s, part) {
      var j :| 0 <= j <= |s| && part <= s[j..];
      forall i | 0 <= i < |part| ensures f(text[j + i]) == part[i] {
        assert part[i] == s[j..][i];
      }
      assert HasAt(f, text, part, j);
    }
    if j :| 0 <= j <= |text| - |part| && HasAt(f, text, part, j) {
      assert forall i :: 0 <= i < |part| ==> s[j..][i] == f(text[j + i]) == part[i];
      assert part <= s[j..];
    }
  }

  predicate HasAt(f: char -> char, text: string, part: string, j: nat)
    requires j + |part| <= |text|
  {
    forall i :: 0 <= i < |part| ==> f(text[j + i]) == part[i]
  }

  /** A text as long as the needle contains it at 0 or nowhere. */
  lemma WholeText(f: char -> char, text: string, part: string)
    requires |text| == |part|
    ensures Like.Contains(Each(f)(text), part) <==> forall i :: 0 <= i < |part| ==> f(text[i]) == part[i]
  {
    hide Like.Contains;
    ContainsAt(f, text, part);
    assert HasAt(f, text, part, 0) <==> forall i :: 0 <= i < |part| ==> f(text[0 + i]) == part[i];
  }

  /**
   The exact condition: the filter finds the same texts as case-insensitive search
   if and only if both lower-casings take the same characters to those of the
   needle. SQL's LOWER is only asked to leave the characters of a lower-cased query alone.
   */
  lemma FilterIsInsensitiveExactly(l: Lowering, needle: string)
    requires forall i :: 0 <= i < |needle| ==> l.column(l.query(needle[i])) == l.query(needle[i])
    requires forall i :: 0 <= i < |needle| ==> l.query(l.query(needle[i])) == l.query(needle[i])
    ensures (forall text :: Finds(l, needle, text) <==> Insensitive(l, needle, text)) <==> LowersAlike(l, needle)
  {
    hide Like.Contains;
    var part := Each(l.query)(needle);
    if LowersAlike(l, needle) {
      forall text ensures Finds(l, needle, text) <==> Insensitive(l, needle, text) {
        AlikeFindsAlike(l, needle, text);
      }
    } else {
      var i, x :| 0 <= i < |needle| && !(l.query(x) == l.query(needle[i]) <==> l.column(x) == l.query(needle[i]));
      var text := part[i := x];
      WholeText(l.query, text, part);
      WholeText(l.column, text, part);
      assert Finds(l, needle, text) <==> l.column(text[i]) == part[i];
      assert Insensitive(l, needle, text) <==> l.query(text[i]) == part[i];
    }
  }

  lemma AlikeFindsAlike(l: Lowering, needle: string, text: string)
    requires LowersAlike(l, needle)
    ensures Finds(l, needle, text) <==> Insensitive(l, needle, text)
  {
    hide Like.Contains;
    var part := Each(l.query)(needle);
    ContainsAt(l.query, text, part);
    ContainsAt(l.column, text, part);
    forall j | 0 <= j <= |text| - |part| ensures HasAt(l.query, text, part, j) <==> HasAt(l.column, text, part, j) {
      assert forall i :: 0 <= i < |part| ==> (l.query(text[j + i]) == l.query(needle[i]) <==> l.column(text[j + i]) == l.query(needle[i]));
    }
  }

  /** On SQLite: exactly when no character but an ASCII capital is lower-cased to one of the needle's. */
  lemma SqliteIsInsensitiveExactly(goLower: char -> char, needle: string)
    requires forall c :: goLower(goLower(c)) == goLower(c)
    requires forall c :: 'A' <= c <= 'Z' ==> goLower(c) == AsciiLower(c)
    ensures var l := Lowering(goLower, AsciiLower);
      (forall text :: Finds(l, needle, text) <==> Insensitive(l, needle, text))
      <==> forall x :: goLower(x) in Each(goLower)(needle) ==> 'A' <= x <= 'Z' || goLower(x) == x
  {
    hide Finds, Insensitive;
    var l := Lowering(goLower, AsciiLower);
    var part := Each(goLower)(needle);
    forall c ensures AsciiLower(goLower(c)) == goLower(c) {
      if 'A' <= goLower(c) <= 'Z' {
        assert goLower(goLower(c)) == AsciiLower(goLower(c));
      }
    }
    FilterIsInsensitiveExactly(l, needle);
    if LowersAlike(l, needle) {
      forall x | goLower(x) in part ensures 'A' <= x <= 'Z' || goLower(x) == x {
        var i :| 0 <= i < |part| && part[i] == goLower(x);
        assert goLower(x) == goLower(needle[i]) <==> AsciiLower(x) == goLower(needle[i]);
      }
    }
    if forall x :: goLower(x) in part ==> 'A' <= x <= 'Z' || goLower(x) == x {
      forall i, x: char | 0 <= i < |needle| ensures goLower(x) == goLower(needle[i]) <==> AsciiLower(x) == goLower(needle[i]) {
        assert part[i] == goLower(needle[i]);
        assert goLower(goLower(needle[i])) == goLower(needle[i]);
      }
    }
  }

  /** The failing input: on SQLite a query for a letter outside ASCII misses the very same letter in upper case. */
  lemma CapitalsOutsideAsciiAreMissed(trim: string -> string, goLower: char -> char)
    requires goLower('\U{00C9}') == '\U{00E9}' && trim(['\U{00C9}']) == ['\U{00C9}']
    ensures var l := Lowering(goLower, AsciiLower);
      && !QueryMatches(trim, l, ['\U{00C9}'], [['\U{00C9}']])
      && Insensitive(l, ['\U{00C9}'], ['\U{00C9}'])
  {
    var l := Lowering(goLower, AsciiLower);
    var text := ['\U{00C9}'];
    QueryFindsSubstrings(trim, l, text, [text]);
    hide Like.Contains, QueryMatches;
    WholeText(l.query, text, Each(goLower)(text));
    WholeText(l.column, text, Each(goLower)(text));
    assert AsciiLower(text[0]) != Each(goLower)(text)[0];
  }

  // -- Matching rows around a cursor ------------------------------------------------------

  function Matching(rows: seq<Row>, keep: Filter): seq<Row> { Select(rows, 0, keep) }

  lemma {:induction false} SelectAppend(a: seq<Row>, b: seq<Row>, cursor: nat, keep: Filter)
    ensures Select(a + b, cursor, keep) == Select(a, cursor, keep) + Select(b, cursor, keep)
  {
    hide Wanted;
    if a == [] {
      assert a + b == b;
    } else {
      SelectAppend(a[1..], b, cursor, keep);
      assert (a + b)[1..] == a[1..] + b && (a + b)[0] == a[0];
    }
  }

  lemma OrderedTail(rows: seq<Row>)
    requires Ordered(rows) && rows != []
    ensures Ordered(rows[1..]) && rows[0].id > 0
    ensures forall k :: 0 <= k < |rows[1..]| ==> rows[1..][k].id > rows[0].id
  {
    assert forall k :: 0 <= k < |rows[1..]| ==> rows[1..][k] == rows[k + 1];
  }

  lemma OrderedCons(r: Row, tail: seq<Row>)
    requires Ordered(tail) && r.id > 0 && forall k :: 0 <= k < |tail| ==> tail[k].id > r.id
    ensures Ordered([r] + tail)
  {
  }

  lemma OrderedParts(a: seq<Row>, b: seq<Row>)
    requires Ordered(a + b)
    ensures Ordered(b)
    ensures forall i, j :: 0 <= i < |a| && 0 <= j < |b| ==> a[i].id < b[j].id
  {
    var s := a + b;
    assert forall k :: 0 <= k < |b| ==> s[|a| + k] == b[k];
    forall i, j | 0 <= i < |a| && 0 <= j < |b| ensures a[i].id < b[j].id {
      assert s[i].id < s[|a| + j].id;
    }
  }

  /** How many of the rows have an id up to the cursor. */
  function UpTo(rows: seq<Row>, cursor: nat): (n: nat)
    ensures n <= |rows|
  {
    if rows == [] || rows[0].id > cursor then 0 else 1 + UpTo(rows[1..], cursor)
  }

  /** Bounds every id of a table keeps. */
  lemma {:induction false} SelectBounded(rows: seq<Row>, cursor: nat, keep: Filter, bound: nat)
    requires forall k :: 0 <= k < |rows| ==> rows[k].id > bound
    ensures forall k :: 0 <= k < |Select(rows, cursor, keep)| ==> Select(rows, cursor, keep)[k].id > bound
  {
    hide Wanted;
    if rows != [] {
      SelectBounded(rows[1..], cursor, keep, bound);
    }
  }

  lemma {:induction false} SelectOrdered(rows: seq<Row>, cursor: nat, keep: Filter)
    requires Ordered(rows)
    ensures Ordered(Select(rows, cursor, keep))
  {
    hide Wanted, Ordered;
    if rows != [] {
      OrderedTail(rows);
      SelectOrdered(rows[1..], cursor, keep);
      SelectBounded(rows[1..], cursor, keep, rows[0].id);
      OrderedCons(rows[0], Select(rows[1..], cursor, keep));
    } else {
      assert Ordered(Select(rows, cursor, keep)) by { NothingOrdered(); }
    }
  }

  lemma NothingOrdered()
    ensures Ordered([])
  {
  }

  lemma {:induction false} NoneUpTo(rows: seq<Row>, cursor: nat)
    requires forall k :: 0 <= k < |rows| ==> rows[k].id > cursor
    ensures UpTo(rows, cursor) == 0
  {
  }

  lemma {:induction false} UpToAt(rows: seq<Row>, i: nat)
    requires Ordered(rows) && i < |rows|
    ensures UpTo(rows, rows[i].id) == i + 1
  {
    OrderedTail(rows);
    if i == 0 {
      NoneUpTo(rows[1..], rows[0].id);
    } else {
      assert rows[i] == rows[1..][i - 1];
      UpToAt(rows[1..], i - 1);
    }
  }

  /** Rows behind the cursor do not count. */
  lemma {:induction false} UpToAppend(rows: seq<Row>, more: seq<Row>, cursor: nat)
    requires forall k :: 0 <= k < |more| ==> more[k].id > cursor
    ensures UpTo(rows + more, cursor) == UpTo(rows, cursor)
  {
    if rows == [] {
      assert rows + more == more;
      NoneUpTo(more, cursor);
    } else {
      assert (rows + more)[1..] == rows[1..] + more;
      UpToAppend(rows[1..], more, cursor);
    }
  }

  /** What a query beyond a cursor selects is what the matching rows hold beyond it. */
  lemma {:induction false} SelectIsBeyond(rows: seq<Row>, cursor: nat, keep: Filter)
    requires Ordered(rows)
    ensures var all := Matching(rows, keep); Select(rows, cursor, keep) == all[UpTo(all, cursor)..]
  {
    if rows != [] {
      var tail := Matching(rows[1..], keep);
      OrderedTail(rows);
      SelectIsBeyond(rows[1..], cursor, keep);
      if !keep(rows[0]) {
        assert Matching(rows, keep) == tail;
      } else {
        var all := [rows[0]] + tail;
        assert Matching(rows, keep) == all && all[1..] == tail;
        if rows[0].id <= cursor {
          assert all[1 + UpTo(tail, cursor)..] == tail[UpTo(tail, cursor)..];
        } else {
          AllBeyond(rows[1..], cursor, rows[0].id, keep);
          assert all[0..] == all;
        }
      }
    }
  }

  lemma {:induction false} AllBeyond(rows: seq<Row>, cursor: nat, bound: nat, keep: Filter)
    requires bound > cursor && forall i :: 0 <= i < |rows| ==> rows[i].id > bound
    ensures Select(rows, cursor, keep) == Matching(rows, keep)
  {
    if rows != [] {
      AllBeyond(rows[1..], cursor, bound, keep);
    }
  }

  /** The next `limit` of all rows from the n-th on, with the last one's id as cursor. */
  function NextRows(all: seq<Row>, n: nat, limit: nat): Page
    requires n <= |all| && limit >= 1
  {
    if |all| - n > limit then Page(all[n..n + limit], all[n + limit - 1].id) else Page(all[n..], 0)
  }

  lemma TakeIsNextRows(all: seq<Row>, n: nat, limit: nat)
    requires n <= |all| && limit >= 1
    ensures var found := Take(all[n..], limit + 1);
      NextRows(all, n, limit) == if |found| > limit then Page(found[..limit], found[limit - 1].id) else Page(found, 0)
  {
    if |all| - n > limit {
      assert all[n..][..limit + 1][..limit] == all[n..n + limit];
    }
  }

  /** A page in terms of the matching rows. */
  lemma PageIsNextRows(rows: seq<Row>, cursor: nat, keep: Filter, limit: nat)
    requires Ordered(rows) && limit >= 1
    ensures var all := Matching(rows, keep); PageOf(rows, cursor, keep, limit) == NextRows(all, UpTo(all, cursor), limit)
  {
    SelectIsBeyond(rows, cursor, keep);
    var all := Matching(rows, keep);
    hide Select, Ordered, UpTo, Matching, NextRows, Take;
    TakeIsNextRows(all, UpTo(all, cursor), limit);
  }

  // -- Following the cursor ----------------------------------------------------------------

  /** Between pages rows with larger ids may be inserted, nothing else. */
  ghost predicate Growing(tables: seq<seq<Row>>) {
    && (forall k :: 0 <= k < |tables| ==> Ordered(tables[k]))
    && forall k :: 0 <= k && k + 1 < |tables| ==> tables[k] <= tables[k + 1]
  }

  datatype Walk = Walk(seen: seq<Row>, cursor: nat, finished: bool)

  /** The first k pages; page i reads tables[i] with limits[i], and the walk stops at an absent cursor. */
  function Follow(tables: seq<seq<Row>>, limits: seq<nat>, keep: Filter, k: nat): Walk
    requires k <= |limits| < |tables| && forall i :: 0 <= i < |limits| ==> limits[i] >= 1
  {
    if k == 0 then Walk([], 0, false)
    else
      var before := Follow(tables, limits, keep, k - 1);
      if before.finished then before
      else
        var p := PageOf(tables[k - 1], before.cursor, keep, limits[k - 1]);
        Walk(before.seen + p.entries, p.next, p.next == 0)
  }

  /** The walk has seen the matching rows up to its cursor, which is the id of the last one, and no others. */
  ghost predicate OnTrack(w: Walk, rows: seq<Row>, keep: Filter) {
    var all := Matching(rows, keep);
    && w.seen == all[..UpTo(all, w.cursor)]
    && (w.cursor > 0 ==> w.seen != [] && w.seen[|w.seen| - 1].id == w.cursor)
  }

  /** Rows inserted with larger ids change nothing for the walk so far. */
  lemma GrowthKeepsTrack(w: Walk, rows: seq<Row>, rows': seq<Row>, keep: Filter)
    requires Ordered(rows') && rows <= rows' && OnTrack(w, rows, keep)
    ensures OnTrack(w, rows', keep)
  {
    var added := rows'[|rows|..];
    assert rows' == rows + added;
    var all, more := Matching(rows, keep), Matching(added, keep);
    SelectAppend(rows, added, 0, keep);
    SelectOrdered(rows', 0, keep);
    OrderedParts(all, more);
    hide Select, Ordered, Matching;
    if w.cursor > 0 {
      assert w.seen[|w.seen| - 1] == all[|w.seen| - 1];
    }
    UpToAppend(all, more, w.cursor);
    assert (all + more)[..UpTo(all, w.cursor)] == all[..UpTo(all, w.cursor)];
  }

  lemma MoreRows(all: seq<Row>, n: nat, limit: nat)
    requires limit >= 1 && n + limit < |all|
    ensures var (p, seen) := (NextRows(all, n, limit), all[..n + limit]);
      && p.next == all[n + limit - 1].id == seen[|seen| - 1].id
      && |p.entries| == limit && all[..n] + p.entries == seen
  {
  }

  lemma LastRows(all: seq<Row>, n: nat, limit: nat)
    requires limit >= 1 && n <= |all| <= n + limit
    ensures NextRows(all, n, limit).next == 0 && all[..n] + NextRows(all, n, limit).entries == all
  {
  }

  lemma PageKeepsTrack(w: Walk, rows: seq<Row>, keep: Filter, limit: nat)
    requires Ordered(rows) && limit >= 1 && OnTrack(w, rows, keep)
    ensures var p := PageOf(rows, w.cursor, keep, limit);
      if p.next == 0 then w.seen + p.entries == Matching(rows, keep)
      else OnTrack(Walk(w.seen + p.entries, p.next, false), rows, keep) && |p.entries| == limit
  {
    PageIsNextRows(rows, w.cursor, keep, limit);
    SelectOrdered(rows, 0, keep);
    var all := Matching(rows, keep);
    var n := UpTo(all, w.cursor);
    hide Select, PageOf, UpTo, NextRows, Matching;
    if n + limit < |all| {
      assert all[n + limit - 1].id > 0;
      hide Ordered;
      UpToAt(all, n + limit - 1);
      MoreRows(all, n, limit);
    } else {
      LastRows(all, n, limit);
    }
  }

  lemma {:induction false} WalkOnTrack(tables: seq<seq<Row>>, limits: seq<nat>, keep: Filter, k: nat)
    requires Growing(tables) && k <= |limits| < |tables| && forall i :: 0 <= i < |limits| ==> limits[i] >= 1
    requires !Follow(tables, limits, keep, k).finished
    ensures OnTrack(Follow(tables, limits, keep, k), tables[k], keep)
    ensures |Follow(tables, limits, keep, k).seen| >= k
  {
    hide PageOf, OnTrack, Ordered;
    if k > 0 {
      var before := Follow(tables, limits, keep, k - 1);
      WalkOnTrack(tables, limits, keep, k - 1);
      PageKeepsTrack(before, tables[k - 1], keep, limits[k - 1]);
      assert tables[k - 1] <= tables[(k - 1) + 1];
      GrowthKeepsTrack(Follow(tables, limits, keep, k), tables[k - 1], tables[k], keep);
    } else {
      NothingSeen(tables[0], keep);
    }
  }

  lemma NothingSeen(rows: seq<Row>, keep: Filter)
    requires Ordered(rows)
    ensures OnTrack(Walk([], 0, false), rows, keep)
  {
    SelectOrdered(rows, 0, keep);
    NoneUpTo(Matching(rows, keep), 0);
  }

  /**
   Following the cursor until it is absent returns every matching row exactly once,
   in id order, whatever the limits of the pages and whatever was inserted in between.
   */
  lemma PaginationIsExact(tables: seq<seq<Row>>, limits: seq<nat>, keep: Filter, k: nat)
    requires Growing(tables) && k < |limits| < |tables| && forall i :: 0 <= i < |limits| ==> limits[i] >= 1
    requires !Follow(tables, limits, keep, k).finished && Follow(tables, limits, keep, k + 1).finished
    ensures Follow(tables, limits, keep, k + 1).seen == Matching(tables[k], keep)
    ensures Ordered(Matching(tables[k], keep))
    ensures Matching(tables[0], keep) <= Follow(tables, limits, keep, k + 1).seen
  {
    hide PageOf, OnTrack, Select;
    WalkOnTrack(tables, limits, keep, k);
    PageKeepsTrack(Follow(tables, limits, keep, k), tables[k], keep, limits[k]);
    SelectOrdered(tables[k], 0, keep);
    FirstTableStays(tables, keep, k);
  }

  lemma {:induction false} FirstTableStays(tables: seq<seq<Row>>, keep: Filter, k: nat)
    requires Growing(tables) && k < |tables|
    ensures Matching(tables[0], keep) <= Matching(tables[k], keep)
  {
    if k > 0 {
      FirstTableStays(tables, keep, k - 1);
      assert tables[k - 1] <= tables[(k - 1) + 1];
      var added := tables[k][|tables[k - 1]|..];
      assert tables[k] == tables[k - 1] + added;
      SelectAppend(tables[k - 1], added, 0, keep);
    }
  }

  lemma SeenWithin(w: Walk, rows: seq<Row>, keep: Filter)
    requires OnTrack(w, rows, keep)
    ensures |w.seen| <= |Matching(rows, keep)|
  {
  }

  function Unchanging(rows: seq<Row>, n: nat): seq<seq<Row>> { seq(n, i => rows) }

  /** On a table that no longer changes the walk ends, after at most one page more than there are matching rows. */
  lemma PaginationEnds(rows: seq<Row>, limits: seq<nat>, keep: Filter)
    requires Ordered(rows) && (forall i :: 0 <= i < |limits| ==> limits[i] >= 1) && |limits| > |Matching(rows, keep)|
    ensures Follow(Unchanging(rows, |limits| + 1), limits, keep, |limits|).finished
  {
    hide Follow, OnTrack, Select, Ordered;
    var tables := Unchanging(rows, |limits| + 1);
    if !Follow(tables, limits, keep, |limits|).finished {
      WalkOnTrack(tables, limits, keep, |limits|);
      SeenWithin(Follow(tables, limits, keep, |limits|), rows, keep);
    }
  }
}
