/** Seed host names (internal/seed/seed.go): sanitizing, deduplicating, and the incremental collector. */
module Hostnames {
  import opened Basics

  /** strings.TrimSpace and strings.ToLower over Unicode text. */
  datatype Text = Text(trim: string -> string, lower: string -> string)

  predicate HostChar(c: char) { 'a' <= c <= 'z' || '0' <= c <= '9' || c == '-' }

  predicate HostChars(s: string) { forall k :: 0 <= k < |s| ==> HostChar(s[k]) || s[k] == '.' }

  /** Neither changes a text of lower-case letters, digits, hyphens and dots. */
  predicate LawfulAt(t: Text, s: string) { HostChars(s) ==> t.trim(s) == s && t.lower(s) == s }

  ghost predicate Lawful(t: Text) { forall s :: LawfulAt(t, s) }

  function FirstDot(s: string): (i: nat)
    ensures i <= |s| && (i < |s| ==> s[i] == '.') && forall k :: 0 <= k < i ==> s[k] != '.'
  {
    if s == "" || s[0] == '.' then 0 else FirstDot(s[1..]) + 1
  }

  predicate LabelOk(part: string) {
    && part != "" && |part| <= 63
    && part[0] != '-' && part[|part| - 1] != '-'
    && forall k :: 0 <= k < |part| ==> HostChar(part[k])
  }

  predicate LabelsOk(s: string) {
    var i := FirstDot(s);
    LabelOk(s[..i]) && (i < |s| ==> LabelsOk(s[i + 1..]))
  }

  predicate IsValidHostname(s: string) { s != "" && |s| <= 253 && LabelsOk(s) }

  predicate Digit(c: char) { '0' <= c <= '9' }

  function Number(s: string): nat {
    if s == "" || !Digit(s[|s| - 1]) then 0 else Number(s[..|s| - 1]) * 10 + (s[|s| - 1] as int - '0' as int)
  }

  /** A decimal octet without leading zeros. */
  predicate Octet(s: string) {
    1 <= |s| <= 3 && (forall k :: 0 <= k < |s| ==> Digit(s[k])) && (|s| > 1 ==> s[0] != '0') && Number(s) <= 255
  }

  /** net.ParseIP on names without a colon; IsValidHostname drops the others anyway. */
  predicate IsIPv4(s: string, octets: nat := 4) {
    var i := FirstDot(s);
    octets > 0 && Octet(s[..i]) && if octets == 1 then i == |s| else i < |s| && IsIPv4(s[i + 1..], octets - 1)
  }

  function TrimPrefix(s: string, prefix: string): string {
    if prefix <= s then s[|prefix|..] else s
  }

  function TrimDot(s: string): string {
    if s != "" && s[|s| - 1] == '.' then s[..|s| - 1] else s
  }

  function SanitizeName(t: Text, raw: string): Option<string> {
    var trimmed := t.trim(raw);
    if trimmed == "" then None
    else
      var name := TrimDot(t.lower(TrimPrefix(trimmed, "*.")));
      if '.' !in name || IsIPv4(name) || !IsValidHostname(name) then None else Some(name)
  }

  lemma {:induction false} LabelsMean(s: string)
    requires LabelsOk(s)
    ensures s != "" && HostChars(s) && s[|s| - 1] != '.'
  {
    var i := FirstDot(s);
    if i < |s| {
      LabelsMean(s[i + 1..]);
      forall k | 0 <= k < |s| ensures HostChar(s[k]) || s[k] == '.' {
        assert k < i ==> s[..i][k] == s[k];
        assert k > i ==> s[i + 1..][k - i - 1] == s[k];
      }
    } else {
      assert s[..i] == s;
    }
  }

  /** A sanitized name is its own sanitized form. */
  lemma SanitizedStays(t: Text, raw: string)
    requires Lawful(t) && SanitizeName(t, raw).Some?
    ensures SanitizeName(t, SanitizeName(t, raw).value) == SanitizeName(t, raw)
  {
    var name := SanitizeName(t, raw).value;
    LabelsMean(name);
    assert LawfulAt(t, name);
    NoWildcard(name);
  }

  lemma NoWildcard(s: string)
    requires HostChars(s) && s != ""
    ensures !("*." <= s)
  {
    assert "*."[0] == '*' && s[0] != '*';
  }

  // -- Sanitize --------------------------------------------------------------------------

  function Sanitize(t: Text, names: seq<string>): seq<string> {
    if names == [] then []
    else
      var before := Sanitize(t, names[..|names| - 1]);
      var last := SanitizeName(t, names[|names| - 1]);
      if last.None? || last.value in before then before else before + [last.value]
  }

  /** One more raw name. */
  lemma SanitizeNext(t: Text, names: seq<string>, raw: string)
    ensures var (before, last) := (Sanitize(t, names), SanitizeName(t, raw));
      Sanitize(t, names + [raw]) == if last.None? || last.value in before then before else before + [last.value]
  {
    hide SanitizeName;
    assert (names + [raw])[..|names|] == names;
  }

  lemma {:induction false} SanitizeGrows(t: Text, a: seq<string>, b: seq<string>)
    ensures Sanitize(t, a) <= Sanitize(t, a + b)
  {
    hide SanitizeName;
    if b == [] {
      assert a + b == a;
    } else {
      var n := |b| - 1;
      SanitizeGrows(t, a, b[..n]);
      assert (a + b)[..|a| + n] == a + b[..n];
    }
  }

  predicate Distinct(s: seq<string>) { forall i, j :: 0 <= i < j < |s| ==> s[i] != s[j] }

  predicate Comes(t: Text, names: seq<string>, x: string) {
    exists k :: 0 <= k < |names| && SanitizeName(t, names[k]) == Some(x)
  }

  /** The result holds every sanitized name once. */
  lemma {:induction false} SanitizeMeans(t: Text, names: seq<string>)
    ensures Distinct(Sanitize(t, names))
    ensures forall x :: x in Sanitize(t, names) <==> Comes(t, names, x)
  {
    hide SanitizeName;
    if names != [] {
      var n := |names| - 1;
      var before := names[..n];
      SanitizeMeans(t, before);
      forall x ensures x in Sanitize(t, names) <==> Comes(t, names, x) {
        if Comes(t, before, x) {
          var k :| 0 <= k < n && SanitizeName(t, before[k]) == Some(x);
          assert names[k] == before[k];
        }
        if Comes(t, names, x) {
          var k :| 0 <= k <= n && SanitizeName(t, names[k]) == Some(x);
          assert k < n ==> before[k] == names[k];
        }
      }
    }
  }

  /** Sanitizing the result again changes nothing. */
  lemma SanitizeTwice(t: Text, names: seq<string>)
    requires Lawful(t)
    ensures Sanitize(t, Sanitize(t, names)) == Sanitize(t, names)
  {
    var s := Sanitize(t, names);
    SanitizeMeans(t, names);
    forall i | 0 <= i < |s| ensures SanitizeName(t, s[i]) == Some(s[i]) {
      assert Comes(t, names, s[i]);
      var k :| 0 <= k < |names| && SanitizeName(t, names[k]) == Some(s[i]);
      SanitizedStays(t, names[k]);
    }
    FixedStays(t, s);
  }

  lemma {:induction false} FixedStays(t: Text, s: seq<string>)
    requires Distinct(s) && forall i :: 0 <= i < |s| ==> SanitizeName(t, s[i]) == Some(s[i])
    ensures Sanitize(t, s) == s
  {
    hide SanitizeName;
    if s != [] {
      var n := |s| - 1;
      FixedStays(t, s[..n]);
      assert s == s[..n] + [s[n]];
      forall k | 0 <= k < n ensures s[..n][k] != s[n] {
        assert s[k] != s[n];
      }
    }
  }

  method SanitizeAll(t: Text, names: seq<string>) returns (out: seq<string>)
    ensures out == Sanitize(t, names)
  {
    hide SanitizeName;
    var seen: set<string> := {};
    out := [];
    for i := 0 to |names|
      invariant out == Sanitize(t, names[..i])
      invariant forall x :: x in seen <==> x in out
    {
      assert names[..i + 1][..i] == names[..i];
      var name := SanitizeName(t, names[i]);
      if name.None? || name.value in seen {
        continue;
      }
      seen := seen + {name.value};
      out := out + [name.value];
    }
    assert names[..|names|] == names;
  }

  // -- The collector --------------------------------------------------------------------------

  function Take<T>(s: seq<T>, limit: int): seq<T> {
    if limit <= 0 then [] else if limit < |s| then s[..limit] else s
  }

  /** Once full, more names make no difference. */
  lemma FullIsFinal(t: Text, a: seq<string>, b: seq<string>, limit: int)
    requires |Take(Sanitize(t, a), limit)| >= limit
    ensures Take(Sanitize(t, a + b), limit) == Take(Sanitize(t, a), limit)
  {
    SanitizeGrows(t, a, b);
  }

  lemma CollectorStep(t: Text, fed: seq<string>, raw: string, limit: int)
    requires |Take(Sanitize(t, fed), limit)| < limit
    ensures var (names, name) := (Take(Sanitize(t, fed), limit), SanitizeName(t, raw));
      Take(Sanitize(t, fed + [raw]), limit) == if name.None? || name.value in names then names else names + [name.value]
  {
    hide SanitizeName, Sanitize;
    SanitizeNext(t, fed, raw);
  }

  /** fed is everything the collector was given; it holds the first `limit` of its sanitized names. */
  class DomainCollector {
    const t: Text
    const limit: int
    var seen: set<string>
    var names: seq<string>
    ghost var fed: seq<string>

    ghost predicate Valid() reads this {
      && names == Take(Sanitize(t, fed), limit)
      && forall x :: x in seen <==> x in names
    }

    constructor (t: Text, limit: int)
      ensures Valid() && this.t == t && this.limit == limit && fed == []
    {
      this.t := t;
      this.limit := limit;
      seen, names, fed := {}, [], [];
    }

    predicate Full() reads this { |names| >= limit }

    method Add(raw: seq<string>)
      requires Valid()
      modifies this
      ensures Valid() && fed == old(fed) + raw
      ensures names == Take(Sanitize(t, fed), limit)
    {
      hide SanitizeName, Sanitize, Take;
      ghost var before := fed;
      assert before + raw[..0] == before;
      for i := 0 to |raw|
        invariant Valid() && fed == before + raw[..i]
      {
        if Full() {
          FullIsFinal(t, fed, raw[i..], limit);
          assert before + raw == fed + raw[i..];
          fed := before + raw;
          return;
        }
        CollectorStep(t, fed, raw[i], limit);
        assert before + raw[..i + 1] == fed + [raw[i]];
        fed := fed + [raw[i]];
        var name := SanitizeName(t, raw[i]);
        if name.None? || name.value in seen {
          continue;
        }
        seen := seen + {name.value};
        names := names + [name.value];
      }
      assert before + raw[..|raw|] == before + raw;
    }
  }

  /** Names sanitized once already, as those of an earlier log, may be fed again with the same result. */
  lemma {:induction false} SanitizedFirst(t: Text, a: seq<string>, b: seq<string>)
    requires Lawful(t)
    ensures Sanitize(t, Sanitize(t, a) + b) == Sanitize(t, a + b)
  {
    hide SanitizeName, Sanitize;
    if b == [] {
      SanitizeTwice(t, a);
      assert Sanitize(t, a) + b == Sanitize(t, a) && a + b == a;
    } else {
      var n := |b| - 1;
      SanitizedFirst(t, a, b[..n]);
      SanitizeNext(t, a + b[..n], b[n]);
      SanitizeNext(t, Sanitize(t, a) + b[..n], b[n]);
      assert a + b == a + b[..n] + [b[n]];
      assert Sanitize(t, a) + b == Sanitize(t, a) + b[..n] + [b[n]];
    }
  }
}
