/**
 ARD URNs of internal/ard/types.go: parsing, printing, and the normal form used
 for schema validation and for the uniqueness check of internal/ard/verify.go.
 A char stands for one byte. The prefix is folded over ASCII letters.
 */
module Urn {
  import opened Basics

  /** Unicode lower-casing and IDNA's ToASCII, which the code takes from libraries. */
  datatype Idna = Idna(lower: string -> string, toAscii: string -> Option<string>)

  predicate ColonFree(s: string) { forall k :: 0 <= k < |s| ==> s[k] != ':' }

  /**
   Lower-casing is idempotent and keeps a domain name one. ToASCII, which maps no
   case itself, turns a lower-case name into one that is lower-case still and that
   it leaves as it is.
   */
  predicate LawfulAt(e: Idna, s: string) {
    && e.lower(e.lower(s)) == e.lower(s)
    && (ColonFree(s) && s != "" ==> ColonFree(e.lower(s)) && e.lower(s) != "")
    && (ColonFree(s) && s != "" && e.lower(s) == s && e.toAscii(s).Some? ==>
          var a := e.toAscii(s).value;
          e.lower(a) == a && ColonFree(a) && a != "" && e.toAscii(a) == Some(a))
  }

  ghost predicate Lawful(e: Idna) { forall s :: LawfulAt(e, s) }

  datatype URN = URN(nid: string, publisher: string, namespace: seq<string>, name: string)

  datatype ParseError = BadPrefix | NoBody | EmptySegment | TooFewSegments | BadPublisher

  datatype Parsed = Ok(urn: URN) | Err(error: ParseError)

  const Nids: seq<string> := ["air", "ai"]

  function Prefix(nid: string): string { "urn:" + nid + ":" }

  function Fold(c: char): char { if 'A' <= c <= 'Z' then (c as int + 32) as char else c }

  function FoldAll(s: string): (r: string)
    ensures |r| == |s|
  {
    seq(|s|, i requires 0 <= i < |s| => Fold(s[i]))
  }

  /** The first NID whose prefix s starts with, in any case. */
  function NidOf(s: string): (r: Option<string>)
    ensures r.Some? ==> |Prefix(r.value)| <= |s|
  {
    if Prefix("air") <= FoldAll(s) then Some("air")
    else if Prefix("ai") <= FoldAll(s) then Some("ai")
    else None
  }

  // -- Segments -----------------------------------------------------------------------

  /** The position of the first colon, or |s|. */
  function FirstColon(s: string): (i: nat)
    ensures i <= |s| && ColonFree(s[..i]) && (i < |s| ==> s[i] == ':')
  {
    if s == "" || s[0] == ':' then 0
    else
      var i := FirstColon(s[1..]) + 1;
      assert s[..i] == [s[0]] + s[1..][..i - 1];
      i
  }

  function Split(s: string): (r: seq<string>)
    ensures r != []
  {
    var i := FirstColon(s);
    if i == |s| then [s] else [s[..i]] + Split(s[i + 1..])
  }

  function Join(segments: seq<string>): string
    requires segments != []
  {
    if |segments| == 1 then segments[0] else segments[0] + ":" + Join(segments[1..])
  }

  predicate AllColonFree(segments: seq<string>) { forall k :: 0 <= k < |segments| ==> ColonFree(segments[k]) }

  lemma {:induction false} FirstColonIs(p: string, rest: string)
    requires ColonFree(p) && (rest == "" || rest[0] == ':')
    ensures FirstColon(p + rest) == |p|
  {
    if p == "" {
      assert p + rest == rest;
    } else {
      assert (p + rest)[1..] == p[1..] + rest;
      FirstColonIs(p[1..], rest);
    }
  }

  lemma SplitOne(p: string)
    requires ColonFree(p)
    ensures Split(p) == [p]
  {
    FirstColonIs(p, "");
    assert p + "" == p;
  }

  lemma SplitNext(p: string, rest: string)
    requires ColonFree(p)
    ensures Split(p + ":" + rest) == [p] + Split(rest)
  {
    var s := p + ":" + rest;
    assert s == p + (":" + rest);
    FirstColonIs(p, ":" + rest);
    assert s[..|p|] == p && s[|p| + 1..] == rest;
  }

  lemma {:induction false} SplitJoin(segments: seq<string>)
    requires segments != [] && AllColonFree(segments)
    ensures Split(Join(segments)) == segments
  {
    if |segments| == 1 {
      SplitOne(segments[0]);
    } else {
      SplitJoin(segments[1..]);
      SplitNext(segments[0], Join(segments[1..]));
    }
  }

  lemma {:induction false} JoinSplit(s: string)
    ensures AllColonFree(Split(s)) && Join(Split(s)) == s
  {
    var i := FirstColon(s);
    if i < |s| {
      JoinSplit(s[i + 1..]);
      assert Split(s)[1..] == Split(s[i + 1..]);
      assert s == s[..i] + ":" + s[i + 1..];
    } else {
      assert s[..i] == s;
    }
  }

  lemma SplitParts(s: string)
    ensures var i := FirstColon(s);
      && Split(s)[0] == s[..i]
      && (i < |s| ==> Split(s)[1..] == Split(s[i + 1..]) && s[i..] == ":" + s[i + 1..])
      && (i == |s| ==> Split(s)[1..] == [] && s[i..] == "")
  {
    SplitUnfolds(s);
    hide FirstColon, Split;
    var i := FirstColon(s);
    if i == |s| {
      assert s[..i] == s;
    } else {
      AtColon(s, i);
      HeadAndTail(s[..i], Split(s[i + 1..]));
    }
  }

  lemma AtColon(s: string, i: nat)
    requires i < |s| && s[i] == ':'
    ensures s[i..] == ":" + s[i + 1..]
  {
  }

  lemma HeadAndTail(p: string, tail: seq<string>)
    ensures ([p] + tail)[0] == p && ([p] + tail)[1..] == tail
  {
  }

  lemma SplitUnfolds(s: string)
    ensures var i := FirstColon(s); Split(s) == if i == |s| then [s] else [s[..i]] + Split(s[i + 1..])
  {
    hide FirstColon;
  }

  // -- Parsing and printing -------------------------------------------------------------

  predicate ValidPublisher(p: string) {
    '.' in p && ' ' !in p && '\t' !in p && '\n' !in p
  }

  /** Lower case, then ASCII form if there is one. */
  function Canonical(e: Idna, publisher: string): string {
    var p := e.lower(publisher);
    if e.toAscii(p).Some? then e.toAscii(p).value else p
  }

  function ParseSegments(e: Idna, nid: string, segments: seq<string>): Parsed
    requires segments != []
  {
    if "" in segments then Err(EmptySegment)
    else if |segments| < 2 then Err(TooFewSegments)
    else if !ValidPublisher(Canonical(e, segments[0])) then Err(BadPublisher)
    else Ok(URN(nid, Canonical(e, segments[0]), segments[1..|segments| - 1], segments[|segments| - 1]))
  }

  function ParseBody(e: Idna, nid: string, rest: string): Parsed {
    if rest == "" then Err(NoBody) else ParseSegments(e, nid, Split(rest))
  }

  function Parse(e: Idna, s: string): Parsed {
    var nid := NidOf(s);
    if nid.None? then Err(BadPrefix) else ParseBody(e, nid.value, s[|Prefix(nid.value)|..])
  }

  function Segments(u: URN): (r: seq<string>)
    ensures r != []
  {
    [u.publisher] + u.namespace + [u.name]
  }

  function Print(u: URN): string { Prefix(u.nid) + Join(Segments(u)) }

  method ParseURN(e: Idna, s: string) returns (r: Parsed)
    ensures r == Parse(e, s)
  {
    var nid, rest := "", "";
    var lower := FoldAll(s);
    for k := 0 to |Nids|
      invariant nid == "" && forall m :: 0 <= m < k ==> !(Prefix(Nids[m]) <= lower)
    {
      var prefix := Prefix(Nids[k]);
      if prefix <= lower {
        nid := Nids[k];
        rest := s[|prefix|..];
        break;
      }
    }
    if nid == "" {
      assert !(Prefix(Nids[0]) <= lower) && !(Prefix(Nids[1]) <= lower);
      return Err(BadPrefix);
    }
    if rest == "" {
      return Err(NoBody);
    }
    var segments := Split(rest);
    for k := 0 to |segments|
      invariant forall m :: 0 <= m < k ==> segments[m] != ""
    {
      if segments[k] == "" {
        return Err(EmptySegment);
      }
    }
    if |segments| < 2 {
      return Err(TooFewSegments);
    }
    var publisher := e.lower(segments[0]);
    if e.toAscii(publisher).Some? {
      publisher := e.toAscii(publisher).value;
    }
    var name := segments[|segments| - 1];
    var namespace := segments[1..|segments| - 1];
    if !ValidPublisher(publisher) {
      return Err(BadPublisher);
    }
    return Ok(URN(nid, publisher, namespace, name));
  }

  lemma PrefixRead(nid: string, rest: string)
    requires nid == "air" || nid == "ai"
    ensures NidOf(Prefix(nid) + rest) == Some(nid)
    ensures (Prefix(nid) + rest)[|Prefix(nid)|..] == rest
  {
    var s := Prefix(nid) + rest;
    assert forall k :: 0 <= k < |Prefix(nid)| ==> Fold(s[k]) == s[k] == Prefix(nid)[k];
    assert Prefix(nid) <= FoldAll(s);
    if nid == "ai" {
      assert FoldAll(s)[6] == ':';
    }
  }

  lemma CanonicalFixed(e: Idna, p: string)
    requires Lawful(e) && ColonFree(p) && p != ""
    ensures Canonical(e, Canonical(e, p)) == Canonical(e, p)
    ensures ColonFree(Canonical(e, p)) && Canonical(e, p) != ""
  {
    assert LawfulAt(e, p) && LawfulAt(e, e.lower(p));
  }

  lemma EmptyInTail(p: string, tail: seq<string>)
    requires p != ""
    ensures "" in [p] + tail <==> "" in tail
  {
    var s := [p] + tail;
    if "" in s {
      var k :| 0 <= k < |s| && s[k] == "";
      assert tail[k - 1] == "";
    }
    if "" in tail {
      var k :| 0 <= k < |tail| && tail[k] == "";
      assert s[k + 1] == "";
    }
  }

  lemma CanonicalSegments(e: Idna, nid: string, p: string, tail: seq<string>)
    requires Lawful(e) && ColonFree(p) && p != ""
    ensures ParseSegments(e, nid, [Canonical(e, p)] + tail) == ParseSegments(e, nid, [p] + tail)
  {
    CanonicalFixed(e, p);
    hide Lawful, Canonical, ValidPublisher;
    var q := Canonical(e, p);
    EmptyInTail(p, tail);
    EmptyInTail(q, tail);
    var s, t := [p] + tail, [q] + tail;
    if tail != [] {
      assert s[|s| - 1] == t[|t| - 1] && s[1..|s| - 1] == t[1..|t| - 1];
    }
  }

  /** Replacing the first segment by its canonical form changes nothing the parser sees. */
  lemma CanonicalBody(e: Idna, nid: string, segments: seq<string>)
    requires Lawful(e) && segments != [] && AllColonFree(segments) && segments[0] != ""
    ensures ParseBody(e, nid, Join([Canonical(e, segments[0])] + segments[1..])) == ParseBody(e, nid, Join(segments))
  {
    var canonical := [Canonical(e, segments[0])] + segments[1..];
    CanonicalFixed(e, segments[0]);
    CanonicalSegments(e, nid, segments[0], segments[1..]);
    hide Lawful, Canonical, Split, Join, ParseSegments;
    assert segments == [segments[0]] + segments[1..];
    assert AllColonFree(canonical);
    SplitJoin(segments);
    SplitJoin(canonical);
    NonEmptyJoin(segments);
    NonEmptyJoin(canonical);
  }

  lemma NonEmptyJoin(segments: seq<string>)
    requires segments != [] && segments[0] != ""
    ensures Join(segments) != ""
  {
  }

  lemma OkSegments(e: Idna, nid: string, segments: seq<string>)
    requires segments != [] && ParseSegments(e, nid, segments).Ok?
    ensures var u := ParseSegments(e, nid, segments).urn;
      u.nid == nid && Segments(u) == [Canonical(e, segments[0])] + segments[1..] && segments[0] != ""
  {
    hide Canonical, ValidPublisher;
    assert segments[1..] == segments[1..|segments| - 1] + [segments[|segments| - 1]];
    assert segments[0] in segments;
  }

  /** Printing a parsed URN and parsing again is the identity. */
  lemma PrintParse(e: Idna, s: string)
    requires Lawful(e) && Parse(e, s).Ok?
    ensures Parse(e, Print(Parse(e, s).urn)) == Parse(e, s)
  {
    hide Split, Join, ParseSegments, Canonical, Lawful;
    var nid := NidOf(s).value;
    var rest := s[|Prefix(nid)|..];
    JoinSplit(rest);
    OkSegments(e, nid, Split(rest));
    CanonicalBody(e, nid, Split(rest));
    PrefixRead(nid, Join(Segments(Parse(e, s).urn)));
  }

  // -- Schema normal form ------------------------------------------------------------------

  /** normalizeIdentifierPublisherASCII behind a recognized prefix. */
  function AsciiBody(e: Idna, rest: string): string {
    var i := FirstColon(rest);
    var publisher := rest[..i];
    if publisher == "" then rest
    else
      var ascii := e.toAscii(e.lower(publisher));
      if ascii.None? || ascii.value == publisher then rest else ascii.value + rest[i..]
  }

  function NormalizePublisher(e: Idna, s: string): string {
    var nid := NidOf(s);
    if nid.None? then s
    else
      var n := |Prefix(nid.value)|;
      s[..n] + AsciiBody(e, s[n..])
  }

  function NormalizeForSchema(e: Idna, s: string): string {
    var nid := NidOf(s);
    if nid.None? then s else NormalizePublisher(e, "urn:air:" + s[|Prefix(nid.value)|..])
  }

  method NormalizeIdentifierPublisherASCII(e: Idna, s: string) returns (r: string)
    ensures r == NormalizePublisher(e, s)
  {
    var lower := FoldAll(s);
    for k := 0 to |Nids|
      invariant forall m :: 0 <= m < k ==> !(Prefix(Nids[m]) <= lower)
    {
      var prefix := Prefix(Nids[k]);
      if !(prefix <= lower) {
        continue;
      }
      var rest := s[|prefix|..];
      assert s == s[..|prefix|] + rest;
      var i := FirstColon(rest);
      var publisher, remainder := rest[..i], rest[i..];
      if publisher == "" {
        return s;
      }
      var ascii := e.toAscii(e.lower(publisher));
      if ascii.None? || ascii.value == publisher {
        return s;
      }
      return s[..|prefix|] + (ascii.value + remainder);
    }
    assert !(Prefix(Nids[0]) <= lower) && !(Prefix(Nids[1]) <= lower);
    return s;
  }

  lemma AsciiBodySplit(e: Idna, rest: string)
    ensures var segments := Split(rest);
      AsciiBody(e, rest) ==
        if segments[0] == "" || e.toAscii(e.lower(segments[0])).None? then rest
        else Join([e.toAscii(e.lower(segments[0])).value] + segments[1..])
  {
    var segments := Split(rest);
    var i := FirstColon(rest);
    JoinSplit(rest);
    SplitParts(rest);
    hide FirstColon, Split;
    if segments[0] != "" && e.toAscii(e.lower(segments[0])).Some? {
      var ascii := e.toAscii(e.lower(segments[0])).value;
      if ascii == segments[0] {
        assert [ascii] + segments[1..] == segments;
      } else if i < |rest| {
        JoinSplit(rest[i + 1..]);
        JoinNext(ascii, Split(rest[i + 1..]));
        assert ascii + ":" + rest[i + 1..] == ascii + rest[i..];
      } else {
        assert ascii + "" == ascii;
      }
    }
  }

  lemma JoinNext(p: string, tail: seq<string>)
    requires tail != []
    ensures Join([p] + tail) == p + ":" + Join(tail)
  {
    assert ([p] + tail)[1..] == tail;
  }

  lemma AsciiBodyParses(e: Idna, nid: string, rest: string)
    requires Lawful(e)
    ensures ParseBody(e, nid, AsciiBody(e, rest)) == ParseBody(e, nid, rest)
  {
    var segments := Split(rest);
    AsciiBodySplit(e, rest);
    JoinSplit(rest);
    if segments[0] != "" && e.toAscii(e.lower(segments[0])).Some? {
      assert Canonical(e, segments[0]) == e.toAscii(e.lower(segments[0])).value;
      hide Split, Join, ParseBody, Lawful, AsciiBody;
      CanonicalBody(e, nid, segments);
    }
  }

  function WithAir(p: Parsed): Parsed {
    match p
    case Ok(u) => Ok(u.(nid := "air"))
    case Err(_) => p
  }

  lemma SchemaForm(e: Idna, s: string)
    requires NidOf(s).Some?
    ensures NormalizeForSchema(e, s) == "urn:air:" + AsciiBody(e, s[|Prefix(NidOf(s).value)|..])
    ensures NidOf(NormalizeForSchema(e, s)) == Some("air")
    ensures NormalizeForSchema(e, s)[8..] == AsciiBody(e, s[|Prefix(NidOf(s).value)|..])
  {
    hide AsciiBody;
    var rest := s[|Prefix(NidOf(s).value)|..];
    var air := Prefix("air") + rest;
    PrefixRead("air", rest);
    PrefixRead("air", AsciiBody(e, rest));
    assert air[..8] == Prefix("air");
  }

  /** Normalisation for the schema changes nothing ParseURN sees, errors included, except that the NID becomes air. */
  lemma SchemaFormParses(e: Idna, s: string)
    requires Lawful(e)
    ensures Parse(e, NormalizeForSchema(e, s)) == WithAir(Parse(e, s))
  {
    hide Lawful, AsciiBody;
    var nid := NidOf(s);
    if nid.Some? {
      var rest := s[|Prefix(nid.value)|..];
      SchemaForm(e, s);
      AsciiBodyParses(e, "air", rest);
      assert ParseBody(e, "air", rest) == WithAir(ParseBody(e, nid.value, rest));
    }
  }

  lemma AsciiBodyTwice(e: Idna, rest: string)
    requires Lawful(e)
    ensures AsciiBody(e, AsciiBody(e, rest)) == AsciiBody(e, rest)
  {
    var i := FirstColon(rest);
    var ascii := e.toAscii(e.lower(rest[..i]));
    if rest[..i] != "" && ascii.Some? && ascii.value != rest[..i] {
      assert LawfulAt(e, rest[..i]) && LawfulAt(e, e.lower(rest[..i]));
      FirstColonIs(ascii.value, rest[i..]);
      assert (ascii.value + rest[i..])[..|ascii.value|] == ascii.value;
    }
  }

  lemma SchemaFormIdempotent(e: Idna, s: string)
    requires Lawful(e)
    ensures NormalizeForSchema(e, NormalizeForSchema(e, s)) == NormalizeForSchema(e, s)
  {
    hide Lawful, AsciiBody, NormalizeForSchema;
    if NidOf(s).Some? {
      SchemaForm(e, s);
      SchemaForm(e, NormalizeForSchema(e, s));
      AsciiBodyTwice(e, s[|Prefix(NidOf(s).value)|..]);
    } else {
      Unrecognized(e, s);
    }
  }

  lemma Unrecognized(e: Idna, s: string)
    requires NidOf(s).None?
    ensures NormalizeForSchema(e, s) == s
  {
  }

  // -- Uniqueness ----------------------------------------------------------------------------

  /** What identifier.unique compares: the printed URN, or the string itself if it does not parse. */
  function UniqueKey(e: Idna, s: string): string {
    var p := Parse(e, s);
    if p.Ok? then Print(p.urn) else s
  }

  /** Equal as URNs, or equal strings that are no URNs. */
  predicate SameIdentifier(e: Idna, s: string, t: string) {
    if Parse(e, s).Ok? && Parse(e, t).Ok? then Parse(e, s) == Parse(e, t)
    else Parse(e, s).Err? && Parse(e, t).Err? && s == t
  }

  /** Two keys are equal exactly when the identifiers are the same; a raw key never equals a printed one. */
  lemma KeysTellIdentifiers(e: Idna, s: string, t: string)
    requires Lawful(e)
    ensures UniqueKey(e, s) == UniqueKey(e, t) <==> SameIdentifier(e, s, t)
  {
    hide Lawful, Parse, Print;
    if Parse(e, s).Ok? {
      PrintParse(e, s);
    }
    if Parse(e, t).Ok? {
      PrintParse(e, t);
    }
  }

  /**
   When two identifiers parse to the same URN: the NIDs agree in any case, the
   publishers have one canonical form, and everything behind the publisher is
   the same octet for octet.
   */
  lemma SameUrnExactly(e: Idna, s: string, t: string)
    requires Parse(e, s).Ok? && Parse(e, t).Ok?
    ensures var (a, b) := (s[|Prefix(NidOf(s).value)|..], t[|Prefix(NidOf(t).value)|..]);
      Parse(e, s) == Parse(e, t) <==>
        && NidOf(s) == NidOf(t)
        && Canonical(e, a[..FirstColon(a)]) == Canonical(e, b[..FirstColon(b)])
        && a[FirstColon(a)..] == b[FirstColon(b)..]
  {
    hide Split, Join, ParseSegments, Canonical;
    var a, b := s[|Prefix(NidOf(s).value)|..], t[|Prefix(NidOf(t).value)|..];
    OkSegments(e, NidOf(s).value, Split(a));
    OkSegments(e, NidOf(t).value, Split(b));
    SplitParts(a);
    SplitParts(b);
    SegmentsTellUrns(Parse(e, s).urn, Parse(e, t).urn);
    assert Segments(Parse(e, s).urn)[1..] == Split(a)[1..] && Segments(Parse(e, t).urn)[1..] == Split(b)[1..];
    if a[FirstColon(a)..] == b[FirstColon(b)..] {
      TailsTell(a, b);
    }
    if Split(a)[1..] == Split(b)[1..] {
      TailsTold(a, b);
    }
  }

  lemma SegmentsTellUrns(u: URN, v: URN)
    ensures u == v <==> u.nid == v.nid && Segments(u) == Segments(v)
  {
    if Segments(u) == Segments(v) {
      var s := Segments(u);
      assert u.publisher == s[0] && u.name == s[|s| - 1] && u.namespace == s[1..|s| - 1];
      assert v.publisher == s[0] && v.name == s[|s| - 1] && v.namespace == s[1..|s| - 1];
    }
  }

  lemma TailsTell(a: string, b: string)
    requires a[FirstColon(a)..] == b[FirstColon(b)..]
    ensures Split(a)[1..] == Split(b)[1..]
  {
    SplitParts(a);
    SplitParts(b);
    if FirstColon(a) < |a| {
      assert a[FirstColon(a) + 1..] == a[FirstColon(a)..][1..];
      assert b[FirstColon(b) + 1..] == b[FirstColon(b)..][1..];
    }
  }

  lemma TailsTold(a: string, b: string)
    requires Split(a)[1..] == Split(b)[1..]
    ensures a[FirstColon(a)..] == b[FirstColon(b)..]
  {
    SplitParts(a);
    SplitParts(b);
    if FirstColon(a) < |a| && FirstColon(b) < |b| {
      JoinSplit(a[FirstColon(a) + 1..]);
      JoinSplit(b[FirstColon(b) + 1..]);
    }
  }

  function Count(keys: seq<string>, key: string): nat {
    if keys == [] then 0 else Count(keys[..|keys| - 1], key) + if keys[|keys| - 1] == key then 1 else 0
  }

  function KeysOf(e: Idna, ids: seq<string>): (r: seq<string>)
    ensures |r| == |ids|
  {
    seq(|ids|, i requires 0 <= i < |ids| => UniqueKey(e, ids[i]))
  }

  /** The identifiers at which a key occurs for the second time, in order. */
  function SecondOccurrences(e: Idna, ids: seq<string>): seq<string> {
    if ids == [] then []
    else
      var n := |ids| - 1;
      SecondOccurrences(e, ids[..n]) + if Count(KeysOf(e, ids[..n]), UniqueKey(e, ids[n])) == 1 then [ids[n]] else []
  }

  method CheckIdentifierUnique(e: Idna, ids: seq<string>) returns (passed: bool, dups: seq<string>)
    ensures dups == SecondOccurrences(e, ids)
    ensures passed <==> dups == []
  {
    hide UniqueKey, Parse, Print, KeysOf, Count, SecondOccurrences;
    var seen: map<string, nat> := map[];
    dups := [];
    NoKeys(e, ids[..0]);
    for i := 0 to |ids|
      invariant dups == SecondOccurrences(e, ids[..i])
      invariant forall key :: Count(KeysOf(e, ids[..i]), key) == if key in seen then seen[key] else 0
    {
      var key := ids[i];
      var u := ParseURN(e, ids[i]);
      if u.Ok? {
        key := Print(u.urn);
      }
      KeyFound(e, ids[i]);
      KeysNext(e, ids, i);
      SecondNext(e, ids, i);
      seen := seen[key := (if key in seen then seen[key] else 0) + 1];
      if seen[key] == 2 {
        dups := dups + [ids[i]];
      }
    }
    assert ids[..|ids|] == ids;
    passed := |dups| == 0;
  }

  lemma KeyFound(e: Idna, s: string)
    ensures UniqueKey(e, s) == if Parse(e, s).Ok? then Print(Parse(e, s).urn) else s
  {
    hide Parse, Print;
  }

  lemma NoKeys(e: Idna, ids: seq<string>)
    requires ids == []
    ensures forall key :: Count(KeysOf(e, ids), key) == 0
    ensures SecondOccurrences(e, ids) == []
  {
  }

  lemma SecondNext(e: Idna, ids: seq<string>, i: nat)
    requires i < |ids|
    ensures SecondOccurrences(e, ids[..i + 1])
         == SecondOccurrences(e, ids[..i]) + if Count(KeysOf(e, ids[..i]), UniqueKey(e, ids[i])) == 1 then [ids[i]] else []
  {
    hide UniqueKey, KeysOf, Count;
    assert ids[..i + 1][..i] == ids[..i];
  }

  lemma KeysNext(e: Idna, ids: seq<string>, i: nat)
    requires i < |ids|
    ensures KeysOf(e, ids[..i + 1]) == KeysOf(e, ids[..i]) + [UniqueKey(e, ids[i])]
    ensures forall key :: Count(KeysOf(e, ids[..i + 1]), key) == Count(KeysOf(e, ids[..i]), key) + if UniqueKey(e, ids[i]) == key then 1 else 0
  {
    hide UniqueKey;
    var keys := KeysOf(e, ids[..i + 1]);
    assert keys == KeysOf(e, ids[..i]) + [UniqueKey(e, ids[i])];
    assert keys[..i] == KeysOf(e, ids[..i]);
  }

  lemma {:induction false} Counted(keys: seq<string>, key: string)
    ensures Count(keys, key) > 0 <==> key in keys
  {
    if keys != [] {
      var n := |keys| - 1;
      Counted(keys[..n], key);
      assert keys == keys[..n] + [keys[n]];
    }
  }

  predicate AllDistinct(keys: seq<string>) { forall i, j :: 0 <= i < j < |keys| ==> keys[i] != keys[j] }

  lemma {:induction false} DistinctCounts(keys: seq<string>, key: string)
    requires AllDistinct(keys)
    ensures Count(keys, key) <= 1
  {
    if keys != [] {
      var n := |keys| - 1;
      DistinctCounts(keys[..n], key);
      Counted(keys[..n], key);
      forall i | 0 <= i < n ensures keys[..n][i] != keys[n] {
        assert keys[i] != keys[n];
      }
    }
  }

  lemma DistinctSnoc(keys: seq<string>, key: string)
    ensures AllDistinct(keys + [key]) <==> AllDistinct(keys) && key !in keys
  {
    var s := keys + [key];
    if AllDistinct(s) {
      forall i, j | 0 <= i < j < |keys| ensures keys[i] != keys[j] {
        assert s[i] != s[j];
      }
      forall i | 0 <= i < |keys| ensures keys[i] != key {
        assert s[i] != s[|keys|];
      }
    }
  }

  /** No key is the second of its kind. */
  predicate NoSecond(keys: seq<string>) {
    keys == [] || (NoSecond(keys[..|keys| - 1]) && Count(keys[..|keys| - 1], keys[|keys| - 1]) != 1)
  }

  lemma {:induction false} NoSecondMeansDistinct(keys: seq<string>)
    ensures NoSecond(keys) <==> AllDistinct(keys)
  {
    if keys != [] {
      var n := |keys| - 1;
      var before, last := keys[..n], keys[n];
      assert keys == before + [last];
      NoSecondMeansDistinct(before);
      DistinctSnoc(before, last);
      Counted(before, last);
      if AllDistinct(before) {
        DistinctCounts(before, last);
      }
    }
  }

  lemma SecondMeansRepeated(e: Idna, ids: seq<string>)
    ensures SecondOccurrences(e, ids) == [] <==> AllDistinct(KeysOf(e, ids))
  {
    SecondsListed(e, ids);
    NoSecondMeansDistinct(KeysOf(e, ids));
  }

  lemma {:induction false} SecondsListed(e: Idna, ids: seq<string>)
    ensures SecondOccurrences(e, ids) == [] <==> NoSecond(KeysOf(e, ids))
  {
    hide UniqueKey;
    if ids != [] {
      var n := |ids| - 1;
      SecondsListed(e, ids[..n]);
      assert KeysOf(e, ids)[..n] == KeysOf(e, ids[..n]);
    }
  }

  /** identifier.unique fails exactly when two entries carry the same identifier. */
  lemma UniqueExactly(e: Idna, ids: seq<string>)
    requires Lawful(e)
    ensures SecondOccurrences(e, ids) == [] <==>
      forall i, j :: 0 <= i < j < |ids| ==> !SameIdentifier(e, ids[i], ids[j])
  {
    hide Lawful, SameIdentifier, UniqueKey;
    SecondMeansRepeated(e, ids);
    var keys := KeysOf(e, ids);
    forall i, j | 0 <= i < j < |ids| ensures keys[i] == keys[j] <==> SameIdentifier(e, ids[i], ids[j]) {
      KeysTellIdentifiers(e, ids[i], ids[j]);
    }
  }
}
