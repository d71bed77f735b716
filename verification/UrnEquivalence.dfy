/**
 The uniqueness check of internal/ard/verify.go against URN-equivalence as section
 3.1 of RFC 8141 defines it: scheme and NID in any case, and the hex digits of
 percent-encoded octets in any case; r-, q- and f-components do not count. The
 publisher, a domain name, is compared in its canonical form.
 */
module UrnEquivalence {
  import opened Basics
  import opened Urn

  // -- The equivalence ----------------------------------------------------------------

  predicate HexLetter(c: char) { 'a' <= c <= 'f' || 'A' <= c <= 'F' }

  predicate HexDigit(c: char) { '0' <= c <= '9' || HexLetter(c) }

  function Upper(c: char): char { if 'a' <= c <= 'f' then (c as int - 32) as char else c }

  /** A percent-encoded octet starts at k. */
  predicate TripletAt(s: string, k: int) {
    0 <= k && k + 2 < |s| && s[k] == '%' && HexDigit(s[k + 1]) && HexDigit(s[k + 2])
  }

  /** The i-th character is a digit of a percent-encoded octet. */
  predicate InTriplet(s: string, i: int) { TripletAt(s, i - 1) || TripletAt(s, i - 2) }

  function UpperTriplets(s: string): (r: string)
    ensures |r| == |s|
  {
    seq(|s|, i requires 0 <= i < |s| => if InTriplet(s, i) then Upper(s[i]) else s[i])
  }

  /** Some percent-encoded octet has a letter among its digits. */
  predicate Lettered(s: string) { exists i :: 0 <= i < |s| && InTriplet(s, i) && HexLetter(s[i]) }

  function Publisher(rest: string): string { rest[..FirstColon(rest)] }

  function Tail(rest: string): string { rest[FirstColon(rest)..] }

  function Rest(s: string): string
    requires NidOf(s).Some?
  {
    s[|Prefix(NidOf(s).value)|..]
  }

  predicate SameNss(e: Idna, a: string, b: string) {
    && Publisher(a) != "" && Publisher(b) != ""
    && Canonical(e, Publisher(a)) == Canonical(e, Publisher(b))
    && UpperTriplets(Tail(a)) == UpperTriplets(Tail(b))
  }

  /** Equivalence of names without components. */
  predicate RfcSame(e: Idna, s: string, t: string) {
    NidOf(s).Some? && NidOf(s) == NidOf(t) && SameNss(e, Rest(s), Rest(t))
  }

  /** Where the first component starts: at "?+", "?=" or "#"; |s| if there is none. */
  function ComponentStart(s: string): (i: nat)
    ensures i <= |s|
  {
    if s == "" || s[0] == '#' || (|s| > 1 && s[0] == '?' && (s[1] == '+' || s[1] == '=')) then 0
    else ComponentStart(s[1..]) + 1
  }

  function Assigned(s: string): string { s[..ComponentStart(s)] }

  predicate ComponentFree(s: string) { NidOf(s).Some? && Assigned(Rest(s)) == Rest(s) }

  /** URN-equivalence: components are ignored. */
  predicate RfcEquivalent(e: Idna, s: string, t: string) {
    NidOf(s).Some? && NidOf(s) == NidOf(t) && SameNss(e, Assigned(Rest(s)), Assigned(Rest(t)))
  }

  // -- Parse equality is at least as fine --------------------------------------------------

  /** Identifiers that parse to one URN are equivalent: the check raises no false alarm. */
  lemma SameParseMeansRfcSame(e: Idna, s: string, t: string)
    requires Parse(e, s).Ok? && Parse(e, t) == Parse(e, s)
    ensures RfcSame(e, s, t)
  {
    hide UpperTriplets, Canonical;
    SameUrnExactly(e, s, t);
    PublisherThere(e, s);
    PublisherThere(e, t);
  }

  lemma PublisherThere(e: Idna, s: string)
    requires Parse(e, s).Ok?
    ensures Publisher(Rest(s)) != "" && Tail(Rest(s)) != "" && Tail(Rest(s))[0] == ':'
  {
    hide Canonical, ValidPublisher;
    var rest := Rest(s);
    SplitParts(rest);
    assert Split(rest)[0] in Split(rest);
  }

  /** What the parser sees of an identifier: its NID, its canonical publisher and its tail. */
  lemma PartsTellParse(e: Idna, s: string, t: string)
    requires Parse(e, s).Ok? && NidOf(t) == NidOf(s) && Publisher(Rest(t)) != ""
    requires Canonical(e, Publisher(Rest(t))) == Canonical(e, Publisher(Rest(s))) && Tail(Rest(t)) == Tail(Rest(s))
    ensures Parse(e, t) == Parse(e, s)
  {
    hide Canonical, ValidPublisher;
    var a, b := Rest(s), Rest(t);
    SplitParts(a);
    SplitParts(b);
    TailsTell(a, b);
    PublisherThere(e, s);
    hide Split, FirstColon;
    SameSegments(e, NidOf(s).value, Split(a), Split(b));
  }

  lemma SameSegments(e: Idna, nid: string, a: seq<string>, b: seq<string>)
    requires a != [] && b != [] && a[0] != "" && b[0] != "" && a[1..] == b[1..]
    requires Canonical(e, a[0]) == Canonical(e, b[0])
    ensures ParseSegments(e, nid, a) == ParseSegments(e, nid, b)
  {
    hide Canonical, ValidPublisher;
    assert a == [a[0]] + a[1..] && b == [b[0]] + b[1..];
    EmptyInTail(a[0], a[1..]);
    EmptyInTail(b[0], b[1..]);
    if |a| > 1 {
      assert a[|a| - 1] == a[1..][|a| - 2] == b[|b| - 1];
      assert a[1..|a| - 1] == a[1..][..|a| - 2] == b[1..|b| - 1];
    }
  }

  // -- Where it is finer ----------------------------------------------------------------------

  lemma DigitsStay(s: string)
    requires !Lettered(s)
    ensures UpperTriplets(s) == s
  {
    forall i | 0 <= i < |s| ensures UpperTriplets(s)[i] == s[i] {
      assert InTriplet(s, i) ==> !HexLetter(s[i]);
    }
  }

  /** Without letters in the triplets of one text, upper-casing tells it from every other. */
  lemma UnletteredTells(a: string, b: string)
    requires !Lettered(a) && UpperTriplets(a) == UpperTriplets(b)
    ensures a == b
  {
    DigitsStay(a);
    assert |b| == |UpperTriplets(b)| == |a|;
    forall i | 0 <= i < |b| ensures a[i] == b[i] {
      assert a[i] == UpperTriplets(b)[i];
      if InTriplet(b, i) {
        var k := if TripletAt(b, i - 1) then i - 1 else i - 2;
        TripletCopied(a, b, k);
        assert InTriplet(a, i) && !HexLetter(a[i]);
      }
    }
  }

  lemma TripletCopied(a: string, b: string, k: int)
    requires a == UpperTriplets(b) && TripletAt(b, k)
    ensures TripletAt(a, k)
  {
    assert a[k] == UpperTriplets(b)[k] && a[k + 1] == UpperTriplets(b)[k + 1] && a[k + 2] == UpperTriplets(b)[k + 2];
  }

  function OtherCase(c: char): char
    requires HexLetter(c)
  {
    if 'a' <= c <= 'f' then (c as int - 32) as char else (c as int + 32) as char
  }

  /** Changing the case of one such letter changes the text and not its upper-cased form. */
  lemma OtherCaseSame(s: string, i: int)
    requires 0 <= i < |s| && InTriplet(s, i) && HexLetter(s[i])
    ensures var t := s[i := OtherCase(s[i])]; t != s && t[0] == s[0] && UpperTriplets(t) == UpperTriplets(s)
  {
    var t := s[i := OtherCase(s[i])];
    forall k: int ensures TripletAt(t, k) <==> TripletAt(s, k) {
    }
    forall j | 0 <= j < |s| ensures UpperTriplets(t)[j] == UpperTriplets(s)[j] {
    }
    assert t[i] != s[i];
  }

  lemma NidKept(s: string, rest: string)
    requires NidOf(s).Some?
    ensures var n := |Prefix(NidOf(s).value)|; NidOf(s[..n] + rest) == NidOf(s) && (s[..n] + rest)[n..] == rest
  {
    var n := |Prefix(NidOf(s).value)|;
    var t := s[..n] + rest;
    assert forall k :: 0 <= k < n ==> t[k] == s[k] && FoldAll(t)[k] == FoldAll(s)[k] == Prefix(NidOf(s).value)[k];
    assert Prefix(NidOf(s).value) <= FoldAll(t);
    if NidOf(s).value == "ai" {
      assert FoldAll(t)[6] == ':' && Prefix("air")[6] == 'r';
    }
  }

  /** The same identifier with another tail. */
  lemma OtherTail(s: string, tail: string) returns (t: string)
    requires NidOf(s).Some? && tail != "" && tail[0] == ':'
    ensures NidOf(t) == NidOf(s) && Publisher(Rest(t)) == Publisher(Rest(s)) && Tail(Rest(t)) == tail
  {
    var p := Publisher(Rest(s));
    t := s[..|Prefix(NidOf(s).value)|] + (p + tail);
    NidKept(s, p + tail);
    FirstColonIs(p, tail);
    assert (p + tail)[..|p|] == p && (p + tail)[|p|..] == tail;
  }

  /**
   The exact condition: the code recognises every name equivalent to s if and only
   if no percent-encoded octet behind the publisher of s has a letter among its digits.
   */
  lemma RecognisesEquivalentsExactly(e: Idna, s: string)
    requires Parse(e, s).Ok?
    ensures (forall t :: RfcSame(e, s, t) ==> Parse(e, t) == Parse(e, s)) <==> !Lettered(Tail(Rest(s)))
  {
    hide UpperTriplets, Canonical, Parse, NidOf, FirstColon;
    var tail := Tail(Rest(s)) by { ParsedHasNid(e, s); }
    if !Lettered(tail) {
      forall t | RfcSame(e, s, t) ensures Parse(e, t) == Parse(e, s) {
        UnletteredTells(tail, Tail(Rest(t)));
        PartsTellParse(e, s, t);
      }
    } else {
      var t := UnrecognisedEquivalent(e, s);
    }
  }

  lemma ParsedHasNid(e: Idna, s: string)
    requires Parse(e, s).Ok?
    ensures NidOf(s).Some?
  {
  }

  lemma UnrecognisedEquivalent(e: Idna, s: string) returns (t: string)
    requires Parse(e, s).Ok? && Lettered(Tail(Rest(s)))
    ensures RfcSame(e, s, t) && Parse(e, t) != Parse(e, s)
  {
    hide UpperTriplets, Canonical, ParseSegments, FirstColon, Split;
    var tail := Tail(Rest(s));
    PublisherThere(e, s);
    var i :| 0 <= i < |tail| && InTriplet(tail, i) && HexLetter(tail[i]);
    OtherCaseSame(tail, i);
    t := OtherTail(s, tail[i := OtherCase(tail[i])]);
    if Parse(e, t) == Parse(e, s) {
      SameUrnExactly(e, s, t);
    }
  }

  // -- Components -------------------------------------------------------------------------------

  lemma {:induction false} HashEndsName(s: string)
    ensures ComponentStart(s + "#") == ComponentStart(s)
    ensures Assigned(s + "#") == Assigned(s)
  {
    if s == "" {
      assert s + "#" == "#";
    } else {
      assert (s + "#")[1..] == s[1..] + "#";
      HashEndsName(s[1..]);
    }
    assert (s + "#")[..ComponentStart(s)] == s[..ComponentStart(s)];
  }

  /**
   Components are where the code never follows the standard: to it they are part
   of the name, so an empty f-component already makes a different URN of any s.
   */
  lemma ComponentsAreNotIgnored(e: Idna, s: string)
    requires Parse(e, s).Ok? && Publisher(Assigned(Rest(s))) != ""
    ensures RfcEquivalent(e, s, s + "#") && Parse(e, s + "#") != Parse(e, s)
  {
    hide UpperTriplets, Canonical, ParseSegments, Split, FirstColon;
    PublisherThere(e, s);
    var rest := Rest(s);
    var p, tail := Publisher(rest), Tail(rest);
    var n := |Prefix(NidOf(s).value)|;
    assert rest == p + tail;
    assert s + "#" == s[..n] + (rest + "#");
    NidKept(s, rest + "#");
    HashEndsName(rest);
    assert rest + "#" == p + (tail + "#");
    FirstColonIs(p, tail + "#");
    assert Tail(Rest(s + "#")) == tail + "#" by {
      assert (p + (tail + "#"))[|p|..] == tail + "#";
    }
    if Parse(e, s + "#") == Parse(e, s) {
      SameUrnExactly(e, s, s + "#");
    }
  }

  // -- The check on lists -------------------------------------------------------------------------

  /** An identifier on which code and standard agree; any that is no URN is one. */
  predicate Agreed(e: Idna, s: string) {
    Parse(e, s).Ok? ==> ComponentFree(s) && !Lettered(Tail(Rest(s)))
  }

  /** Equivalent URNs, or equal strings that are no URNs. */
  predicate Duplicate(e: Idna, s: string, t: string) {
    if Parse(e, s).Ok? && Parse(e, t).Ok? then RfcEquivalent(e, s, t)
    else Parse(e, s).Err? && Parse(e, t).Err? && s == t
  }

  lemma AgreedDuplicates(e: Idna, s: string, t: string)
    requires Agreed(e, s) && Agreed(e, t)
    ensures Duplicate(e, s, t) <==> SameIdentifier(e, s, t)
  {
    hide UpperTriplets, Canonical, Parse, Lettered;
    if Parse(e, s).Ok? && Parse(e, t).Ok? {
      ParsedHasNid(e, s);
      ParsedHasNid(e, t);
      RecognisesEquivalentsExactly(e, s);
      if Parse(e, t) == Parse(e, s) {
        SameParseMeansRfcSame(e, s, t);
      }
    }
  }

  /**
   For identifiers without components and without letters in percent-encoded octets,
   identifier.unique fails exactly when two entries carry equivalent URNs or are
   equal strings that are no URNs.
   */
  lemma UniqueByTheStandard(e: Idna, ids: seq<string>)
    requires Lawful(e) && forall i :: 0 <= i < |ids| ==> Agreed(e, ids[i])
    ensures SecondOccurrences(e, ids) == [] <==> forall i, j :: 0 <= i < j < |ids| ==> !Duplicate(e, ids[i], ids[j])
  {
    hide Lawful, Agreed, Duplicate, SameIdentifier, SecondOccurrences;
    UniqueExactly(e, ids);
    forall i, j | 0 <= i < j < |ids| ensures Duplicate(e, ids[i], ids[j]) <==> SameIdentifier(e, ids[i], ids[j]) {
      AgreedDuplicates(e, ids[i], ids[j]);
    }
  }

  /** Every identifier the catalog schema accepts is one of them: its pattern has no '%', '?' and '#'. */
  predicate SchemaChar(c: char) {
    'a' <= c <= 'z' || 'A' <= c <= 'Z' || '0' <= c <= '9' || c == '.' || c == '_' || c == '-' || c == ':'
  }

  lemma SchemaIdentifiersAgree(e: Idna, s: string)
    requires forall k :: 0 <= k < |s| ==> SchemaChar(s[k])
    ensures Agreed(e, s)
  {
    hide UpperTriplets, Canonical, ParseSegments, FirstColon, Split;
    if Parse(e, s).Ok? {
      var rest := Rest(s);
      assert forall k :: 0 <= k < |rest| ==> SchemaChar(rest[k]);
      NoComponent(rest);
      var tail := Tail(rest);
      assert forall k :: 0 <= k < |tail| ==> SchemaChar(tail[k]);
    }
  }

  lemma {:induction false} NoComponent(s: string)
    requires forall k :: 0 <= k < |s| ==> s[k] != '#' && s[k] != '?'
    ensures Assigned(s) == s && ComponentStart(s) == |s|
  {
    if s != "" {
      NoComponent(s[1..]);
    }
  }

  // -- Two identifiers the check takes for different ones ------------------------------------------

  function Lower(): string -> string { (s: string) => FoldAll(s) }

  function AsIs(): string -> Option<string> { (s: string) => Some(s) }

  /** Lower-casing and ToASCII on ASCII names. */
  const AsciiIdna: Idna := Idna(Lower(), AsIs())

  lemma AsciiIsLawful()
    ensures Lawful(AsciiIdna)
  {
    forall s ensures LawfulAt(AsciiIdna, s) {
      assert FoldAll(FoldAll(s)) == FoldAll(s);
    }
  }

  lemma TwoSegments(p: string, name: string)
    requires p != "" && name != "" && ValidPublisher(FoldAll(p))
    ensures ParseSegments(AsciiIdna, "air", [p] + [name]) == Ok(URN("air", FoldAll(p), [], name))
  {
    hide ValidPublisher;
    var s := [p] + [name];
    assert s[0] == p && s[1] == name && s[1..1] == [];
  }

  /** A URN of a publisher and a name. */
  lemma ParseTwo(p: string, name: string)
    requires ColonFree(p) && ColonFree(name) && p != "" && name != "" && ValidPublisher(FoldAll(p))
    ensures var s := Prefix("air") + (p + ":" + name);
      && Parse(AsciiIdna, s) == Ok(URN("air", FoldAll(p), [], name))
      && NidOf(s) == Some("air") && Rest(s) == p + ":" + name
      && Publisher(Rest(s)) == p && Tail(Rest(s)) == ":" + name
  {
    hide ValidPublisher, ParseSegments, Split, FirstColon, NidOf;
    var rest := p + ":" + name;
    PrefixRead("air", rest);
    SplitNext(p, name);
    SplitOne(name);
    TwoSegments(p, name);
    assert rest == p + (":" + name);
    FirstColonIs(p, ":" + name);
    assert rest[..|p|] == p && rest[|p|..] == ":" + name;
  }

  predicate Missed(s: string, t: string) {
    && RfcSame(AsciiIdna, s, t) && RfcEquivalent(AsciiIdna, s, t)
    && Parse(AsciiIdna, s).Ok? && Parse(AsciiIdna, t).Ok?
    && Parse(AsciiIdna, s) != Parse(AsciiIdna, t)
    && SecondOccurrences(AsciiIdna, [s, t]) == []
  }

  lemma TwinsMissed(p: string, x: string, y: string)
    requires ColonFree(p) && ColonFree(x) && ColonFree(y) && p != "" && x != "" && y != "" && ValidPublisher(FoldAll(p))
    requires forall k :: 0 <= k < |p + ":" + x| ==> (p + ":" + x)[k] != '#' && (p + ":" + x)[k] != '?'
    requires forall k :: 0 <= k < |p + ":" + y| ==> (p + ":" + y)[k] != '#' && (p + ":" + y)[k] != '?'
    requires x != y && UpperTriplets(":" + x) == UpperTriplets(":" + y)
    ensures Missed(Prefix("air") + (p + ":" + x), Prefix("air") + (p + ":" + y))
  {
    hide UpperTriplets, Parse, ValidPublisher, Prefix, NidOf, FirstColon, ComponentStart, Canonical, Lawful;
    var s, t := Prefix("air") + (p + ":" + x), Prefix("air") + (p + ":" + y);
    ParseTwo(p, x);
    ParseTwo(p, y);
    NoComponent(p + ":" + x);
    NoComponent(p + ":" + y);
    AsciiIsLawful();
    NoneReported(AsciiIdna, s, t);
  }

  /**
   "urn:air:a.b:x%2f" and "urn:air:a.b:x%2F" differ only in the case of a
   percent-encoded octet: they are equivalent, both parse, and the check reports
   no duplicate.
   */
  lemma SlashTwice()
    ensures Missed(Prefix("air") + ("a.b" + ":" + "x%2f"), Prefix("air") + ("a.b" + ":" + "x%2F"))
  {
    hide Missed;
    var p, x, y := "a.b", "x%2f", "x%2F";
    assert FoldAll(p) == p && p[1] == '.';
    var a, b := ":" + x, ":" + y;
    OtherCaseSame(a, 4);
    assert a[4 := 'F'] == b;
    assert x[3] != y[3];
    TwinsMissed(p, x, y);
  }

  lemma NoneReported(e: Idna, s: string, t: string)
    requires Lawful(e) && !SameIdentifier(e, s, t)
    ensures SecondOccurrences(e, [s, t]) == []
  {
    hide Lawful, SameIdentifier, SecondOccurrences;
    UniqueExactly(e, [s, t]);
  }
}
