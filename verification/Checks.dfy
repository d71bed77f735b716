/**
 The checks semanticChecks makes (internal/ard/verify.go) and how PartitionChecks
 (internal/ard/checks.go) gives them back to the entries they describe. Message
 texts are left out.
 */
module Checks {
  import opened Basics
  import Urn

  const SubjectCatalog: string := "catalog"
  const EntryIndexNone: int := -1

  datatype Severity = Error | Warning

  datatype CheckId =
    | IdentifierUnique
    | SpecVersion
    | ValueOrReference
    | UrnFormat
    | PublisherMatches
    | QueriesCount
    | MediaType
    | OtherCheck(name: string)

  datatype Check = Check(id: CheckId, severity: Severity, passed: bool, subject: string, entryIndex: int)

  /** pointer and known classify the media type; queries counts the representative queries. */
  datatype Entry = Entry(identifier: string, hasUrl: bool, hasData: bool, queries: nat, pointer: bool, known: bool)

  datatype Catalog = Catalog(specVersion: string, entries: seq<Entry>)

  // -- Attribution ----------------------------------------------------------------------

  function Occurrences(entries: seq<Entry>, id: string): nat {
    if entries == [] then 0
    else Occurrences(entries[..|entries| - 1], id) + if entries[|entries| - 1].identifier == id then 1 else 0
  }

  function IndexOf(entries: seq<Entry>, id: string): (i: nat)
    requires Occurrences(entries, id) > 0
    ensures i < |entries| && entries[i].identifier == id
  {
    var n := |entries| - 1;
    if entries[n].identifier == id then n else IndexOf(entries[..n], id)
  }

  predicate Nameless(subject: string) { subject == "" || subject == SubjectCatalog }

  /**
   The entry a check belongs to, None for the catalog: the entry its subject names,
   or, when several entries share the name, the one it was made for.
   */
  function AttributedTo(check: Check, entries: seq<Entry>): (r: Option<nat>)
    ensures r.Some? ==> r.value < |entries|
  {
    if Nameless(check.subject) then None
    else
      match Occurrences(entries, check.subject)
      case 0 => None
      case 1 => Some(IndexOf(entries, check.subject))
      case _ => if 0 <= check.entryIndex < |entries| then Some(check.entryIndex) else None
  }

  /** The checks attributed to one owner, in their order. */
  function Attributed(checks: seq<Check>, entries: seq<Entry>, owner: Option<nat>): seq<Check> {
    if checks == [] then []
    else
      var n := |checks| - 1;
      Attributed(checks[..n], entries, owner) + if AttributedTo(checks[n], entries) == owner then [checks[n]] else []
  }

  // -- PartitionChecks ---------------------------------------------------------------------

  /** The lookup tables over the first entries: names that occur once, and names that occur more often. */
  ghost predicate Indexed(entries: seq<Entry>, index: map<string, nat>, ambiguous: set<string>) {
    forall id ::
      && (id in index <==> id != "" && Occurrences(entries, id) == 1)
      && (id in index ==> index[id] == IndexOf(entries, id))
      && (id in ambiguous <==> id != "" && Occurrences(entries, id) >= 2)
  }

  function EntryIndexOf(check: Check, index: map<string, nat>, ambiguous: set<string>, count: nat): Option<nat> {
    if Nameless(check.subject) then None
    else if check.subject in index then Some(index[check.subject])
    else if check.subject in ambiguous && 0 <= check.entryIndex < count then Some(check.entryIndex)
    else None
  }

  lemma EntryIndexOfIsAttributedTo(check: Check, entries: seq<Entry>, index: map<string, nat>, ambiguous: set<string>)
    requires Indexed(entries, index, ambiguous)
    ensures EntryIndexOf(check, index, ambiguous, |entries|) == AttributedTo(check, entries)
  {
    var id := check.subject;
    assert id in index <==> id != "" && Occurrences(entries, id) == 1;
    assert id in ambiguous <==> id != "" && Occurrences(entries, id) >= 2;
  }

  lemma OccurrencesNext(entries: seq<Entry>, i: nat, id: string)
    requires i < |entries|
    ensures Occurrences(entries[..i + 1], id) == Occurrences(entries[..i], id) + if entries[i].identifier == id then 1 else 0
    ensures entries[i].identifier != id && Occurrences(entries[..i], id) > 0 ==>
      IndexOf(entries[..i + 1], id) == IndexOf(entries[..i], id)
    ensures entries[i].identifier == id ==> IndexOf(entries[..i + 1], id) == i
  {
    assert entries[..i + 1][..i] == entries[..i];
  }

  /** The first loop of PartitionChecks. */
  method IndexIdentifiers(entries: seq<Entry>) returns (index: map<string, nat>, ambiguous: set<string>)
    ensures Indexed(entries, index, ambiguous)
  {
    hide Occurrences, IndexOf;
    index, ambiguous := map[], {};
    NoneIndexed(entries[..0]);
    for i := 0 to |entries|
      invariant Indexed(entries[..i], index, ambiguous)
    {
      forall id { OccurrencesNext(entries, i, id); }
      var id := entries[i].identifier;
      if id == "" {
        continue;
      }
      if id in index {
        ambiguous := ambiguous + {id};
        index := index - {id};
        continue;
      }
      if id in ambiguous {
        continue;
      }
      index := index[id := i];
    }
    assert entries[..|entries|] == entries;
  }

  method PartitionChecks(checks: seq<Check>, entries: seq<Entry>)
    returns (catalogChecks: seq<Check>, entryChecks: map<nat, seq<Check>>)
    ensures catalogChecks == Attributed(checks, entries, None)
    ensures forall i: nat :: i in entryChecks <==> Attributed(checks, entries, Some(i)) != []
    ensures forall i: nat :: i in entryChecks ==> entryChecks[i] == Attributed(checks, entries, Some(i))
  {
    hide Indexed, AttributedTo, EntryIndexOf;
    var index, ambiguous := IndexIdentifiers(entries);
    catalogChecks, entryChecks := [], map[];
    for k := 0 to |checks|
      invariant catalogChecks == Attributed(checks[..k], entries, None)
      invariant forall i: nat :: i in entryChecks <==> Attributed(checks[..k], entries, Some(i)) != []
      invariant forall i: nat :: i in entryChecks ==> entryChecks[i] == Attributed(checks[..k], entries, Some(i))
    {
      EntryIndexOfIsAttributedTo(checks[k], entries, index, ambiguous);
      assert checks[..k + 1][..k] == checks[..k];
      var owner := EntryIndexOf(checks[k], index, ambiguous, |entries|);
      if owner.Some? {
        var bucket := if owner.value in entryChecks then entryChecks[owner.value] else [];
        entryChecks := entryChecks[owner.value := bucket + [checks[k]]];
        continue;
      }
      catalogChecks := catalogChecks + [checks[k]];
    }
    assert checks[..|checks|] == checks;
  }

  lemma NoneIndexed(entries: seq<Entry>)
    requires entries == []
    ensures Indexed(entries, map[], {})
  {
  }

  /** The checks in the buckets of the first n entries. */
  function BucketTotal(checks: seq<Check>, entries: seq<Entry>, n: nat): nat {
    if n == 0 then 0 else BucketTotal(checks, entries, n - 1) + |Attributed(checks, entries, Some(n - 1))|
  }

  lemma {:induction false} OneMoreCheck(checks: seq<Check>, entries: seq<Entry>, n: nat)
    requires checks != []
    ensures var last := AttributedTo(checks[|checks| - 1], entries);
      BucketTotal(checks, entries, n)
        == BucketTotal(checks[..|checks| - 1], entries, n) + if last.Some? && last.value < n then 1 else 0
  {
    hide AttributedTo, Attributed;
    if n > 0 {
      OneMoreCheck(checks, entries, n - 1);
      OneMoreAttributed(checks, entries, Some(n - 1));
    }
  }

  lemma OneMoreAttributed(checks: seq<Check>, entries: seq<Entry>, owner: Option<nat>)
    requires checks != []
    ensures var n := |checks| - 1;
      |Attributed(checks, entries, owner)|
        == |Attributed(checks[..n], entries, owner)| + if AttributedTo(checks[n], entries) == owner then 1 else 0
  {
    hide AttributedTo;
  }

  lemma {:induction false} NothingLost(checks: seq<Check>, entries: seq<Entry>)
    ensures |Attributed(checks, entries, None)| + BucketTotal(checks, entries, |entries|) == |checks|
  {
    if checks == [] {
      EmptyBuckets(entries, |entries|);
    } else {
      NothingLost(checks[..|checks| - 1], entries);
      OneMoreAttributed(checks, entries, None);
      OneMoreCheck(checks, entries, |entries|);
    }
  }

  lemma {:induction false} EmptyBuckets(entries: seq<Entry>, n: nat)
    ensures BucketTotal([], entries, n) == 0
  {
    if n > 0 {
      EmptyBuckets(entries, n - 1);
    }
  }

  // -- semanticChecks -------------------------------------------------------------------------

  /** What the checks take from elsewhere: IDNA, and equality of registrable domains. */
  datatype Context = Context(idna: Urn.Idna, servingDomain: string, sameDomain: (string, string) -> bool, schemaFailed: bool)

  function EntrySubject(e: Entry): string {
    if e.identifier != "" then e.identifier else SubjectCatalog
  }

  function Made(id: CheckId, severity: Severity, passed: bool, subject: string): Check {
    Check(id, severity, passed, subject, EntryIndexNone)
  }

  function If(b: bool, c: Check): seq<Check> { if b then [c] else [] }

  // The checks of one entry, before stamping, each there or not.

  function ReferenceCheck(ctx: Context, e: Entry): seq<Check> {
    If(!ctx.schemaFailed, Made(ValueOrReference, Error, e.hasUrl != e.hasData, EntrySubject(e)))
  }

  function FormatCheck(ctx: Context, e: Entry, urn: Urn.Parsed): seq<Check> {
    If(!ctx.schemaFailed, Made(UrnFormat, Error, urn.Ok?, EntrySubject(e)))
  }

  function PublisherCheck(ctx: Context, e: Entry, urn: Urn.Parsed): seq<Check> {
    if urn.Ok? && ctx.servingDomain != ""
    then [Made(PublisherMatches, Warning, ctx.sameDomain(urn.urn.publisher, ctx.servingDomain), EntrySubject(e))] else []
  }

  function QueriesCheck(e: Entry): seq<Check> {
    If(!e.pointer, Made(QueriesCount, Warning, 2 <= e.queries <= 5, EntrySubject(e)))
  }

  function EntryChecks(ctx: Context, e: Entry): seq<Check> {
    var urn := Urn.Parse(ctx.idna, e.identifier);
    ReferenceCheck(ctx, e) + FormatCheck(ctx, e, urn) + PublisherCheck(ctx, e, urn) + QueriesCheck(e)
    + [Made(MediaType, Warning, e.known, EntrySubject(e))]
  }

  function Stamp(checks: seq<Check>, i: nat): (r: seq<Check>)
    ensures |r| == |checks|
  {
    seq(|checks|, k requires 0 <= k < |checks| => checks[k].(entryIndex := i))
  }

  function CatalogChecks(ctx: Context, c: Catalog): seq<Check> {
    var ids := seq(|c.entries|, i requires 0 <= i < |c.entries| => c.entries[i].identifier);
    [Made(IdentifierUnique, Error, Urn.SecondOccurrences(ctx.idna, ids) == [], SubjectCatalog)]
    + If(!ctx.schemaFailed, Made(SpecVersion, Error, c.specVersion == "1.0", SubjectCatalog))
  }

  function StampedUpTo(ctx: Context, entries: seq<Entry>, n: nat): seq<Check>
    requires n <= |entries|
  {
    if n == 0 then [] else StampedUpTo(ctx, entries, n - 1) + Stamp(EntryChecks(ctx, entries[n - 1]), n - 1)
  }

  method AppendIf(checks: seq<Check>, b: bool, c: Check) returns (r: seq<Check>)
    ensures r == checks + If(b, c)
  {
    r := if b then checks + [c] else checks;
  }

  method ChecksOfEntry(ctx: Context, e: Entry, checks: seq<Check>) returns (r: seq<Check>)
    ensures r == checks + EntryChecks(ctx, e)
  {
    hide Urn.Parse, EntrySubject, If;
    var subject := EntrySubject(e);
    r := AppendIf(checks, !ctx.schemaFailed, Made(ValueOrReference, Error, e.hasUrl != e.hasData, subject));
    var urn := Urn.ParseURN(ctx.idna, e.identifier);
    r := AppendIf(r, !ctx.schemaFailed, Made(UrnFormat, Error, urn.Ok?, subject));
    ghost var publisher := PublisherCheck(ctx, e, urn);
    if urn.Ok? && ctx.servingDomain != "" {
      r := r + [Made(PublisherMatches, Warning, ctx.sameDomain(urn.urn.publisher, ctx.servingDomain), subject)];
    }
    assert r == checks + ReferenceCheck(ctx, e) + FormatCheck(ctx, e, urn) + publisher;
    hide PublisherCheck, ReferenceCheck, FormatCheck;
    r := AppendIf(r, !e.pointer, Made(QueriesCount, Warning, 2 <= e.queries <= 5, subject));
    r := r + [Made(MediaType, Warning, e.known, subject)];
  }

  /** The loop that stamps what was appended for entry i. */
  method StampFrom(checks: seq<Check>, start: nat, i: nat) returns (r: seq<Check>)
    requires start <= |checks|
    ensures r == checks[..start] + Stamp(checks[start..], i)
  {
    r := checks;
    for j := start to |r|
      invariant |r| == |checks|
      invariant forall k :: 0 <= k < |r| ==> r[k] == if start <= k < j then checks[k].(entryIndex := i) else checks[k]
    {
      r := r[j := r[j].(entryIndex := i)];
    }
  }

  method SemanticChecks(ctx: Context, c: Catalog) returns (checks: seq<Check>)
    ensures checks == CatalogChecks(ctx, c) + StampedUpTo(ctx, c.entries, |c.entries|)
  {
    hide EntryChecks, Urn.SecondOccurrences;
    var ids := seq(|c.entries|, i requires 0 <= i < |c.entries| => c.entries[i].identifier);
    var unique, dups := Urn.CheckIdentifierUnique(ctx.idna, ids);
    checks := [Made(IdentifierUnique, Error, unique, SubjectCatalog)];
    if !ctx.schemaFailed {
      checks := checks + [Made(SpecVersion, Error, c.specVersion == "1.0", SubjectCatalog)];
    }
    ghost var first := checks;
    for i := 0 to |c.entries|
      invariant checks == first + StampedUpTo(ctx, c.entries, i)
    {
      ghost var made := EntryChecks(ctx, c.entries[i]);
      ghost var before := checks;
      var entryStart := |checks|;
      checks := ChecksOfEntry(ctx, c.entries[i], checks);
      assert checks[..entryStart] == before && checks[entryStart..] == made;
      checks := StampFrom(checks, entryStart, i);
      assert first + StampedUpTo(ctx, c.entries, i) + Stamp(made, i) == first + (StampedUpTo(ctx, c.entries, i) + Stamp(made, i));
    }
  }

  // -- The stamped checks find their entries ----------------------------------------------------

  /** An entry that checks can be told by: its identifier is neither empty nor "catalog". */
  predicate Named(e: Entry) { !Nameless(e.identifier) }

  lemma EntryChecksSubject(ctx: Context, e: Entry)
    ensures EntryChecks(ctx, e) != []
    ensures forall k :: 0 <= k < |EntryChecks(ctx, e)| ==> EntryChecks(ctx, e)[k].subject == EntrySubject(e)
  {
    hide Urn.Parse, EntrySubject;
  }

  lemma {:induction false} OccurrencesCount(entries: seq<Entry>, i: nat)
    requires i < |entries|
    ensures Occurrences(entries, entries[i].identifier) >= 1
    ensures Occurrences(entries, entries[i].identifier) == 1 ==> IndexOf(entries, entries[i].identifier) == i
  {
    var n := |entries| - 1;
    if i < n {
      OccurrencesCount(entries[..n], i);
    }
  }

  /** However often its identifier is repeated, a stamped check of a named entry belongs to that entry. */
  lemma StampedBelongs(check: Check, entries: seq<Entry>, i: nat)
    requires i < |entries| && check.subject == EntrySubject(entries[i]) && check.entryIndex == i
    ensures AttributedTo(check, entries) == if Named(entries[i]) then Some(i) else None
  {
    OccurrencesCount(entries, i);
  }

  lemma {:induction false} AttributedAppend(a: seq<Check>, b: seq<Check>, entries: seq<Entry>, owner: Option<nat>)
    ensures Attributed(a + b, entries, owner) == Attributed(a, entries, owner) + Attributed(b, entries, owner)
  {
    hide AttributedTo;
    if b == [] {
      assert a + b == a;
    } else {
      var n := |b| - 1;
      assert (a + b)[..|a| + n] == a + b[..n];
      AttributedAppend(a, b[..n], entries, owner);
    }
  }

  lemma {:induction false} AllOrNothing(checks: seq<Check>, entries: seq<Entry>, whose: Option<nat>, owner: Option<nat>)
    requires forall k :: 0 <= k < |checks| ==> AttributedTo(checks[k], entries) == whose
    ensures Attributed(checks, entries, owner) == if whose == owner then checks else []
  {
    hide AttributedTo;
    if checks != [] {
      var n := |checks| - 1;
      AllOrNothing(checks[..n], entries, whose, owner);
      assert checks == checks[..n] + [checks[n]];
    }
  }

  /** What is attributed to an owner among the checks stamped for the first n entries. */
  function Expected(ctx: Context, entries: seq<Entry>, n: nat, owner: Option<nat>): seq<Check>
    requires n <= |entries|
  {
    if n == 0 then []
    else
      Expected(ctx, entries, n - 1, owner)
      + if OwnerOf(entries, n - 1) == owner then Stamp(EntryChecks(ctx, entries[n - 1]), n - 1) else []
  }

  lemma NoneAttributed(entries: seq<Entry>, owner: Option<nat>)
    ensures Attributed([], entries, owner) == []
  {
  }

  lemma {:induction false} StampedAttributed(ctx: Context, entries: seq<Entry>, n: nat, owner: Option<nat>)
    requires n <= |entries|
    ensures Attributed(StampedUpTo(ctx, entries, n), entries, owner) == Expected(ctx, entries, n, owner)
  {
    NoneAttributed(entries, owner);
    hide EntryChecks, AttributedTo, Attributed, OwnerOf, Stamp;
    if n > 0 {
      StampedAttributed(ctx, entries, n - 1, owner);
      AttributedAppend(StampedUpTo(ctx, entries, n - 1), Stamp(EntryChecks(ctx, entries[n - 1]), n - 1), entries, owner);
      OneEntryAttributed(ctx, entries, n - 1, owner);
    }
  }

  function OwnerOf(entries: seq<Entry>, i: nat): Option<nat>
    requires i < |entries|
  {
    if Named(entries[i]) then Some(i) else None
  }

  lemma OneEntryAttributed(ctx: Context, entries: seq<Entry>, i: nat, owner: Option<nat>)
    requires i < |entries|
    ensures Attributed(Stamp(EntryChecks(ctx, entries[i]), i), entries, owner)
         == if OwnerOf(entries, i) == owner then Stamp(EntryChecks(ctx, entries[i]), i) else []
  {
    hide EntryChecks, AttributedTo, EntrySubject;
    var stamped := Stamp(EntryChecks(ctx, entries[i]), i);
    EntryChecksSubject(ctx, entries[i]);
    forall k | 0 <= k < |stamped| ensures AttributedTo(stamped[k], entries) == OwnerOf(entries, i) {
      StampedBelongs(stamped[k], entries, i);
    }
    AllOrNothing(stamped, entries, OwnerOf(entries, i), owner);
  }

  lemma {:induction false} ExpectedOf(ctx: Context, entries: seq<Entry>, n: nat, i: nat)
    requires n <= |entries| && i < |entries|
    ensures Expected(ctx, entries, n, Some(i)) == if i < n && Named(entries[i]) then Stamp(EntryChecks(ctx, entries[i]), i) else []
  {
    hide EntryChecks;
    if n > 0 {
      ExpectedOf(ctx, entries, n - 1, i);
    }
  }

  /**
   The bucket of a named entry is exactly the sequence of checks made for it, even
   when identifiers repeat; an unnamed entry gets no bucket.
   */
  lemma BucketIsWhatWasMade(ctx: Context, c: Catalog, i: nat)
    requires i < |c.entries|
    ensures Attributed(CatalogChecks(ctx, c) + StampedUpTo(ctx, c.entries, |c.entries|), c.entries, Some(i))
         == if Named(c.entries[i]) then Stamp(EntryChecks(ctx, c.entries[i]), i) else []
  {
    hide EntryChecks, StampedUpTo, Expected;
    AttributedAppend(CatalogChecks(ctx, c), StampedUpTo(ctx, c.entries, |c.entries|), c.entries, Some(i));
    AllOrNothing(CatalogChecks(ctx, c), c.entries, None, Some(i));
    StampedAttributed(ctx, c.entries, |c.entries|, Some(i));
    ExpectedOf(ctx, c.entries, |c.entries|, i);
  }

  /** With every entry named, the catalog keeps exactly the catalog-wide checks. */
  lemma CatalogKeepsItsOwn(ctx: Context, c: Catalog)
    requires forall i :: 0 <= i < |c.entries| ==> Named(c.entries[i])
    ensures Attributed(CatalogChecks(ctx, c) + StampedUpTo(ctx, c.entries, |c.entries|), c.entries, None) == CatalogChecks(ctx, c)
  {
    hide EntryChecks, StampedUpTo, Expected;
    AttributedAppend(CatalogChecks(ctx, c), StampedUpTo(ctx, c.entries, |c.entries|), c.entries, None);
    AllOrNothing(CatalogChecks(ctx, c), c.entries, None, None);
    StampedAttributed(ctx, c.entries, |c.entries|, None);
    NothingForCatalog(ctx, c.entries, |c.entries|);
  }

  lemma {:induction false} NothingForCatalog(ctx: Context, entries: seq<Entry>, n: nat)
    requires n <= |entries| && forall i :: 0 <= i < |entries| ==> Named(entries[i])
    ensures Expected(ctx, entries, n, None) == []
  {
    if n > 0 {
      NothingForCatalog(ctx, entries, n - 1);
    }
  }
}
