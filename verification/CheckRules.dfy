/** When semanticChecks (internal/ard/verify.go) makes a check, and when the check passes. */
module CheckRules {
  import Urn
  import opened Checks

  /** The check k, stamped or not, is one to be made for this entry. */
  ghost predicate DueFor(ctx: Context, e: Entry, k: Check) {
    var urn := Urn.Parse(ctx.idna, e.identifier);
    && k.subject == (if e.identifier == "" then "catalog" else e.identifier)
    && match k.id
       case ValueOrReference => k.severity == Error && !ctx.schemaFailed && (k.passed <==> (e.hasUrl && !e.hasData) || (e.hasData && !e.hasUrl))
       case UrnFormat => k.severity == Error && !ctx.schemaFailed && (k.passed <==> urn.Ok?)
       case PublisherMatches =>
         && k.severity == Warning && urn.Ok? && ctx.servingDomain != ""
         && (k.passed <==> ctx.sameDomain(urn.urn.publisher, ctx.servingDomain))
       case QueriesCount => k.severity == Warning && !e.pointer && (k.passed <==> e.queries in {2, 3, 4, 5})
       case MediaType => k.severity == Warning && (k.passed <==> e.known)
       case _ => false
  }

  /** The check k is one to be made for this catalog or for one of its entries. */
  ghost predicate Due(ctx: Context, c: Catalog, k: Check) {
    if 0 <= k.entryIndex < |c.entries| then DueFor(ctx, c.entries[k.entryIndex], k)
    else
      && k.entryIndex == -1 && k.subject == "catalog" && k.severity == Error
      && match k.id
         case IdentifierUnique =>
           k.passed <==> forall i, j :: 0 <= i < j < |c.entries| ==>
             !Urn.SameIdentifier(ctx.idna, c.entries[i].identifier, c.entries[j].identifier)
         case SpecVersion => !ctx.schemaFailed && (k.passed <==> c.specVersion == "1.0")
         case _ => false
  }

  /** No check is made twice for the same entry. */
  predicate Once(checks: seq<Check>) {
    forall i, j :: 0 <= i < j < |checks| ==> checks[i].id != checks[j].id || checks[i].entryIndex != checks[j].entryIndex
  }

  lemma EntryChecksDue(ctx: Context, e: Entry, k: Check)
    ensures k in EntryChecks(ctx, e) <==> DueFor(ctx, e, k) && k.entryIndex == -1
  {
    var urn := Urn.Parse(ctx.idna, e.identifier);
    hide Urn.Parse;
    assert k in ReferenceCheck(ctx, e) <==> DueFor(ctx, e, k) && k.entryIndex == -1 && k.id == ValueOrReference;
    assert k in FormatCheck(ctx, e, urn) <==> DueFor(ctx, e, k) && k.entryIndex == -1 && k.id == UrnFormat;
    assert k in PublisherCheck(ctx, e, urn) <==> DueFor(ctx, e, k) && k.entryIndex == -1 && k.id == PublisherMatches;
    assert k in QueriesCheck(e) <==> DueFor(ctx, e, k) && k.entryIndex == -1 && k.id == QueriesCount;
  }

  lemma EntryChecksOnce(ctx: Context, e: Entry)
    ensures Once(EntryChecks(ctx, e))
  {
    hide Urn.Parse, EntrySubject;
  }

  lemma StampMembers(made: seq<Check>, i: nat, k: Check)
    requires forall j :: 0 <= j < |made| ==> made[j].entryIndex == -1
    ensures k in Stamp(made, i) <==> k.entryIndex == i && k.(entryIndex := -1) in made
  {
    var stamped := Stamp(made, i);
    if k in stamped {
      var j :| 0 <= j < |stamped| && stamped[j] == k;
      assert made[j] == k.(entryIndex := -1);
    }
    if k.entryIndex == i && k.(entryIndex := -1) in made {
      var j :| 0 <= j < |made| && made[j] == k.(entryIndex := -1);
      assert stamped[j] == k;
    }
  }

  lemma StampedDue(ctx: Context, entries: seq<Entry>, i: nat, k: Check)
    requires i < |entries|
    ensures k in Stamp(EntryChecks(ctx, entries[i]), i) <==> k.entryIndex == i && DueFor(ctx, entries[i], k)
  {
    var made := EntryChecks(ctx, entries[i]);
    EntryChecksDue(ctx, entries[i], k.(entryIndex := -1));
    forall j | 0 <= j < |made| ensures made[j].entryIndex == -1 {
      EntryChecksDue(ctx, entries[i], made[j]);
    }
    StampMembers(made, i, k);
    hide EntryChecks, Stamp;
  }

  lemma {:induction false} StampedUpToDue(ctx: Context, entries: seq<Entry>, n: nat, k: Check)
    requires n <= |entries|
    ensures k in StampedUpTo(ctx, entries, n) <==> 0 <= k.entryIndex < n && DueFor(ctx, entries[k.entryIndex], k)
  {
    hide EntryChecks, Stamp, DueFor;
    if n > 0 {
      StampedUpToDue(ctx, entries, n - 1, k);
      StampedDue(ctx, entries, n - 1, k);
    }
  }

  lemma OnceAppend(a: seq<Check>, b: seq<Check>, n: int)
    requires Once(a) && Once(b)
    requires forall i :: 0 <= i < |a| ==> a[i].entryIndex < n
    requires forall i :: 0 <= i < |b| ==> b[i].entryIndex >= n
    ensures Once(a + b)
  {
  }

  lemma StampOnce(made: seq<Check>, i: nat)
    requires Once(made) && forall j :: 0 <= j < |made| ==> made[j].entryIndex == -1
    ensures Once(Stamp(made, i)) && forall j :: 0 <= j < |made| ==> Stamp(made, i)[j].entryIndex == i
  {
  }

  lemma {:induction false} StampedUpToOnce(ctx: Context, entries: seq<Entry>, n: nat)
    requires n <= |entries|
    ensures Once(StampedUpTo(ctx, entries, n))
  {
    hide EntryChecks, Once, Stamp, DueFor;
    if n == 0 {
      NoneTwice(StampedUpTo(ctx, entries, 0));
    } else {
      var before, made := StampedUpTo(ctx, entries, n - 1), EntryChecks(ctx, entries[n - 1]);
      StampedUpToOnce(ctx, entries, n - 1);
      EntryChecksOnce(ctx, entries[n - 1]);
      forall j | 0 <= j < |made| ensures made[j].entryIndex == -1 {
        EntryChecksDue(ctx, entries[n - 1], made[j]);
      }
      StampOnce(made, n - 1);
      forall i | 0 <= i < |before| ensures before[i].entryIndex < n - 1 {
        StampedUpToDue(ctx, entries, n - 1, before[i]);
      }
      OnceAppend(before, Stamp(made, n - 1), n - 1);
    }
  }

  lemma NoneTwice(checks: seq<Check>)
    requires checks == []
    ensures Once(checks)
  {
  }

  lemma DistinctIdentifiers(ctx: Context, c: Catalog, ids: seq<string>)
    requires Urn.Lawful(ctx.idna)
    requires |ids| == |c.entries| && forall i :: 0 <= i < |ids| ==> ids[i] == c.entries[i].identifier
    ensures Urn.SecondOccurrences(ctx.idna, ids) == [] <==>
      forall i, j :: 0 <= i < j < |c.entries| ==> !Urn.SameIdentifier(ctx.idna, c.entries[i].identifier, c.entries[j].identifier)
  {
    hide Urn.SameIdentifier, Urn.Lawful, Urn.SecondOccurrences;
    Urn.UniqueExactly(ctx.idna, ids);
    assert forall i :: 0 <= i < |c.entries| ==> c.entries[i].identifier == ids[i];
  }

  lemma CatalogChecksDue(ctx: Context, c: Catalog, k: Check)
    requires Urn.Lawful(ctx.idna)
    ensures k in CatalogChecks(ctx, c) <==> Due(ctx, c, k) && k.entryIndex == -1
  {
    var ids := seq(|c.entries|, i requires 0 <= i < |c.entries| => c.entries[i].identifier);
    DistinctIdentifiers(ctx, c, ids);
    hide Urn.SecondOccurrences, Urn.SameIdentifier, Urn.Lawful;
  }

  lemma CatalogChecksOnce(ctx: Context, c: Catalog)
    ensures Once(CatalogChecks(ctx, c))
  {
    hide Urn.SecondOccurrences;
  }

  /**
   Which checks there are for a document, and when each passes: one value or
   reference, a URN by its grammar, a publisher of the serving domain, two to five
   queries, a known media type, version 1.0, and no identifier twice.
   */
  lemma ChecksAreDue(ctx: Context, c: Catalog)
    requires Urn.Lawful(ctx.idna)
    ensures var checks := CatalogChecks(ctx, c) + StampedUpTo(ctx, c.entries, |c.entries|);
      Once(checks) && forall k :: k in checks <==> Due(ctx, c, k)
  {
    var first, rest := CatalogChecks(ctx, c), StampedUpTo(ctx, c.entries, |c.entries|);
    forall k ensures k in first <==> Due(ctx, c, k) && k.entryIndex == -1 {
      CatalogChecksDue(ctx, c, k);
    }
    forall k ensures k in rest <==> Due(ctx, c, k) && k.entryIndex >= 0 {
      StampedUpToDue(ctx, c.entries, |c.entries|, k);
    }
    StampedUpToOnce(ctx, c.entries, |c.entries|);
    CatalogChecksOnce(ctx, c);
    hide *;
    assert forall i :: 0 <= i < |first| ==> first[i] in first;
    assert forall i :: 0 <= i < |rest| ==> rest[i] in rest;
    OnceAppend(first, rest, 0);
  }
}
