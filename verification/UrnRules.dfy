/** What ParseURN accepts (internal/ard/types.go), and what becomes of an identifier for the schema. */
module UrnRules {
  import opened Basics
  import opened Urn

  /** s starts with urn:nid: in any case. */
  predicate Starts(s: string, nid: string) {
    var prefix := "urn:" + nid + ":";
    && |prefix| <= |s|
    && forall k :: 0 <= k < |prefix| ==> s[k] == prefix[k] || ('A' <= s[k] <= 'Z' && s[k] as int + 32 == prefix[k] as int)
  }

  predicate Segment(s: string) { s != "" && ':' !in s }

  /** p is a way to write u's publisher, and all parts are segments. */
  predicate Spelled(e: Idna, u: URN, p: string) {
    && Segment(p) && Segment(u.name) && (forall k :: 0 <= k < |u.namespace| ==> Segment(u.namespace[k]))
    && (e.toAscii(e.lower(p)) == Some(u.publisher) || (e.toAscii(e.lower(p)).None? && u.publisher == e.lower(p)))
    && '.' in u.publisher && ' ' !in u.publisher && '\t' !in u.publisher && '\n' !in u.publisher
  }

  /** s writes u, with the publisher spelled p. */
  predicate Writes(e: Idna, s: string, u: URN, p: string) {
    && (u.nid == "air" || u.nid == "ai") && Starts(s, u.nid)
    && s[|u.nid| + 5..] == Join([p] + u.namespace + [u.name])
    && Spelled(e, u, p)
  }

  lemma NidStarts(s: string)
    ensures Starts(s, "air") <==> NidOf(s) == Some("air")
    ensures Starts(s, "ai") <==> NidOf(s) == Some("ai")
  {
    var f := FoldAll(s);
    assert Prefix("ai") <= f ==> f[6] == Prefix("ai")[6] == ':';
    assert Prefix("air") <= f ==> f[6] == Prefix("air")[6] == 'r';
    assert |Prefix("air")| == 8 && |Prefix("ai")| == 7;
    FoldStarts(s, "air");
    FoldStarts(s, "ai");
  }

  lemma FoldStarts(s: string, nid: string)
    requires nid == "air" || nid == "ai"
    ensures Starts(s, nid) <==> Prefix(nid) <= FoldAll(s)
  {
    var prefix := "urn:" + nid + ":";
    var f := FoldAll(s);
    assert prefix == Prefix(nid);
    if |prefix| <= |s| {
      assert forall k :: 0 <= k < |prefix| ==> f[k] == Urn.Fold(s[k]) && f[..|prefix|][k] == f[k];
      assert prefix <= f <==> f[..|prefix|] == prefix;
    }
  }

  lemma SegmentsSpelled(e: Idna, nid: string, segments: seq<string>, u: URN)
    requires segments != [] && AllColonFree(segments) && ParseSegments(e, nid, segments) == Ok(u)
    ensures segments == [segments[0]] + u.namespace + [u.name] && Spelled(e, u, segments[0])
  {
    var n := |segments| - 1;
    assert segments == [segments[0]] + segments[1..n] + [segments[n]];
    forall k | 0 <= k <= n ensures Segment(segments[k]) {
      assert ColonFree(segments[k]) && segments[k] in segments;
    }
    assert forall k :: 0 <= k < |u.namespace| ==> u.namespace[k] == segments[k + 1];
  }

  lemma SpelledSegments(e: Idna, nid: string, p: string, u: URN)
    requires Spelled(e, u, p) && u.nid == nid
    ensures AllColonFree([p] + u.namespace + [u.name]) && ParseSegments(e, nid, [p] + u.namespace + [u.name]) == Ok(u)
  {
    var segments := [p] + u.namespace + [u.name];
    assert segments[1..|segments| - 1] == u.namespace;
    assert forall k :: 0 <= k < |segments| ==> Segment(segments[k]);
  }

  lemma SegmentsWritten(e: Idna, s: string, u: URN) returns (p: string)
    requires Parse(e, s) == Ok(u)
    ensures Writes(e, s, u, p)
  {
    var nid := NidOf(s).value;
    var rest := s[|Prefix(nid)|..];
    var segments := Split(rest);
    p := segments[0];
    assert |Prefix(nid)| == |nid| + 5;
    assert ParseSegments(e, nid, segments) == Ok(u);
    OkSegments(e, nid, segments);
    NidStarts(s);
    JoinSplit(rest);
    hide Split, Join, ParseSegments, Spelled;
    SegmentsSpelled(e, nid, segments, u);
  }

  lemma WrittenSegments(e: Idna, s: string, u: URN, p: string)
    requires Writes(e, s, u, p)
    ensures Parse(e, s) == Ok(u)
  {
    NidStarts(s);
    hide ParseSegments, Spelled;
    var segments := [p] + u.namespace + [u.name];
    SpelledSegments(e, u.nid, p, u);
    SplitJoin(segments);
    NonEmptyRest(e, u, p);
    hide Split, Join;
  }

  lemma NonEmptyRest(e: Idna, u: URN, p: string)
    requires Spelled(e, u, p)
    ensures Join([p] + u.namespace + [u.name]) != ""
  {
    NonEmptyJoin([p] + u.namespace + [u.name]);
  }

  /** A string is parsed, and as this URN, exactly when it writes it. */
  lemma ParsesExactly(e: Idna, s: string, u: URN)
    ensures Parse(e, s) == Ok(u) <==> exists p :: Writes(e, s, u, p)
  {
    if Parse(e, s) == Ok(u) {
      var p := SegmentsWritten(e, s, u);
    }
    if p :| Writes(e, s, u, p) {
      WrittenSegments(e, s, u, p);
    }
  }

  lemma AsciiBodyIs(e: Idna, p: string, tail: string)
    requires Segment(p) && (tail == "" || tail[0] == ':')
    ensures AsciiBody(e, p + tail) == (if e.toAscii(e.lower(p)).Some? then e.toAscii(e.lower(p)).value else p) + tail
  {
    FirstColonIs(p, tail);
    hide FirstColon;
    assert (p + tail)[..|p|] == p && (p + tail)[|p|..] == tail;
  }

  /**
   An identifier is presented to the schema with the prefix urn:air: and its
   publisher's ASCII form, if it has one; the rest stays as it is.
   */
  lemma SchemaFormIs(e: Idna, s: string, nid: string, p: string, tail: string)
    requires (nid == "air" || nid == "ai") && Starts(s, nid) && s[|nid| + 5..] == p + tail
    requires Segment(p) && (tail == "" || tail[0] == ':')
    ensures NormalizeForSchema(e, s) == "urn:air:" + (if e.toAscii(e.lower(p)).Some? then e.toAscii(e.lower(p)).value else p) + tail
  {
    hide AsciiBody, NormalizeForSchema, NidOf, Starts, Segment;
    NidStarts(s);
    SchemaForm(e, s);
    AsciiBodyIs(e, p, tail);
    assert |Prefix(nid)| == |nid| + 5;
    hide *;
    var shown := if e.toAscii(e.lower(p)).Some? then e.toAscii(e.lower(p)).value else p;
    assert "urn:air:" + (shown + tail) == "urn:air:" + shown + tail;
  }
}
