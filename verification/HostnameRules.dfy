/** What sanitizeName (internal/seed/seed.go) keeps of a raw name, and under which name. */
module HostnameRules {
  import opened Basics
  import opened DedupKey
  import opened Hostnames

  predicate LetterOrDigit(c: char) { 'a' <= c <= 'z' || '0' <= c <= '9' }

  /** The characters before and behind place k. */
  predicate Apart(s: string, k: nat) {
    0 < k < |s| - 1 && LetterOrDigit(s[k - 1]) && LetterOrDigit(s[k + 1])
  }

  /** One of the 64 characters from place k on is a dot. */
  predicate DotWithin(s: string, k: nat) {
    exists j :: k <= j < k + 64 && j < |s| && s[j] == '.'
  }

  /** Labels of one to 63 characters, none of which starts or ends with a hyphen. */
  predicate Labelled(s: string) {
    && s != "" && LetterOrDigit(s[0]) && LetterOrDigit(s[|s| - 1])
    && (forall k :: 0 <= k < |s| ==> LetterOrDigit(s[k]) || s[k] == '-' || s[k] == '.')
    && (forall k: nat {:trigger Apart(s, k)} :: k < |s| && s[k] == '.' ==> Apart(s, k))
    && forall k: nat {:trigger DotWithin(s, k)} :: k + 64 <= |s| ==> DotWithin(s, k)
  }

  predicate IsQuad(s: string, a: nat, b: nat, c: nat, d: nat) {
    && a < 256 && b < 256 && c < 256 && d < 256
    && s == Decimal(a) + "." + Decimal(b) + "." + Decimal(c) + "." + Decimal(d)
  }

  /** An IPv4 address in dotted decimal form. */
  ghost predicate Dotted(s: string) { exists a: nat, b: nat, c: nat, d: nat :: IsQuad(s, a, b, c, d) }

  /** raw trimmed, without one leading "*.", lower-cased, and without one final dot. */
  ghost predicate Reduces(t: Text, raw: string, name: string) {
    exists bare ::
      && (t.trim(raw) == "*." + bare || (bare == t.trim(raw) && !("*." <= bare)))
      && (t.lower(bare) == name + "." || (t.lower(bare) == name && (name == "" || name[|name| - 1] != '.')))
  }

  lemma {:induction false} LabelsMeanLabelled(s: string)
    requires LabelsOk(s)
    ensures Labelled(s)
  {
    var i := FirstDot(s);
    var head := s[..i];
    assert head[0] == s[0] && head[i - 1] == s[i - 1];
    assert forall k :: 0 <= k < i ==> head[k] == s[k];
    if i < |s| {
      var rest := s[i + 1..];
      LabelsMeanLabelled(rest);
      Behind(s, i + 1);
      forall k: nat | k < |s| && s[k] == '.' ensures Apart(s, k) {
        assert k > i ==> rest[k - i - 1] == '.' && Apart(rest, k - i - 1);
      }
      forall k: nat | k + 64 <= |s| ensures DotWithin(s, k) {
        assert k > i ==> DotWithin(rest, k - i - 1);
      }
    }
  }

  /** What holds at a place behind n holds at the same place of the rest. */
  lemma Behind(s: string, n: nat)
    requires n < |s|
    ensures forall k: nat :: n <= k < |s| ==> s[n..][k - n] == s[k]
    ensures forall k: nat :: n < k < |s| ==> (Apart(s[n..], k - n) <==> Apart(s, k))
    ensures forall k: nat :: n <= k && k + 64 <= |s| ==> (DotWithin(s[n..], k - n) <==> DotWithin(s, k))
  {
    var rest := s[n..];
    forall k: nat | n <= k && k + 64 <= |s| ensures DotWithin(rest, k - n) <==> DotWithin(s, k) {
      if DotWithin(s, k) {
        var j :| k <= j < k + 64 && j < |s| && s[j] == '.';
        assert rest[j - n] == '.';
      }
      if DotWithin(rest, k - n) {
        var j :| k - n <= j < k - n + 64 && j < |rest| && rest[j] == '.';
        assert s[j + n] == '.';
      }
    }
  }

  lemma FirstLabelOk(s: string)
    requires Labelled(s)
    ensures LabelOk(s[..FirstDot(s)])
  {
    var i := FirstDot(s);
    var head := s[..i];
    assert i < |s| ==> Apart(s, i);
    assert head[0] == s[0] && head[i - 1] == s[i - 1];
    assert |s| >= 64 ==> DotWithin(s, 0);
  }

  lemma {:induction false} LabelledMeansLabels(s: string)
    requires Labelled(s)
    ensures LabelsOk(s)
  {
    var i := FirstDot(s);
    FirstLabelOk(s);
    if i < |s| {
      assert Apart(s, i);
      RestLabelled(s, i);
      LabelledMeansLabels(s[i + 1..]);
    }
  }

  lemma RestLabelled(s: string, i: nat)
    requires Labelled(s) && Apart(s, i)
    ensures Labelled(s[i + 1..])
  {
    var rest := s[i + 1..];
    Behind(s, i + 1);
    assert forall k: nat :: k < |rest| ==> rest[k] == s[k + i + 1];
    forall k: nat | k < |rest| && rest[k] == '.' ensures Apart(rest, k) {
      assert Apart(s, k + i + 1);
    }
    forall k: nat | k + 64 <= |rest| ensures DotWithin(rest, k) {
      assert DotWithin(s, k + i + 1);
    }
  }

  // -- IPv4 addresses ------------------------------------------------------------------

  lemma OctetRead(s: string)
    requires Octet(s)
    ensures Number(s) <= 255 && Decimal(Number(s)) == s
  {
    if |s| > 1 {
      assert Number(s[..1]) == s[0] as int - '0' as int by { assert s[..1][..0] == ""; }
      assert |s| == 3 ==> s[..2][..1] == s[..1];
    } else {
      assert s[..0] == "";
    }
    assert s == s[..|s| - 1] + [s[|s| - 1]];
  }

  lemma OctetWritten(n: nat)
    requires n < 256
    ensures Octet(Decimal(n)) && Number(Decimal(n)) == n
  {
    var s := Decimal(n);
    if n < 10 {
      assert s[..0] == "";
    } else if n < 100 {
      assert s == [Decimal(n / 10)[0], s[1]];
      assert s[..1][..0] == "";
    } else {
      assert s == [s[0], s[1], s[2]];
      assert s[..2][..1][..0] == "";
    }
  }

  lemma OctetNoDot(n: nat)
    requires n < 256
    ensures '.' !in Decimal(n)
  {
    OctetWritten(n);
  }

  /** One octet and a dot in front. */
  lemma OctetInFront(n: nat, rest: string, octets: nat)
    requires n < 256 && octets > 1
    ensures IsIPv4(Decimal(n) + "." + rest, octets) <==> IsIPv4(rest, octets - 1)
  {
    var s := Decimal(n) + "." + rest;
    OctetNoDot(n);
    OctetWritten(n);
    hide Decimal, Octet;
    var i := FirstDot(s);
    assert s[|Decimal(n)|] == '.';
    assert forall k :: 0 <= k < |Decimal(n)| ==> s[k] == Decimal(n)[k];
    assert i == |Decimal(n)| && s[..i] == Decimal(n) && s[i + 1..] == rest;
  }

  lemma LastOctet(n: nat)
    requires n < 256
    ensures IsIPv4(Decimal(n), 1)
  {
    OctetNoDot(n);
    OctetWritten(n);
    assert Decimal(n)[..|Decimal(n)|] == Decimal(n);
  }

  lemma FirstOctet(s: string, octets: nat) returns (n: nat, rest: string)
    requires IsIPv4(s, octets)
    ensures n < 256 && (octets == 1 ==> s == Decimal(n))
    ensures octets > 1 ==> s == Decimal(n) + "." + rest && IsIPv4(rest, octets - 1)
  {
    var i := FirstDot(s);
    n := Number(s[..i]);
    OctetRead(s[..i]);
    rest := if octets > 1 then s[i + 1..] else "";
    assert octets == 1 ==> s[..i] == s;
    assert octets > 1 ==> s == s[..i] + "." + s[i + 1..];
  }

  lemma AddressIsQuad(s: string)
    requires IsIPv4(s)
    ensures Dotted(s)
  {
    hide IsIPv4, Decimal;
    var a, behind := FirstOctet(s, 4);
    var b, behind' := FirstOctet(behind, 3);
    var c, behind'' := FirstOctet(behind', 2);
    var d, _ := FirstOctet(behind'', 1);
    assert s == Decimal(a) + "." + Decimal(b) + "." + Decimal(c) + "." + Decimal(d) by {
      assert Decimal(a) + "." + (Decimal(b) + "." + (Decimal(c) + "." + Decimal(d)))
          == Decimal(a) + "." + Decimal(b) + "." + Decimal(c) + "." + Decimal(d);
    }
    assert IsQuad(s, a, b, c, d);
  }

  lemma QuadIsAddress(s: string, a: nat, b: nat, c: nat, d: nat)
    requires IsQuad(s, a, b, c, d)
    ensures IsIPv4(s)
  {
    hide IsIPv4, Decimal;
    var last := Decimal(c) + "." + Decimal(d);
    var behind := Decimal(b) + "." + last;
    LastOctet(d);
    OctetInFront(c, Decimal(d), 2);
    OctetInFront(b, last, 3);
    OctetInFront(a, behind, 4);
    assert s == Decimal(a) + "." + behind;
  }

  lemma IPv4IsDotted(s: string)
    ensures IsIPv4(s) <==> Dotted(s)
  {
    if IsIPv4(s) {
      AddressIsQuad(s);
    }
    if a: nat, b: nat, c: nat, d: nat :| IsQuad(s, a, b, c, d) {
      QuadIsAddress(s, a, b, c, d);
    }
  }

  // -- The exact result -------------------------------------------------------------------

  lemma ReducesExactly(t: Text, raw: string, name: string)
    ensures Reduces(t, raw, name) <==> name == TrimDot(t.lower(TrimPrefix(t.trim(raw), "*.")))
  {
    var bare := TrimPrefix(t.trim(raw), "*.");
    assert "*." <= t.trim(raw) ==> t.trim(raw) == "*." + bare;
    if name == TrimDot(t.lower(bare)) {
      assert t.lower(bare) == name + "." || t.lower(bare) == name;
    }
    if b :|
      && (t.trim(raw) == "*." + b || (b == t.trim(raw) && !("*." <= b)))
      && (t.lower(b) == name + "." || (t.lower(b) == name && (name == "" || name[|name| - 1] != '.')))
    {
      assert b == bare;
    }
  }

  /**
   A raw name is kept, and as this name, exactly when that is what trimming and
   lower-casing make of it and it is a host name of two or more labels that is
   not an address.
   */
  lemma SanitizedExactly(t: Text, raw: string, name: string)
    ensures SanitizeName(t, raw) == Some(name) <==>
      t.trim(raw) != "" && Reduces(t, raw, name) && |name| <= 253 && '.' in name && Labelled(name) && !Dotted(name)
  {
    ReducesExactly(t, raw, name);
    IPv4IsDotted(name);
    if LabelsOk(name) {
      LabelsMeanLabelled(name);
    }
    if Labelled(name) {
      LabelledMeansLabels(name);
    }
    hide Reduces, Dotted, Labelled, IsIPv4, LabelsOk;
  }
}
