/** Well-formed UTF-8 (section 4 of RFC 3629) as Go's decoder applies it, byte by byte. */
module Utf8 {
  type Byte = b: int | 0 <= b < 256

  type Bytes = seq<Byte>

  predicate Tail(b: Byte) { 0x80 <= b <= 0xBF }

  /** The second byte of a three- or four-byte sequence has a range that depends on the first. */
  predicate Second(lead: Byte, b: Byte) {
    match lead
    case 0xE0 => 0xA0 <= b <= 0xBF
    case 0xED => 0x80 <= b <= 0x9F
    case 0xF0 => 0x90 <= b <= 0xBF
    case 0xF4 => 0x80 <= b <= 0x8F
    case _ => Tail(b)
  }

  /** The length of the well-formed character s starts with, or 0 if its first byte starts none. */
  function Size(s: Bytes): (n: nat)
    requires s != []
    ensures n <= 4 && n <= |s|
  {
    var lead := s[0];
    if lead < 0x80 then 1
    else if 0xC2 <= lead <= 0xDF && |s| >= 2 && Tail(s[1]) then 2
    else if 0xE0 <= lead <= 0xEF && |s| >= 3 && Second(lead, s[1]) && Tail(s[2]) then 3
    else if 0xF0 <= lead <= 0xF4 && |s| >= 4 && Second(lead, s[1]) && Tail(s[2]) && Tail(s[3]) then 4
    else 0
  }

  /** Go's utf8.DecodeRune: an ill-formed byte reads as U+FFFD with size 1. */
  const RuneError: nat := 0xFFFD

  function Six(high: nat, b: Byte): nat
    requires Tail(b)
  {
    high * 0x40 + (b as int - 0x80)
  }

  function DecodeRune(s: Bytes): (r: (nat, nat))
    requires s != []
    ensures 1 <= r.1 <= |s|
  {
    match Size(s)
    case 0 => (RuneError, 1)
    case 1 => (s[0], 1)
    case 2 => (Six(s[0] as int - 0xC0, s[1]), 2)
    case 3 => (Six(Six(s[0] as int - 0xE0, s[1]), s[2]), 3)
    case _ => (Six(Six(Six(s[0] as int - 0xF0, s[1]), s[2]), s[3]), 4)
  }

  predicate Scalar(r: nat) { r < 0xD800 || 0xDFFF < r < 0x110000 }

  function Low(r: nat): Byte { 0x80 + r % 0x40 }

  function Encode(r: nat): Bytes
    requires Scalar(r)
  {
    if r < 0x80 then [r]
    else if r < 0x800 then [0xC0 + r / 0x40, Low(r)]
    else if r < 0x10000 then [0xE0 + r / 0x40 / 0x40, Low(r / 0x40), Low(r)]
    else [0xF0 + r / 0x40 / 0x40 / 0x40, Low(r / 0x40 / 0x40), Low(r / 0x40), Low(r)]
  }

  predicate WellFormed(s: Bytes) {
    s == [] || (Size(s) > 0 && WellFormed(s[Size(s)..]))
  }

  /** The bytes behind a well-formed character do not change its size. */
  lemma SizeLocal(s: Bytes, rest: Bytes)
    requires s != [] && Size(s) > 0
    ensures Size(s[..Size(s)] + rest) == Size(s)
  {
    var n := Size(s);
    var t := s[..n] + rest;
    assert t[0] == s[0];
    assert n > 1 ==> t[1] == s[1];
    assert n > 2 ==> t[2] == s[2];
    assert n > 3 ==> t[3] == s[3];
  }

  lemma SixBack(high: nat, b: Byte)
    requires Tail(b)
    ensures Six(high, b) / 0x40 == high && Low(Six(high, b)) == b
  {
  }

  /** Decoding a well-formed character yields a scalar value, and encoding that gives the same bytes back. */
  lemma EncodeDecode(s: Bytes)
    requires s != [] && Size(s) > 0
    ensures Scalar(DecodeRune(s).0)
    ensures Encode(DecodeRune(s).0) == s[..Size(s)]
  {
    hide Low;
    if Size(s) == 2 {
      SixBack(s[0] as int - 0xC0, s[1]);
    } else if Size(s) == 3 {
      var a := Six(s[0] as int - 0xE0, s[1]);
      SixBack(s[0] as int - 0xE0, s[1]);
      SixBack(a, s[2]);
    } else if Size(s) == 4 {
      var a := Six(s[0] as int - 0xF0, s[1]);
      SixBack(s[0] as int - 0xF0, s[1]);
      SixBack(a, s[2]);
      SixBack(Six(a, s[2]), s[3]);
    }
  }

  /** The characters are told from U+FFFD for an ill-formed byte by their size, as the writer does. */
  lemma IllFormedHasSizeOne(s: Bytes)
    requires s != []
    ensures DecodeRune(s).0 == RuneError && DecodeRune(s).1 == 1 <==> Size(s) == 0
  {
  }

  const Replacement: Bytes := [0xEF, 0xBF, 0xBD]

  /** Each byte that starts no well-formed character becomes U+FFFD. */
  function Clean(s: Bytes): Bytes {
    if s == [] then []
    else if Size(s) == 0 then Replacement + Clean(s[1..])
    else s[..Size(s)] + Clean(s[Size(s)..])
  }

  lemma {:induction false} CleanGrows(s: Bytes)
    ensures |Clean(s)| >= |s|
    ensures |Clean(s)| == |s| ==> WellFormed(s)
  {
    if s != [] {
      CleanGrows(if Size(s) == 0 then s[1..] else s[Size(s)..]);
    }
  }

  lemma {:induction false} WellFormedIsClean(s: Bytes)
    requires WellFormed(s)
    ensures Clean(s) == s
  {
    if s != [] {
      WellFormedIsClean(s[Size(s)..]);
      assert s[..Size(s)] + s[Size(s)..] == s;
    }
  }

  /** Cleaning changes exactly the ill-formed inputs. */
  lemma CleanFixesWellFormed(s: Bytes)
    ensures Clean(s) == s <==> WellFormed(s)
  {
    CleanGrows(s);
    if WellFormed(s) {
      WellFormedIsClean(s);
    }
  }

  lemma {:induction false} CleanIsWellFormed(s: Bytes)
    ensures WellFormed(Clean(s))
  {
    if s != [] {
      if Size(s) == 0 {
        CleanIsWellFormed(s[1..]);
        assert (Replacement + Clean(s[1..]))[3..] == Clean(s[1..]);
      } else {
        var n := Size(s);
        CleanIsWellFormed(s[n..]);
        SizeLocal(s, Clean(s[n..]));
        assert (s[..n] + Clean(s[n..]))[n..] == Clean(s[n..]);
      }
    }
  }
}
