/**
 The fast JSON string writer of internal/jsonout/export.go, its rune-by-rune
 specification, and a decoder for strings as section 7 of RFC 8259 defines them.
 */
module JsonString {
  import opened Basics
  import opened Utf8

  const QuoteMark: Byte := 0x22
  const Backslash: Byte := 0x5C
  const LetterU: Byte := 0x75

  function Hex(d: nat): Byte
    requires d < 16
  {
    if d < 10 then 0x30 + d else 0x61 + (d - 10)
  }

  // -- The specification ----------------------------------------------------------------

  /** ASCII that may stand in a string as it is. */
  predicate Plain(c: Byte) {
    0x20 <= c < 0x80 && c != QuoteMark && c != Backslash && c != 0x3C && c != 0x3E && c != 0x26
  }

  function EscapeAscii(c: Byte): Bytes
    requires c < 0x80
  {
    if Plain(c) then [c]
    else match c
      case 0x22 => [Backslash, 0x22]
      case 0x5C => [Backslash, Backslash]
      case 0x0A => [Backslash, 0x6E]
      case 0x0D => [Backslash, 0x72]
      case 0x09 => [Backslash, 0x74]
      case 0x08 => [Backslash, 0x62]
      case 0x0C => [Backslash, 0x66]
      case _ => [Backslash, LetterU, 0x30, 0x30, Hex(c / 16), Hex(c % 16)]
  }

  predicate Separator(r: nat) { r == 0x2028 || r == 0x2029 }

  const EscapedError: Bytes := [Backslash, LetterU, 0x66, 0x66, 0x66, 0x64]

  /** The escaped form of the first rune. */
  function Escape(s: Bytes): Bytes
    requires s != []
  {
    var (r, size) := DecodeRune(s);
    if s[0] < 0x80 then EscapeAscii(s[0])
    else if r == RuneError && size == 1 then EscapedError
    else if Separator(r) then [Backslash, LetterU, 0x32, 0x30, 0x32, Hex(r % 16)]
    else s[..size]
  }

  function QuoteBody(s: Bytes): Bytes {
    if s == [] then [] else Escape(s) + QuoteBody(s[DecodeRune(s).1..])
  }

  function Quote(s: Bytes): Bytes { [QuoteMark] + QuoteBody(s) + [QuoteMark] }

  // -- The fast form ----------------------------------------------------------------------

  lemma QuoteNext(s: Bytes, i: nat)
    requires i < |s|
    ensures var size := DecodeRune(s[i..]).1;
      && i + size <= |s| && (s[i] < 0x80 ==> size == 1)
      && QuoteBody(s[i..]) == Escape(s[i..]) + QuoteBody(s[i + size..])
  {
    assert s[i..][DecodeRune(s[i..]).1..] == s[i + DecodeRune(s[i..]).1..];
  }

  /** The writer's branches. */
  lemma EscapeCases(s: Bytes)
    requires s != []
    ensures s[0] < 0x80 ==> DecodeRune(s) == (s[0], 1)
    ensures var (r, size) := DecodeRune(s);
      if s[0] < 0x80 then Escape(s) == EscapeAscii(s[0]) && (Plain(s[0]) ==> Escape(s) == s[..1])
      else if r == RuneError && size == 1 then Escape(s) == EscapedError
      else if r == 0x2028 || r == 0x2029 then Escape(s) == [Backslash, LetterU, 0x32, 0x30, 0x32, Hex(r % 16)]
      else Escape(s) == s[..size]
  {
  }

  /** The switch over the ASCII characters that need an escape. */
  method AppendEscaped(b: Bytes, c: Byte) returns (r: Bytes)
    requires c < 0x80 && !Plain(c)
    ensures r == b + EscapeAscii(c)
  {
    match c {
      case 0x22 => r := b + [Backslash, 0x22];
      case 0x5C => r := b + [Backslash, Backslash];
      case 0x0A => r := b + [Backslash, 0x6E];
      case 0x0D => r := b + [Backslash, 0x72];
      case 0x09 => r := b + [Backslash, 0x74];
      case 0x08 => r := b + [Backslash, 0x62];
      case 0x0C => r := b + [Backslash, 0x66];
      case _ => r := b + [Backslash, LetterU, 0x30, 0x30, Hex(c / 16), Hex(c % 16)];
    }
  }

  /** r holds everything up to start; the stretch from start to i waits to be copied. */
  predicate Written(b: Bytes, s: Bytes, r: Bytes, start: nat, i: nat)
    requires start <= i <= |s|
  {
    r + s[start..i] + QuoteBody(s[i..]) == b + [QuoteMark] + QuoteBody(s)
  }

  /** An escape flushes the stretch. */
  lemma Flush(b: Bytes, s: Bytes, r: Bytes, start: nat, i: nat, e: Bytes)
    requires start <= i < |s| && Written(b, s, r, start, i) && Escape(s[i..]) == e
    ensures var j := i + DecodeRune(s[i..]).1; Written(b, s, r + s[start..i] + e, j, j)
  {
    hide QuoteBody, DecodeRune, Escape;
    QuoteNext(s, i);
    var j := i + DecodeRune(s[i..]).1;
    assert s[j..j] == [];
    assert r + s[start..i] + (e + QuoteBody(s[j..])) == r + s[start..i] + e + s[j..j] + QuoteBody(s[j..]);
  }

  /** A rune that stays as it is lengthens the stretch. */
  lemma Copy(b: Bytes, s: Bytes, r: Bytes, start: nat, i: nat)
    requires start <= i < |s| && Written(b, s, r, start, i)
    requires Escape(s[i..]) == s[i..][..DecodeRune(s[i..]).1]
    ensures Written(b, s, r, start, i + DecodeRune(s[i..]).1)
  {
    hide QuoteBody, DecodeRune, Escape;
    QuoteNext(s, i);
    var j := i + DecodeRune(s[i..]).1;
    assert s[start..i] + s[i..j] == s[start..j] && s[i..][..j - i] == s[i..j];
    assert r + s[start..i] + (s[i..j] + QuoteBody(s[j..])) == r + (s[start..i] + s[i..j]) + QuoteBody(s[j..]);
  }

  lemma Finish(b: Bytes, s: Bytes, r: Bytes, start: nat)
    requires start <= |s| && Written(b, s, r, start, |s|)
    ensures r + s[start..] + [QuoteMark] == b + Quote(s)
  {
    QuoteNothing(s[|s|..]);
    hide QuoteBody;
    assert s[start..] == s[start..|s|];
    assert r + s[start..] + [] == r + s[start..];
    assert b + [QuoteMark] + QuoteBody(s) + [QuoteMark] == b + ([QuoteMark] + QuoteBody(s) + [QuoteMark]);
  }

  lemma QuoteNothing(s: Bytes)
    requires s == []
    ensures QuoteBody(s) == []
  {
  }

  lemma Begin(b: Bytes, s: Bytes)
    ensures Written(b, s, b + [QuoteMark], 0, 0)
  {
    assert s[0..0] == [] && s[0..] == s;
  }

  /** Stretches that need no escape are copied whole, from start to i. */
  method AppendJSONString(b: Bytes, s: Bytes) returns (r: Bytes)
    ensures r == b + Quote(s)
  {
    hide Written, DecodeRune, Size, Escape, EscapeAscii, Hex, Quote;
    r := b + [QuoteMark];
    Begin(b, s);
    var start, i := 0, 0;
    while i < |s|
      invariant 0 <= start <= i <= |s| && Written(b, s, r, start, i)
      decreases |s| - i
    {
      EscapeCases(s[i..]);
      var c := s[i];
      if c < 0x80 {
        if c >= 0x20 && c != QuoteMark && c != Backslash && c != 0x3C && c != 0x3E && c != 0x26 {
          Copy(b, s, r, start, i);
          i := i + 1;
          continue;
        }
        Flush(b, s, r, start, i, EscapeAscii(c));
        r := r + s[start..i];
        r := AppendEscaped(r, c);
        i := i + 1;
        start := i;
        continue;
      }
      var (rune, size) := DecodeRune(s[i..]);
      if rune == RuneError && size == 1 {
        Flush(b, s, r, start, i, EscapedError);
        r := r + s[start..i];
        r := r + EscapedError;
        i := i + size;
        start := i;
        continue;
      }
      if rune == 0x2028 || rune == 0x2029 {
        Flush(b, s, r, start, i, [Backslash, LetterU, 0x32, 0x30, 0x32, Hex(rune % 16)]);
        r := r + s[start..i];
        r := r + [Backslash, LetterU, 0x32, 0x30, 0x32, Hex(rune % 16)];
        i := i + size;
        start := i;
        continue;
      }
      Copy(b, s, r, start, i);
      i := i + size;
    }
    Finish(b, s, r, start);
    r := r + s[start..];
    r := r + [QuoteMark];
  }

  // -- Decoding ------------------------------------------------------------------------------

  function HexValue(b: Byte): (v: Option<nat>)
    ensures v.Some? ==> v.value < 16
  {
    if 0x30 <= b <= 0x39 then Some(b as int - 0x30)
    else if 0x41 <= b <= 0x46 then Some(b as int - 0x41 + 10)
    else if 0x61 <= b <= 0x66 then Some(b as int - 0x61 + 10)
    else None
  }

  /** The 16-bit unit of a \u escape. */
  function Unit(t: Bytes): (v: Option<nat>)
    ensures v.Some? ==> |t| >= 6 && v.value < 0x10000
  {
    if |t| < 6 || t[0] != Backslash || t[1] != LetterU then None
    else
      match (HexValue(t[2]), HexValue(t[3]), HexValue(t[4]), HexValue(t[5]))
      case (Some(a), Some(b), Some(c), Some(d)) => Some(((a * 16 + b) * 16 + c) * 16 + d)
      case _ => None
  }

  function Simple(b: Byte): Option<Byte> {
    match b
    case 0x22 => Some(0x22)
    case 0x5C => Some(Backslash)
    case 0x2F => Some(0x2F)
    case 0x62 => Some(0x08)
    case 0x66 => Some(0x0C)
    case 0x6E => Some(0x0A)
    case 0x72 => Some(0x0D)
    case 0x74 => Some(0x09)
    case _ => None
  }

  /** One character of a string: the bytes it stands for and how much text it takes. */
  function Unescape(t: Bytes): (r: Option<(Bytes, nat)>)
    requires t != []
    ensures r.Some? ==> 1 <= r.value.1 <= |t|
  {
    if t[0] < 0x20 || t[0] == QuoteMark then None
    else if t[0] != Backslash then
      if Size(t) == 0 then None else Some((t[..Size(t)], Size(t)))
    else if |t| >= 2 && Simple(t[1]).Some? then Some(([Simple(t[1]).value], 2))
    else
      match Unit(t)
      case None => None
      case Some(u) =>
        if Scalar(u) then Some((Encode(u), 6))
        else if u >= 0xDC00 then None
        else
          match Unit(t[6..])
          case Some(low) =>
            if 0xDC00 <= low < 0xE000 then Some((Encode(0x10000 + (u - 0xD800) * 0x400 + (low - 0xDC00)), 12)) else None
          case None => None
  }

  /** The text behind an opening quotation mark: the string's bytes and what follows its end. */
  function DecodeBody(t: Bytes): (r: Option<(Bytes, Bytes)>)
    ensures r.Some? ==> |r.value.1| < |t|
  {
    if t == [] then None
    else if t[0] == QuoteMark then Some(([], t[1..]))
    else
      match Unescape(t)
      case None => None
      case Some((value, n)) =>
        match DecodeBody(t[n..])
        case None => None
        case Some((more, rest)) => Some((value + more, rest))
  }

  function DecodeString(t: Bytes): (r: Option<(Bytes, Bytes)>)
    ensures r.Some? ==> |r.value.1| < |t|
  {
    if t == [] || t[0] != QuoteMark then None else DecodeBody(t[1..])
  }

  // -- Round trip ------------------------------------------------------------------------------

  function CleanRune(s: Bytes): Bytes
    requires s != []
  {
    if Size(s) == 0 then Replacement else s[..Size(s)]
  }

  lemma HexBack(d: nat)
    requires d < 16
    ensures HexValue(Hex(d)) == Some(d)
  {
  }

  lemma AsciiBack(c: Byte, more: Bytes)
    requires c < 0x80
    ensures var text := EscapeAscii(c); text[0] != QuoteMark && Unescape(text + more) == Some(([c], |text|))
  {
    var text := EscapeAscii(c);
    var t := text + more;
    assert forall k :: 0 <= k < |text| ==> t[k] == text[k];
    HexBack(0);
    HexBack(c / 16);
    HexBack(c % 16);
    if Plain(c) {
      assert t[..1] == [c];
    }
  }

  lemma UnitBack(a: nat, b: nat, c: nat, d: nat, more: Bytes)
    requires a < 16 && b < 16 && c < 16 && d < 16
    ensures Unit([Backslash, LetterU, Hex(a), Hex(b), Hex(c), Hex(d)] + more) == Some(((a * 16 + b) * 16 + c) * 16 + d)
  {
    var text: Bytes := [Backslash, LetterU, Hex(a), Hex(b), Hex(c), Hex(d)];
    assert forall k :: 0 <= k < 6 ==> (text + more)[k] == text[k];
    HexBack(a);
    HexBack(b);
    HexBack(c);
    HexBack(d);
  }

  /** A \u escape of a scalar value in the basic plane. */
  lemma EscapeBack(a: nat, b: nat, c: nat, d: nat, more: Bytes)
    requires a < 16 && b < 16 && c < 16 && d < 16 && Scalar(((a * 16 + b) * 16 + c) * 16 + d)
    ensures Unescape([Backslash, LetterU, Hex(a), Hex(b), Hex(c), Hex(d)] + more)
         == Some((Encode(((a * 16 + b) * 16 + c) * 16 + d), 6))
  {
    hide Hex, Unit, Encode;
    UnitBack(a, b, c, d, more);
    var text: Bytes := [Backslash, LetterU, Hex(a), Hex(b), Hex(c), Hex(d)];
    assert (text + more)[0] == Backslash && (text + more)[1] == LetterU;
  }

  lemma SeparatorBack(s: Bytes, more: Bytes)
    requires s != [] && Size(s) > 0 && Separator(DecodeRune(s).0)
    ensures Escape(s)[0] == Backslash && |Escape(s)| == 6
    ensures Unescape(Escape(s) + more) == Some((s[..Size(s)], 6))
  {
    hide Unescape, Encode, Unit, DecodeRune, Size, Escape;
    var r := DecodeRune(s).0;
    EncodeDecode(s);
    EscapeCases(s);
    IllFormedHasSizeOne(s);
    EscapeBack(2, 0, 2, r % 16, more);
    assert Escape(s) == [Backslash, LetterU, Hex(2), Hex(0), Hex(2), Hex(r % 16)];
  }

  lemma ErrorBack(more: Bytes)
    ensures Unescape(EscapedError + more) == Some((Replacement, 6))
  {
    EscapeBack(15, 15, 15, 13, more);
    assert EscapedError == [Backslash, LetterU, Hex(15), Hex(15), Hex(15), Hex(13)];
    assert Encode(0xFFFD) == Replacement;
  }

  lemma RuneBack(s: Bytes, more: Bytes)
    requires s != []
    ensures Escape(s) != [] && Escape(s)[0] != QuoteMark
    ensures Unescape(Escape(s) + more) == Some((CleanRune(s), |Escape(s)|))
  {
    IllFormedHasSizeOne(s);
    if s[0] < 0x80 {
      assert Escape(s) == EscapeAscii(s[0]) && CleanRune(s) == [s[0]];
      AsciiBack(s[0], more);
    } else if Size(s) == 0 {
      ErrorBack(more);
    } else if Separator(DecodeRune(s).0) {
      SeparatorBack(s, more);
    } else {
      var n := Size(s);
      SizeLocal(s, more);
      assert (s[..n] + more)[..n] == s[..n];
    }
  }

  lemma {:induction false} BodyBack(s: Bytes, tail: Bytes)
    ensures DecodeBody(QuoteBody(s) + [QuoteMark] + tail) == Some((Clean(s), tail))
  {
    hide Unescape, Escape;
    var t := QuoteBody(s) + [QuoteMark] + tail;
    if s == [] {
      assert t[1..] == tail;
    } else {
      var first := Escape(s);
      var s' := s[DecodeRune(s).1..];
      var t' := QuoteBody(s') + [QuoteMark] + tail;
      BodyBack(s', tail);
      RuneBack(s, t');
      assert t == first + t';
      assert t[|first|..] == t';
      assert Clean(s) == CleanRune(s) + Clean(s');
    }
  }

  /** Decoding what the writer wrote gives the input back, with each ill-formed byte replaced by U+FFFD. */
  lemma QuoteRoundTrip(s: Bytes, tail: Bytes)
    ensures DecodeString(Quote(s) + tail) == Some((Clean(s), tail))
  {
    hide QuoteBody, DecodeBody, Clean;
    BodyBack(s, tail);
    assert (Quote(s) + tail)[1..] == QuoteBody(s) + [QuoteMark] + tail;
  }

  /** The round trip is exact if and only if the input is well-formed. */
  lemma ExactRoundTrip(s: Bytes)
    ensures DecodeString(Quote(s)) == Some((s, [])) <==> WellFormed(s)
  {
    QuoteRoundTrip(s, []);
    assert Quote(s) + [] == Quote(s);
    CleanFixesWellFormed(s);
  }

  /** On well-formed input the writer is injective. */
  lemma QuoteInjective(a: Bytes, b: Bytes)
    requires WellFormed(a) && WellFormed(b)
    ensures Quote(a) == Quote(b) <==> a == b
  {
    ExactRoundTrip(a);
    ExactRoundTrip(b);
  }

  /** Nothing in a quoted string is a control character, hence a line break, or can be taken for HTML: <, > or &. */
  lemma {:induction false} NoControls(s: Bytes)
    ensures forall k :: 0 <= k < |QuoteBody(s)| ==> QuoteBody(s)[k] >= 0x20 && QuoteBody(s)[k] !in {0x3C, 0x3E, 0x26}
  {
    if s != [] {
      NoControls(s[DecodeRune(s).1..]);
    }
  }

  /** The bytes of U+2028 or U+2029 at place k. */
  predicate SeparatorAt(t: Bytes, k: nat) {
    k + 2 < |t| && t[k] == 0xE2 && t[k + 1] == 0x80 && (t[k + 2] == 0xA8 || t[k + 2] == 0xA9)
  }

  lemma EscapeLead(s: Bytes, k: nat)
    requires s != [] && k < |Escape(s)| && Escape(s)[k] == 0xE2
    ensures k == 0 && |Escape(s)| == 3 && !SeparatorAt(Escape(s), 0)
  {
  }

  /** Nor does a line or paragraph separator stand in it, which JavaScript takes for a line break. */
  lemma {:induction false} NoSeparators(s: Bytes, k: nat)
    ensures !SeparatorAt(QuoteBody(s), k)
  {
    if s != [] && SeparatorAt(QuoteBody(s), k) {
      var e, rest := Escape(s), s[DecodeRune(s).1..];
      if k < |e| {
        EscapeLead(s, k);
      } else {
        NoSeparators(rest, k - |e|);
      }
    }
  }

  /** ASCII but for control characters, quotation mark, backslash and <, >, &. */
  predicate AllPlain(s: Bytes) {
    forall k :: 0 <= k < |s| ==> 0x20 <= s[k] < 0x80 && s[k] !in {0x22, 0x5C, 0x3C, 0x3E, 0x26}
  }

  lemma PlainFirst(s: Bytes)
    requires s != [] && Plain(s[0])
    ensures DecodeRune(s).1 == 1 && Size(s) == 1 && Escape(s) == [s[0]]
  {
  }

  /** What needs no escape is written as it is. */
  lemma {:induction false} PlainStays(s: Bytes)
    requires AllPlain(s)
    ensures Quote(s) == [0x22] + s + [0x22] && QuoteBody(s) == s && Clean(s) == s
  {
    hide DecodeRune, Size, Escape;
    if s != [] {
      PlainStays(s[1..]);
      PlainFirst(s);
      assert s == [s[0]] + s[1..] && s[..1] == [s[0]];
    }
  }
}
