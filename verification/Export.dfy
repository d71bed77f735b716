/** The JSONL export: one object a line, written with the fast string writer. */
module Export {
  import opened Basics
  import opened Utf8
  import opened JsonString

  const Newline: Byte := 0x0A
  const Comma: Byte := 0x2C
  const Colon: Byte := 0x3A
  const OpenBrace: Byte := 0x7B
  const CloseBrace: Byte := 0x7D

  datatype ExportRow = ExportRow(
    host: Bytes, catalogSourceURL: Bytes, verificationStatus: Bytes, urn: Bytes, urnPublisher: Bytes,
    displayName: Bytes, mediaType: Bytes, refURL: Bytes, description: Bytes, version: Bytes,
    source: Bytes, tags: Bytes, representativeQueries: Bytes)

  datatype Field = Field(key: Bytes, val: Bytes)

  /** The bytes of an ASCII text. */
  function Ascii(s: string): Bytes {
    seq(|s|, i requires 0 <= i < |s| => s[i] as int % 0x80)
  }

  function Key(i: nat): string
    requires i < 13
  {
    match i
    case 0 => "host"
    case 1 => "catalog_source_url"
    case 2 => "verification_status"
    case 3 => "urn"
    case 4 => "urn_publisher"
    case 5 => "display_name"
    case 6 => "media_type"
    case 7 => "ref_url"
    case 8 => "description"
    case 9 => "version"
    case 10 => "source"
    case 11 => "tags"
    case 12 => "representative_queries"
  }

  function Value(r: ExportRow, i: nat): Bytes
    requires i < 13
  {
    match i
    case 0 => r.host
    case 1 => r.catalogSourceURL
    case 2 => r.verificationStatus
    case 3 => r.urn
    case 4 => r.urnPublisher
    case 5 => r.displayName
    case 6 => r.mediaType
    case 7 => r.refURL
    case 8 => r.description
    case 9 => r.version
    case 10 => r.source
    case 11 => r.tags
    case 12 => r.representativeQueries
  }

  function Fields(r: ExportRow): (fs: seq<Field>)
    ensures |fs| == 13 && forall i :: 0 <= i < 13 ==> fs[i] == Field(Ascii(Key(i)), Value(r, i))
  {
    seq(13, i requires 0 <= i < 13 => Field(Ascii(Key(i)), Value(r, i)))
  }

  // -- The text of a row -----------------------------------------------------------------

  function FieldText(f: Field): Bytes {
    [QuoteMark] + f.key + [QuoteMark, Colon] + Quote(f.val)
  }

  function Members(fs: seq<Field>): Bytes {
    if fs == [] then []
    else FieldText(fs[0]) + if |fs| == 1 then [] else [Comma] + Members(fs[1..])
  }

  /** Without the line break. */
  function ObjectText(fs: seq<Field>): Bytes { [OpenBrace] + Members(fs) + [CloseBrace] }

  lemma {:induction false} MembersSnoc(fs: seq<Field>, f: Field)
    requires fs != []
    ensures Members(fs + [f]) == Members(fs) + [Comma] + FieldText(f)
  {
    hide FieldText;
    var first, rest := FieldText(fs[0]), fs[1..];
    assert (fs + [f])[1..] == rest + [f];
    if |fs| == 1 {
      assert rest + [f] == [f];
      assert Members([f]) == FieldText(f);
    } else {
      MembersSnoc(rest, f);
      assert first + ([Comma] + (Members(rest) + [Comma] + FieldText(f))) == first + ([Comma] + Members(rest)) + [Comma] + FieldText(f);
    }
  }

  // -- Writing -----------------------------------------------------------------------------

  method AppendField(b: Bytes, key: Bytes, val: Bytes, comma: bool) returns (r: Bytes)
    ensures r == b + (if comma then [Comma] else []) + FieldText(Field(key, val))
  {
    hide Quote;
    r := b;
    if comma {
      r := r + [Comma];
    }
    ghost var begun := r;
    r := r + [QuoteMark];
    r := r + key;
    r := r + [QuoteMark, Colon];
    ghost var named := [QuoteMark] + key + [QuoteMark, Colon];
    assert r == begun + named;
    r := AppendJSONString(r, val);
    assert begun + named + Quote(val) == begun + (named + Quote(val));
  }

  /** The row up to its k-th field. */
  function RowSoFar(b: Bytes, fs: seq<Field>, k: nat): Bytes
    requires k <= |fs|
  {
    b + [OpenBrace] + Members(fs[..k])
  }

  lemma NextField(b: Bytes, fs: seq<Field>, k: nat)
    requires 0 < k < |fs|
    ensures RowSoFar(b, fs, k) + [Comma] + FieldText(fs[k]) == RowSoFar(b, fs, k + 1)
  {
    hide Members, FieldText;
    assert fs[..k] + [fs[k]] == fs[..k + 1];
    MembersSnoc(fs[..k], fs[k]);
    var head := b + [OpenBrace];
    assert head + Members(fs[..k]) + [Comma] + FieldText(fs[k]) == head + (Members(fs[..k]) + [Comma] + FieldText(fs[k]));
  }

  lemma FirstField(b: Bytes, fs: seq<Field>)
    requires fs != []
    ensures b + [OpenBrace] + [] + FieldText(fs[0]) == RowSoFar(b, fs, 1)
  {
    hide FieldText;
    assert fs[..1] == [fs[0]] && Members([fs[0]]) == FieldText(fs[0]);
  }

  lemma LastField(b: Bytes, fs: seq<Field>)
    ensures RowSoFar(b, fs, |fs|) + [CloseBrace, Newline] == b + (ObjectText(fs) + [Newline])
  {
    hide Members;
    assert fs[..|fs|] == fs;
  }

  /** AppendField for the k-th of fs. */
  method AppendNext(r: Bytes, key: string, val: Bytes, ghost b: Bytes, ghost fs: seq<Field>, ghost k: nat) returns (r': Bytes)
    requires 0 < k < |fs| && fs[k] == Field(Ascii(key), val) && r == RowSoFar(b, fs, k)
    ensures r' == RowSoFar(b, fs, k + 1)
  {
    hide RowSoFar, FieldText;
    NextField(b, fs, k);
    r' := AppendField(r, Ascii(key), val, true);
  }

  method AppendRowJSON(b: Bytes, row: ExportRow) returns (r: Bytes)
    ensures r == b + (ObjectText(Fields(row)) + [Newline])
  {
    hide RowSoFar, ObjectText, FieldText, Ascii, Key, Fields;
    ghost var fs := Fields(row);
    FirstField(b, fs);
    r := b + [OpenBrace];
    r := AppendField(r, Ascii(Key(0)), row.host, false);
    r := AppendNext(r, Key(1), row.catalogSourceURL, b, fs, 1);
    r := AppendNext(r, Key(2), row.verificationStatus, b, fs, 2);
    r := AppendNext(r, Key(3), row.urn, b, fs, 3);
    r := AppendNext(r, Key(4), row.urnPublisher, b, fs, 4);
    r := AppendNext(r, Key(5), row.displayName, b, fs, 5);
    r := AppendNext(r, Key(6), row.mediaType, b, fs, 6);
    r := AppendNext(r, Key(7), row.refURL, b, fs, 7);
    r := AppendNext(r, Key(8), row.description, b, fs, 8);
    r := AppendNext(r, Key(9), row.version, b, fs, 9);
    r := AppendNext(r, Key(10), row.source, b, fs, 10);
    r := AppendNext(r, Key(11), row.tags, b, fs, 11);
    r := AppendNext(r, Key(12), row.representativeQueries, b, fs, 12);
    LastField(b, fs);
    r := r + [CloseBrace, Newline];
  }

  // -- Reading back ------------------------------------------------------------------------

  /** The members of an object of strings, without white space, from behind a brace or a comma. */
  function DecodeMembers(t: Bytes): Option<(seq<Field>, Bytes)>
    decreases |t|
  {
    match DecodeString(t)
    case None => None
    case Some((key, t1)) =>
      if t1 == [] || t1[0] != Colon then None
      else
        match DecodeString(t1[1..])
        case None => None
        case Some((val, t2)) =>
          if t2 == [] then None
          else if t2[0] == CloseBrace then Some(([Field(key, val)], t2[1..]))
          else if t2[0] != Comma then None
          else
            match DecodeMembers(t2[1..])
            case None => None
            case Some((more, rest)) => Some(([Field(key, val)] + more, rest))
  }

  function DecodeObject(t: Bytes): Option<(seq<Field>, Bytes)> {
    if t == [] || t[0] != OpenBrace then None
    else if |t| > 1 && t[1] == CloseBrace then Some(([], t[2..]))
    else DecodeMembers(t[1..])
  }

  predicate PlainKeys(fs: seq<Field>) { forall k :: 0 <= k < |fs| ==> AllPlain(fs[k].key) }

  function CleanFields(fs: seq<Field>): (r: seq<Field>)
    ensures |r| == |fs|
  {
    seq(|fs|, i requires 0 <= i < |fs| => Field(fs[i].key, Clean(fs[i].val)))
  }

  lemma FieldBack(f: Field, tail: Bytes)
    requires AllPlain(f.key)
    ensures DecodeString(FieldText(f) + tail) == Some((f.key, [Colon] + Quote(f.val) + tail))
    ensures DecodeString(([Colon] + Quote(f.val) + tail)[1..]) == Some((Clean(f.val), tail))
  {
    hide Clean, QuoteBody, DecodeString;
    PlainStays(f.key);
    var t := [Colon] + Quote(f.val) + tail;
    assert FieldText(f) + tail == Quote(f.key) + t;
    QuoteRoundTrip(f.key, t);
    assert t[1..] == Quote(f.val) + tail;
    QuoteRoundTrip(f.val, tail);
  }

  /** One member behind a brace or a comma. */
  lemma DecodeNext(t: Bytes, key: Bytes, t1: Bytes, val: Bytes, t2: Bytes)
    requires DecodeString(t) == Some((key, t1)) && t1 != [] && t1[0] == Colon
    requires DecodeString(t1[1..]) == Some((val, t2)) && t2 != []
    ensures t2[0] == CloseBrace ==> DecodeMembers(t) == Some(([Field(key, val)], t2[1..]))
    ensures t2[0] == Comma && DecodeMembers(t2[1..]).Some? ==>
      var (more, rest) := DecodeMembers(t2[1..]).value; DecodeMembers(t) == Some(([Field(key, val)] + more, rest))
  {
    hide DecodeString;
  }

  /** What stands behind the first member. */
  function Behind(fs: seq<Field>, tail: Bytes): Bytes
    requires fs != []
  {
    if |fs| == 1 then [CloseBrace] + tail else [Comma] + (Members(fs[1..]) + [CloseBrace] + tail)
  }

  lemma MembersSplit(fs: seq<Field>, tail: Bytes)
    requires fs != []
    ensures Members(fs) + [CloseBrace] + tail == FieldText(fs[0]) + Behind(fs, tail)
  {
    MembersUnfold(fs);
    hide Members, FieldText;
    var f := FieldText(fs[0]);
    if |fs| == 1 {
      assert f + [CloseBrace] + tail == f + ([CloseBrace] + tail);
    } else {
      Regroup(f, Comma, Members(fs[1..]), CloseBrace, tail);
    }
  }

  lemma MembersUnfold(fs: seq<Field>)
    requires fs != []
    ensures |fs| == 1 ==> Members(fs) == FieldText(fs[0])
    ensures |fs| > 1 ==> Members(fs) == FieldText(fs[0]) + ([Comma] + Members(fs[1..]))
  {
    hide FieldText;
  }

  lemma Regroup(a: Bytes, x: Byte, b: Bytes, y: Byte, c: Bytes)
    ensures a + ([x] + b) + [y] + c == a + ([x] + (b + [y] + c))
  {
  }

  lemma BehindIs(fs: seq<Field>, tail: Bytes)
    requires fs != []
    ensures var rest := Behind(fs, tail);
      && rest != [] && rest[0] == (if |fs| == 1 then CloseBrace else Comma)
      && rest[1..] == if |fs| == 1 then tail else Members(fs[1..]) + [CloseBrace] + tail
  {
    hide Members;
  }

  lemma CleanSplit(fs: seq<Field>)
    requires fs != []
    ensures |fs| == 1 ==> CleanFields(fs) == [Field(fs[0].key, Clean(fs[0].val))]
    ensures |fs| > 1 ==> CleanFields(fs) == [Field(fs[0].key, Clean(fs[0].val))] + CleanFields(fs[1..])
  {
    hide Clean;
  }

  lemma {:induction false} MembersBack(fs: seq<Field>, tail: Bytes)
    requires fs != [] && PlainKeys(fs)
    ensures DecodeMembers(Members(fs) + [CloseBrace] + tail) == Some((CleanFields(fs), tail))
  {
    var f, rest := fs[0], Behind(fs, tail);
    var t1 := [Colon] + Quote(f.val) + rest;
    MembersSplit(fs, tail);
    BehindIs(fs, tail);
    CleanSplit(fs);
    assert |fs| > 1 ==> PlainKeys(fs[1..]);
    assert AllPlain(f.key);
    hide *;
    FieldBack(f, rest);
    assert t1 != [] && t1[0] == Colon;
    DecodeNext(Members(fs) + [CloseBrace] + tail, f.key, t1, Clean(f.val), rest);
    if |fs| > 1 {
      MembersBack(fs[1..], tail);
    }
  }

  lemma FirstByte(fs: seq<Field>)
    requires fs != []
    ensures Members(fs) != [] && Members(fs)[0] == QuoteMark
  {
  }

  lemma ObjectBack(fs: seq<Field>, tail: Bytes)
    requires fs != [] && PlainKeys(fs)
    ensures DecodeObject(ObjectText(fs) + tail) == Some((CleanFields(fs), tail))
  {
    hide DecodeMembers, Members;
    var t := ObjectText(fs) + tail;
    FirstByte(fs);
    assert t[1] == Members(fs)[0];
    assert t[1..] == Members(fs) + [CloseBrace] + tail;
    MembersBack(fs, tail);
  }

  // -- Lines ----------------------------------------------------------------------------------

  predicate NoNewline(t: Bytes) { forall k :: 0 <= k < |t| ==> t[k] != Newline }

  /** The lines of a text; what follows the last line break is a line if it is not empty. */
  function Lines(t: Bytes, line: Bytes := []): seq<Bytes>
    decreases |t|
  {
    if t == [] then (if line == [] then [] else [line])
    else if t[0] == Newline then [line] + Lines(t[1..])
    else Lines(t[1..], line + [t[0]])
  }

  lemma {:induction false} FirstLine(text: Bytes, rest: Bytes, line: Bytes)
    requires NoNewline(text)
    ensures Lines(text + [Newline] + rest, line) == [line + text] + Lines(rest)
    decreases |text|
  {
    var t := text + [Newline] + rest;
    if text == [] {
      assert t[1..] == rest && line + text == line;
    } else {
      assert t[1..] == text[1..] + [Newline] + rest;
      FirstLine(text[1..], rest, line + [text[0]]);
      assert line + [text[0]] + text[1..] == line + text;
    }
  }

  lemma {:induction false} MembersOneLine(fs: seq<Field>)
    requires PlainKeys(fs)
    ensures NoNewline(Members(fs))
  {
    if fs != [] {
      NoControls(fs[0].val);
      assert AllPlain(fs[0].key);
      assert NoNewline(FieldText(fs[0]));
      MembersOneLine(fs[1..]);
    }
  }

  lemma AsciiIs(s: string, i: nat)
    requires i < |s| && s[i] as int < 0x80
    ensures |Ascii(s)| == |s| && Ascii(s)[i] == s[i] as int
  {
  }

  predicate KeyChar(c: char) { 'a' <= c <= 'z' || c == '_' }

  predicate Lowercase(s: string) { forall k :: 0 <= k < |s| ==> KeyChar(s[k]) }

  lemma KeyPlain(key: string)
    requires Lowercase(key)
    ensures AllPlain(Ascii(key))
  {
    forall k | 0 <= k < |key| ensures Plain(Ascii(key)[k]) {
      assert KeyChar(key[k]);
      AsciiIs(key, k);
    }
  }

  lemma KeysLowercase(i: nat)
    requires i < 13
    ensures Lowercase(Key(i))
  {
    match i
    case 0 => assert Lowercase("host");
    case 1 => assert Lowercase("catalog_source_url");
    case 2 => assert Lowercase("verification_status");
    case 3 => assert Lowercase("urn");
    case 4 => assert Lowercase("urn_publisher");
    case 5 => assert Lowercase("display_name");
    case 6 => assert Lowercase("media_type");
    case 7 => assert Lowercase("ref_url");
    case 8 => assert Lowercase("description");
    case 9 => assert Lowercase("version");
    case 10 => assert Lowercase("source");
    case 11 => assert Lowercase("tags");
    case 12 => assert Lowercase("representative_queries");
  }

  lemma KeysPlain(row: ExportRow)
    ensures PlainKeys(Fields(row))
  {
    hide Key, Lowercase, AllPlain, Ascii, Fields;
    forall i | 0 <= i < 13 ensures AllPlain(Fields(row)[i].key) {
      KeysLowercase(i);
      KeyPlain(Key(i));
    }
  }

  /** The only line break of a row's text is its last byte. */
  lemma RowIsOneLine(row: ExportRow)
    ensures NoNewline(ObjectText(Fields(row)))
  {
    hide Members;
    KeysPlain(row);
    MembersOneLine(Fields(row));
  }

  // -- The export -----------------------------------------------------------------------------

  function Exported(rows: seq<ExportRow>): Bytes {
    if rows == [] then [] else ObjectText(Fields(rows[0])) + [Newline] + Exported(rows[1..])
  }

  lemma {:induction false} ExportedSnoc(rows: seq<ExportRow>, row: ExportRow)
    ensures Exported(rows + [row]) == Exported(rows) + (ObjectText(Fields(row)) + [Newline])
  {
    hide ObjectText;
    if rows == [] {
      assert rows + [row] == [row];
    } else {
      assert (rows + [row])[1..] == rows[1..] + [row];
      ExportedSnoc(rows[1..], row);
    }
  }

  /** The row loop of Export for JSONL over the rows the query yields. */
  method ExportJsonl(rows: seq<ExportRow>) returns (out: Bytes, n: nat)
    ensures out == Exported(rows)
    ensures n == |rows|
  {
    hide ObjectText, Exported;
    out, n := [], 0;
    assert rows[..0] == [];
    ExportedNothing();
    while n < |rows|
      invariant n <= |rows| && out == Exported(rows[..n])
    {
      var scratch := AppendRowJSON([], rows[n]);
      ExportedSnoc(rows[..n], rows[n]);
      assert rows[..n] + [rows[n]] == rows[..n + 1];
      assert [] + (ObjectText(Fields(rows[n])) + [Newline]) == ObjectText(Fields(rows[n])) + [Newline];
      out := out + scratch;
      n := n + 1;
    }
    assert rows[..n] == rows;
  }

  lemma ExportedNothing()
    ensures Exported([]) == []
  {
  }

  lemma ColumnsOf(row: ExportRow)
    ensures CleanFields(Fields(row)) == [
        Field(Ascii("host"), Clean(row.host)),
        Field(Ascii("catalog_source_url"), Clean(row.catalogSourceURL)),
        Field(Ascii("verification_status"), Clean(row.verificationStatus)),
        Field(Ascii("urn"), Clean(row.urn)),
        Field(Ascii("urn_publisher"), Clean(row.urnPublisher)),
        Field(Ascii("display_name"), Clean(row.displayName)),
        Field(Ascii("media_type"), Clean(row.mediaType)),
        Field(Ascii("ref_url"), Clean(row.refURL)),
        Field(Ascii("description"), Clean(row.description)),
        Field(Ascii("version"), Clean(row.version)),
        Field(Ascii("source"), Clean(row.source)),
        Field(Ascii("tags"), Clean(row.tags)),
        Field(Ascii("representative_queries"), Clean(row.representativeQueries))
      ]
  {
    hide Clean, Ascii;
  }

  /**
   Splitting the export into lines and decoding each gives the rows back, in
   order: every column under its own key, every ill-formed byte replaced by U+FFFD.
   */
  lemma ExportRoundTrip(rows: seq<ExportRow>, i: nat)
    requires i < |rows|
    ensures |Lines(Exported(rows))| == |rows|
    ensures var row := rows[i];
      DecodeObject(Lines(Exported(rows))[i]) == Some(([
        Field(Ascii("host"), Clean(row.host)),
        Field(Ascii("catalog_source_url"), Clean(row.catalogSourceURL)),
        Field(Ascii("verification_status"), Clean(row.verificationStatus)),
        Field(Ascii("urn"), Clean(row.urn)),
        Field(Ascii("urn_publisher"), Clean(row.urnPublisher)),
        Field(Ascii("display_name"), Clean(row.displayName)),
        Field(Ascii("media_type"), Clean(row.mediaType)),
        Field(Ascii("ref_url"), Clean(row.refURL)),
        Field(Ascii("description"), Clean(row.description)),
        Field(Ascii("version"), Clean(row.version)),
        Field(Ascii("source"), Clean(row.source)),
        Field(Ascii("tags"), Clean(row.tags)),
        Field(Ascii("representative_queries"), Clean(row.representativeQueries))
      ], []))
  {
    LinesOfExport(rows);
    KeysPlain(rows[i]);
    ObjectBack(Fields(rows[i]), []);
    ColumnsOf(rows[i]);
    hide *;
    assert ObjectText(Fields(rows[i])) + [] == ObjectText(Fields(rows[i]));
  }

  lemma {:induction false} LinesOfExport(rows: seq<ExportRow>)
    ensures |Lines(Exported(rows))| == |rows|
    ensures forall i :: 0 <= i < |rows| ==> Lines(Exported(rows))[i] == ObjectText(Fields(rows[i]))
  {
    hide ObjectText;
    if rows != [] {
      RowIsOneLine(rows[0]);
      FirstLine(ObjectText(Fields(rows[0])), Exported(rows[1..]), []);
      assert [] + ObjectText(Fields(rows[0])) == ObjectText(Fields(rows[0]));
      LinesOfExport(rows[1..]);
    }
  }
}
