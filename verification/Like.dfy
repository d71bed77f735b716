/** LIKE patterns of internal/jsonout/search.go under SQL's semantics with ESCAPE '!'. */
module Like {
  /** SQL LIKE: % is any run, _ any one character, ! takes the next character as it is. */
  predicate Matches(pattern: string, s: string)
    decreases |pattern| + |s|
  {
    if pattern == "" then s == ""
    else
      match pattern[0]
      case '%' => Matches(pattern[1..], s) || (s != "" && Matches(pattern, s[1..]))
      case '_' => s != "" && Matches(pattern[1..], s[1..])
      case '!' => |pattern| > 1 && s != "" && s[0] == pattern[1] && Matches(pattern[2..], s[1..])
      case c => s != "" && s[0] == c && Matches(pattern[1..], s[1..])
  }

  function EscapeChar(c: char): string {
    if c == '!' || c == '%' || c == '_' then ['!', c] else [c]
  }

  /** The replacer: one pass, each of ! % _ preceded by !. */
  function Escaped(s: string): string {
    if s == "" then "" else EscapeChar(s[0]) + Escaped(s[1..])
  }

  function LikeContains(lower: string -> string, value: string): string {
    "%" + Escaped(lower(value)) + "%"
  }

  predicate Contains(s: string, part: string) {
    exists i :: 0 <= i <= |s| && part <= s[i..]
  }

  lemma {:induction false} OpenEnd(s: string)
    ensures Matches("%", s)
  {
    if s != "" {
      OpenEnd(s[1..]);
    } else {
      assert Matches("%"[1..], s);
    }
  }

  /** Behind escaped text only the text itself matches. */
  lemma {:induction false} EscapedMatches(v: string, s: string)
    ensures Matches(Escaped(v) + "%", s) <==> v <= s
  {
    if v == "" {
      assert Escaped(v) + "%" == "%";
      OpenEnd(s);
    } else {
      var rest := Escaped(v[1..]) + "%";
      var pattern := Escaped(v) + "%";
      assert pattern == EscapeChar(v[0]) + rest;
      assert pattern[|EscapeChar(v[0])|..] == rest;
      if s != "" {
        EscapedMatches(v[1..], s[1..]);
        PrefixStep(v, s);
      }
    }
  }

  lemma PrefixStep(v: string, s: string)
    requires v != "" && s != ""
    ensures v <= s <==> v[0] == s[0] && v[1..] <= s[1..]
  {
    if v[0] == s[0] && v[1..] <= s[1..] {
      assert v == [v[0]] + v[1..] && s == [s[0]] + s[1..];
    }
  }

  lemma {:induction false} AnywhereMatches(v: string, s: string)
    ensures Matches("%" + Escaped(v) + "%", s) <==> Contains(s, v)
    decreases |s|
  {
    var pattern := "%" + Escaped(v) + "%";
    assert pattern[1..] == Escaped(v) + "%";
    EscapedMatches(v, s);
    assert s[0..] == s;
    if s == "" {
      EmptyContains(v);
    } else {
      AnywhereMatches(v, s[1..]);
      ContainsStep(s, v);
    }
  }

  lemma EmptyContains(v: string)
    ensures Contains("", v) <==> v == ""
  {
    assert v == "" ==> v <= ""[0..];
  }

  lemma ContainsStep(s: string, v: string)
    requires s != ""
    ensures Contains(s, v) <==> v <= s || Contains(s[1..], v)
  {
    if Contains(s, v) && !(v <= s) {
      var i :| 0 <= i <= |s| && v <= s[i..];
      assert s[0..] == s;
      assert s[i..] == s[1..][i - 1..];
    }
    if v <= s {
      assert v <= s[0..];
    }
    if Contains(s[1..], v) {
      var i :| 0 <= i <= |s[1..]| && v <= s[1..][i..];
      assert s[1..][i..] == s[i + 1..];
    }
  }

  /** Escaping preserves meaning: the pattern matches exactly the texts that contain the lower-cased value. */
  lemma LikeMeansContains(lower: string -> string, value: string, s: string)
    ensures Matches(LikeContains(lower, value), s) <==> Contains(s, lower(value))
  {
    AnywhereMatches(lower(value), s);
  }
}
