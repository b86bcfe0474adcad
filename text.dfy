/**
 * String helpers shared by the Rust server and the JavaScript client:
 * splitting on one separator character (Rust's `str::split(char)` and
 * JavaScript's `String.prototype.split` with a one-character string),
 * joining, prefix and suffix tests, trimming and ASCII lower-casing.
 */
module Text {
  import opened Wrappers

  /**
   * The pieces of `s` between occurrences of `sep`. As in Rust and
   * JavaScript, the empty string splits into one empty piece, and two
   * adjacent separators give an empty piece between them.
   */
  function Split(s: string, sep: char): (parts: seq<string>)
    ensures |parts| >= 1
  {
    if s == [] then [""]
    else
      var rest := Split(s[1..], sep);
      if s[0] == sep then [""] + rest
      else [[s[0]] + rest[0]] + rest[1..]
  }

  /** The pieces glued together with `sep` between neighbours (Rust's `join`). */
  function Join(parts: seq<string>, sep: char): string
  {
    if |parts| == 0 then ""
    else if |parts| == 1 then parts[0]
    else parts[0] + [sep] + Join(parts[1..], sep)
  }

  predicate StartsWith(s: string, prefix: string) {
    |prefix| <= |s| && s[..|prefix|] == prefix
  }

  predicate EndsWith(s: string, suffix: string) {
    |suffix| <= |s| && s[|s| - |suffix|..] == suffix
  }

  /** Rust's `strip_prefix`: the rest of `s` after `prefix`, if `s` starts with it. */
  function StripPrefix(s: string, prefix: string): (r: Option<string>)
    ensures r.Some? <==> StartsWith(s, prefix)
    ensures r.Some? ==> prefix + r.value == s
  {
    if StartsWith(s, prefix) then
      assert s == s[..|prefix|] + s[|prefix|..];
      Some(s[|prefix|..])
    else None
  }

  lemma StripPrefixOfConcat(prefix: string, rest: string)
    ensures StripPrefix(prefix + rest, prefix) == Some(rest)
  {
    assert (prefix + rest)[..|prefix|] == prefix;
    assert (prefix + rest)[|prefix|..] == rest;
  }

  /** The white-space characters that the model's `Trim` removes (ASCII only). */
  predicate IsWhitespace(c: char) {
    c == ' ' || c == '\t' || c == '\n' || c == '\r' || c == '\U{0B}' || c == '\U{0C}'
  }

  function TrimStart(s: string): (r: string)
    ensures |r| <= |s| && r == s[|s| - |r|..]
    ensures r == [] || !IsWhitespace(r[0])
  {
    if s != [] && IsWhitespace(s[0]) then TrimStart(s[1..]) else s
  }

  function TrimEnd(s: string): (r: string)
    ensures |r| <= |s| && r == s[..|r|]
    ensures r == [] || !IsWhitespace(r[|r| - 1])
  {
    if s != [] && IsWhitespace(s[|s| - 1]) then TrimEnd(s[..|s| - 1]) else s
  }

  /** JavaScript's `trim`, over ASCII white space. */
  function Trim(s: string): string {
    TrimEnd(TrimStart(s))
  }

  lemma TrimNoWhitespace(s: string)
    requires forall i :: 0 <= i < |s| ==> !IsWhitespace(s[i])
    ensures Trim(s) == s
  {
  }

  /** ASCII letters and digits: the characters of the server's random ids (`new_id`). */
  predicate IsAlphanumeric(s: string) {
    forall i :: 0 <= i < |s| ==> ('0' <= s[i] <= '9' || 'a' <= s[i] <= 'z' || 'A' <= s[i] <= 'Z')
  }

  function LowerChar(c: char): char {
    if 'A' <= c <= 'Z' then (c as int + 32) as char else c
  }

  /** Lower-casing of the ASCII letters; every other character is kept. */
  function ToLower(s: string): (r: string)
    ensures |r| == |s|
    ensures forall i :: 0 <= i < |s| ==> r[i] == LowerChar(s[i])
  {
    if s == [] then [] else [LowerChar(s[0])] + ToLower(s[1..])
  }

  /** A string without upper-case ASCII letters is its own lower-case form. */
  lemma LowerWithoutUpper(s: string)
    requires forall i :: 0 <= i < |s| ==> !('A' <= s[i] <= 'Z')
    ensures ToLower(s) == s
  {
    assert forall i :: 0 <= i < |s| ==> ToLower(s)[i] == s[i];
  }

  /** No piece of a split contains the separator. */
  lemma {:induction false} SplitPartsLackSeparator(s: string, sep: char)
    ensures forall p :: p in Split(s, sep) ==> sep !in p
  {
    if s != [] {
      SplitPartsLackSeparator(s[1..], sep);
    }
  }

  /** A string without the separator splits into itself alone. */
  lemma {:induction false} SplitWithoutSeparator(s: string, sep: char)
    requires sep !in s
    ensures Split(s, sep) == [s]
  {
    if s != [] {
      SplitWithoutSeparator(s[1..], sep);
      assert [s[0]] + s[1..] == s;
    }
  }

  /** Splitting `x sep t` gives `x` followed by the pieces of `t`. */
  lemma {:induction false} SplitAfterPiece(x: string, sep: char, t: string)
    requires sep !in x
    ensures Split(x + [sep] + t, sep) == [x] + Split(t, sep)
  {
    var s := x + [sep] + t;
    if x == [] {
      assert s[1..] == t;
    } else {
      assert s[1..] == x[1..] + [sep] + t;
      SplitAfterPiece(x[1..], sep, t);
      assert [x[0]] + x[1..] == x;
    }
  }

  /** Joining separator-free pieces and splitting again gives the pieces back. */
  lemma {:induction false} SplitJoin(parts: seq<string>, sep: char)
    requires |parts| >= 1
    requires forall p :: p in parts ==> sep !in p
    ensures Split(Join(parts, sep), sep) == parts
  {
    if |parts| == 1 {
      SplitWithoutSeparator(parts[0], sep);
    } else {
      SplitJoin(parts[1..], sep);
      SplitAfterPiece(parts[0], sep, Join(parts[1..], sep));
      assert [parts[0]] + parts[1..] == parts;
    }
  }

  /** The three-piece join used by tokens (`format!("{}.{}.{}", ...)`). */
  lemma JoinThree(a: string, b: string, c: string, sep: char)
    ensures Join([a, b, c], sep) == a + [sep] + b + [sep] + c
  {
    assert [a, b, c][1..] == [b, c];
    assert [b, c][1..] == [c];
    assert Join([c], sep) == c;
    assert Join([b, c], sep) == b + [sep] + c;
    assert Join([a, b, c], sep) == a + [sep] + (b + [sep] + c);
  }

  /** A three-piece string with separator-free pieces splits into exactly those pieces. */
  lemma SplitThree(a: string, b: string, c: string, sep: char)
    requires sep !in a && sep !in b && sep !in c
    ensures Split(a + [sep] + b + [sep] + c, sep) == [a, b, c]
  {
    SplitWithoutSeparator(c, sep);
    SplitAfterPiece(b, sep, c);
    var t := b + [sep] + c;
    assert a + [sep] + b + [sep] + c == a + [sep] + t;
    SplitAfterPiece(a, sep, t);
  }
}
