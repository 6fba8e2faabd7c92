/** The two string helpers of get_coordinates.py: the file-name sanitiser and
    the single-quote escape applied to an area name before it is put into
    the coordinates query. */
module Filenames {
  import opened Common

  /** The characters `[^\w\s-]` does not remove. */
  predicate Allowed(c: char) {
    IsWordChar(c) || IsSpace(c) || c == '-'
  }

  /** `re.sub(r'[^\w\s-]', '', name)`: every other character is dropped. */
  function RemoveDisallowed(s: string): (r: string)
    ensures |r| <= |s|
    ensures forall i :: 0 <= i < |r| ==> Allowed(r[i])
    ensures (forall i :: 0 <= i < |s| ==> Allowed(s[i])) ==> r == s
    decreases |s|
  {
    if s == [] then []
    else if Allowed(s[0]) then [s[0]] + RemoveDisallowed(s[1..])
    else RemoveDisallowed(s[1..])
  }

  /** Nothing allowed is lost: each allowed character occurs in the result as
      often as in the input. */
  lemma {:induction false} RemoveKeepsAllowed(s: string, c: char)
    requires Allowed(c)
    ensures multiset(RemoveDisallowed(s))[c] == multiset(s)[c]
    decreases |s|
  {
    if s != [] {
      RemoveKeepsAllowed(s[1..], c);
      assert s == [s[0]] + s[1..];
    }
  }

  /** On a single character the pattern is a filter: an allowed character is
      kept, any other one is dropped. */
  lemma RemoveCharacter(c: char)
    ensures RemoveDisallowed([c]) == if Allowed(c) then [c] else []
  {
    assert [c][1..] == [];
  }

  /** `.replace(' ', '_')`: no space is left, nothing is added or removed,
      and a name without spaces is unchanged. */
  function ReplaceSpaces(s: string): (r: string)
    ensures |r| == |s|
    ensures forall i :: 0 <= i < |r| ==> r[i] != ' '
    ensures (forall i :: 0 <= i < |s| ==> s[i] != ' ') ==> r == s
  {
    seq(|s|, i requires 0 <= i < |s| => if s[i] == ' ' then '_' else s[i])
  }

  /** `sanitize_filename`: never longer than the name, and a name made of
      letters, digits, '_' and '-' only is kept as it is. */
  function SanitizeFilename(name: string): (r: string)
    ensures |r| <= |name|
    ensures (forall i :: 0 <= i < |name| ==> IsWordChar(name[i]) || name[i] == '-') ==> r == name
  {
    ReplaceSpaces(RemoveDisallowed(name))
  }

  /** The sanitised name holds no space; every character left is a word
      character, a '-', or a whitespace character other than ' ' (a tab or a
      newline survives). */
  lemma SanitizedCharacters(name: string)
    ensures forall i :: 0 <= i < |SanitizeFilename(name)| ==>
      var c := SanitizeFilename(name)[i];
      c != ' ' && (IsWordChar(c) || c == '-' || (IsSpace(c) && c != ' '))
  {
    assert IsWordChar('_');
  }

  /** What the sanitiser does to one character: a character outside
      `[\w\s-]` is dropped, a space becomes '_', and any other character is
      kept. With `SanitizeAppend` this fixes the result for every name. */
  lemma SanitizeCharacter(c: char)
    ensures SanitizeFilename([c]) == if !Allowed(c) then [] else if c == ' ' then "_" else [c]
  {
    RemoveCharacter(c);
  }

  /** Sanitising twice is sanitising once. */
  lemma SanitizeIdempotent(name: string)
    ensures SanitizeFilename(SanitizeFilename(name)) == SanitizeFilename(name)
  {
    var r := SanitizeFilename(name);
    SanitizedCharacters(name);
    assert forall i :: 0 <= i < |r| ==> Allowed(r[i]);
    assert RemoveDisallowed(r) == r;
  }

  /** The sanitiser works character by character: it distributes over
      concatenation. */
  lemma SanitizeAppend(a: string, b: string)
    ensures SanitizeFilename(a + b) == SanitizeFilename(a) + SanitizeFilename(b)
  {
    RemoveAppend(a, b);
  }

  lemma {:induction false} RemoveAppend(a: string, b: string)
    ensures RemoveDisallowed(a + b) == RemoveDisallowed(a) + RemoveDisallowed(b)
    decreases |a|
  {
    if a == [] {
      assert a + b == b;
    } else {
      assert (a + b)[0] == a[0] && (a + b)[1..] == a[1..] + b;
      RemoveAppend(a[1..], b);
    }
  }

  // ---------------------------------------------------------------------
  // Quote escape

  const Escaped: string := "%27"

  /** `area.replace("'", "%27")`. */
  function EscapeQuotes(s: string): (r: string)
    ensures forall i :: 0 <= i < |r| ==> r[i] != '\''
    ensures (forall i :: 0 <= i < |s| ==> s[i] != '\'') ==> r == s
    decreases |s|
  {
    if s == [] then []
    else if s[0] == '\'' then Escaped + EscapeQuotes(s[1..])
    else [s[0]] + EscapeQuotes(s[1..])
  }

  /** How many single quotes `s` holds. */
  function QuoteCount(s: string): nat
    decreases |s|
  {
    if s == [] then 0 else (if s[0] == '\'' then 1 else 0) + QuoteCount(s[1..])
  }

  /** Every quote grows by two characters. */
  lemma {:induction false} EscapeLength(s: string)
    ensures |EscapeQuotes(s)| == |s| + 2 * QuoteCount(s)
    decreases |s|
  {
    if s != [] {
      EscapeLength(s[1..]);
    }
  }

  /** Reading "%27" back as a quote. */
  function Unescape(s: string): string
    decreases |s|
  {
    if |s| >= 3 && s[..3] == Escaped then "'" + Unescape(s[3..])
    else if s == [] then []
    else [s[0]] + Unescape(s[1..])
  }

  /** The escape loses nothing for a name without '%': reading "%27" back as
      a quote restores it. */
  lemma {:induction false} UnescapeEscape(s: string)
    requires forall i :: 0 <= i < |s| ==> s[i] != '%'
    ensures Unescape(EscapeQuotes(s)) == s
    decreases |s|
  {
    if s != [] {
      UnescapeEscape(s[1..]);
      var e := EscapeQuotes(s);
      if s[0] == '\'' {
        assert e[..3] == Escaped && e[3..] == EscapeQuotes(s[1..]);
      } else {
        assert e[0] == s[0] && e[1..] == EscapeQuotes(s[1..]);
        assert e[0] != '%';
      }
    }
  }
}
