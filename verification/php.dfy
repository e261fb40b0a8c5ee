/** The few PHP value semantics the plugin's decisions depend on: `empty()`,
    truthiness of a string, and `trim()` with its default character set. */
module Php {

  /** `empty($s)` for a string: only "" and "0" are empty. */
  predicate Empty(s: string)
  {
    s == "" || s == "0"
  }

  /** `if ($s)` for a string: the negation of `empty($s)`. */
  predicate Truthy(s: string)
  {
    !Empty(s)
  }

  /** The characters `trim()` strips when no character list is given:
      space, tab, newline, carriage return, NUL and vertical tab. */
  predicate IsTrimChar(c: char)
  {
    c == ' ' || c == '\t' || c == '\n' || c == '\r' || c == '\0' || c == '\U{B}'
  }

  /** Every character of `s` is one that `trim()` strips. */
  predicate Blank(s: string)
  {
    forall k :: 0 <= k < |s| ==> IsTrimChar(s[k])
  }

  /** `ltrim()`: the longest suffix of `s` that does not start with a trim character. */
  function TrimStart(s: string): (r: string)
    ensures |r| <= |s| && r == s[|s| - |r|..]
    ensures r == [] || !IsTrimChar(r[0])
    ensures forall k :: 0 <= k < |s| - |r| ==> IsTrimChar(s[k])
  {
    if s != [] && IsTrimChar(s[0]) then TrimStart(s[1..]) else s
  }

  /** `rtrim()`: the longest prefix of `s` that does not end with a trim character. */
  function TrimEnd(s: string): (r: string)
    ensures |r| <= |s| && r == s[..|r|]
    ensures r == [] || !IsTrimChar(r[|r| - 1])
    ensures forall k :: |r| <= k < |s| ==> IsTrimChar(s[k])
  {
    if s != [] && IsTrimChar(s[|s| - 1]) then TrimEnd(s[..|s| - 1]) else s
  }

  /** `trim()`: strip trim characters from both ends. */
  function Trim(s: string): string
  {
    TrimEnd(TrimStart(s))
  }

  /** `trim($s) === ''` holds exactly when every character of `s` is a trim
      character; in particular a whitespace-only string trims to "". */
  lemma TrimEmptyIffBlank(s: string)
    ensures Trim(s) == "" <==> Blank(s)
  {
  }
}
