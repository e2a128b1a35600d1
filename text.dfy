/**
 * Text normalisation used by the inventory: Python's `str.strip()` (no
 * arguments) and `str.lower()`, restricted to the ASCII range. Python's
 * versions are Unicode-aware; characters outside ASCII are treated here as
 * neither whitespace nor upper-case letters.
 */
module Text {

  /** The characters `str.isspace()` accepts in the ASCII range:
      tab, line feed, vertical tab, form feed, carriage return (9-13),
      the four information separators (28-31) and the space (32). */
  predicate IsSpace(c: char) {
    9 <= c as int <= 13 || 28 <= c as int <= 32
  }

  /** Drops the leading whitespace: the result is a suffix of `s`, everything
      dropped is whitespace, and the result does not start with whitespace. */
  function TrimStart(s: string): (r: string)
    ensures |r| <= |s| && r == s[|s| - |r|..]
    ensures forall i :: 0 <= i < |s| - |r| ==> IsSpace(s[i])
    ensures r != [] ==> !IsSpace(r[0])
  {
    if s != [] && IsSpace(s[0]) then TrimStart(s[1..]) else s
  }

  /** Drops the trailing whitespace: the result is a prefix of `s`, everything
      dropped is whitespace, and the result does not end with whitespace. */
  function TrimEnd(s: string): (r: string)
    ensures |r| <= |s| && r == s[..|r|]
    ensures forall i :: |r| <= i < |s| ==> IsSpace(s[i])
    ensures r != [] ==> !IsSpace(r[|r| - 1])
  {
    if s != [] && IsSpace(s[|s| - 1]) then TrimEnd(s[..|s| - 1]) else s
  }

  /** `s.strip()`: the part of `s` between a leading and a trailing run of
      whitespace; it is empty exactly when `s` is all whitespace, and
      otherwise it neither starts nor ends with whitespace. */
  function Trim(s: string): (r: string)
    ensures |r| <= |s|
    ensures r == [] <==> forall i :: 0 <= i < |s| ==> IsSpace(s[i])
    ensures r != [] ==> !IsSpace(r[0]) && !IsSpace(r[|r| - 1])
  {
    TrimEnd(TrimStart(s))
  }

  /** The strip is an infix of `s` with only whitespace around it. */
  lemma TrimIsInfix(s: string)
    ensures exists a, b ::
      (0 <= a <= b <= |s| && Trim(s) == s[a..b] &&
       forall i :: 0 <= i < a || b <= i < |s| ==> IsSpace(s[i]))
  {
    var t := TrimStart(s);
    var a := |s| - |t|;
    assert t == s[a..];
    assert Trim(s) == s[a..a + |Trim(s)|];
  }

  /** A string that neither starts nor ends with whitespace is its own strip. */
  lemma TrimOfTrimmed(s: string)
    requires s == [] || (!IsSpace(s[0]) && !IsSpace(s[|s| - 1]))
    ensures Trim(s) == s
  {
  }

  /** Stripping twice is stripping once. */
  lemma TrimIdempotent(s: string)
    ensures Trim(Trim(s)) == Trim(s)
  {
    TrimOfTrimmed(Trim(s));
  }

  /** ASCII `lower()` of one character. */
  function LowerChar(c: char): char {
    if IsUpper(c) then (c as int - 'A' as int + 'a' as int) as char else c
  }

  predicate IsUpper(c: char) {
    'A' <= c <= 'Z'
  }

  /** `s.lower()`, character by character. */
  function Lower(s: string): (r: string)
    ensures |r| == |s|
  {
    seq(|s|, i requires 0 <= i < |s| => LowerChar(s[i]))
  }

  /** Lower-casing turns each upper-case letter into its lower-case letter
      (32 code points further on), keeps every other character where it was,
      leaves no upper-case letter, and so is idempotent. */
  lemma LowerSpec(s: string)
    ensures forall i :: 0 <= i < |s| && IsUpper(s[i]) ==> Lower(s)[i] as int == s[i] as int + 32
    ensures forall i :: 0 <= i < |s| && !IsUpper(s[i]) ==> Lower(s)[i] == s[i]
    ensures forall i :: 0 <= i < |s| ==> !IsUpper(Lower(s)[i])
    ensures Lower(Lower(s)) == Lower(s)
  {
  }

  /** Two characters are equal after lower-casing exactly when they are
      equal, or one is an upper-case letter and the other its lower case. */
  lemma LowerCharEqual(a: char, b: char)
    ensures LowerChar(a) == LowerChar(b) <==>
      a == b || (IsUpper(a) && b as int == a as int + 32) || (IsUpper(b) && a as int == b as int + 32)
  {
  }

  /** Two strings are equal after lower-casing exactly when they have the
      same length and agree character by character up to ASCII case. */
  lemma LowerEqual(s: string, t: string)
    ensures Lower(s) == Lower(t) <==>
      |s| == |t| && forall i :: 0 <= i < |s| ==> LowerChar(s[i]) == LowerChar(t[i])
  {
    assert forall i :: 0 <= i < |s| ==> Lower(s)[i] == LowerChar(s[i]);
    assert forall i :: 0 <= i < |t| ==> Lower(t)[i] == LowerChar(t[i]);
  }
}
