/**
 * Identifiers of playgrounds, beepers and obstacles (Foundation's UUID).
 * A UUID's `uuidString` is 36 characters: hexadecimal digits in upper case
 * with hyphens at positions 8, 13, 18 and 23. Parsing a string back into a
 * UUID accepts hexadecimal digits of either case.
 */
module Uuid {
  import opened Wrappers

  predicate IsHexDigit(ch: char) {
    '0' <= ch <= '9' || 'a' <= ch <= 'f' || 'A' <= ch <= 'F'
  }

  predicate IsHyphenPosition(i: int) {
    i == 8 || i == 13 || i == 18 || i == 23
  }

  /** The strings that `UUID(uuidString:)` accepts. */
  predicate WellFormed(s: string) {
    |s| == 36 &&
    forall i :: 0 <= i < |s| ==> if IsHyphenPosition(i) then s[i] == '-' else IsHexDigit(s[i])
  }

  predicate IsLowerHexLetter(ch: char) {
    'a' <= ch <= 'f'
  }

  /** The strings that `uuidString` produces. */
  predicate Canonical(s: string) {
    WellFormed(s) && forall i :: 0 <= i < |s| ==> !IsLowerHexLetter(s[i])
  }

  type UuidString = s: string | Canonical(s)
    witness seq(36, i => if IsHyphenPosition(i) then '-' else '0')

  /** A UUID, identified by its canonical text. */
  datatype Id = Id(uuidString: UuidString)

  function UpperChar(ch: char): (r: char)
    ensures IsHexDigit(ch) <==> IsHexDigit(r)
    ensures !IsLowerHexLetter(r)
    ensures r == '-' <==> ch == '-'
  {
    if IsLowerHexLetter(ch) then (ch as int - 32) as char else ch
  }

  /** Upper-cases the hexadecimal letters of `s`. */
  function Upper(s: string): (r: string)
    ensures |r| == |s|
    ensures forall i :: 0 <= i < |s| ==> r[i] == UpperChar(s[i])
    ensures WellFormed(s) ==> Canonical(r)
  {
    seq(|s|, i requires 0 <= i < |s| => UpperChar(s[i]))
  }

  /** `UUID(uuidString: s)`: nil unless `s` is well formed; accepts either case. */
  function Parse(s: string): (r: Option<Id>)
    ensures r.Some? <==> WellFormed(s)
  {
    if WellFormed(s) then Some(Id(Upper(s))) else None
  }

  /** Upper-casing leaves a canonical string as it is. */
  lemma CanonicalUpper(s: string)
    requires Canonical(s)
    ensures Upper(s) == s
  {
    assert forall i :: 0 <= i < |s| ==> Upper(s)[i] == s[i];
  }

  /** Printing a UUID and parsing the text gives back the same UUID. */
  lemma ParseUuidString(id: Id)
    ensures Parse(id.uuidString) == Some(id)
  {
    CanonicalUpper(id.uuidString);
  }

  /** Two texts that agree character by character up to the case of their hex letters parse alike. */
  lemma ParseIgnoresCase(s: string, t: string)
    requires WellFormed(s) && |t| == |s|
    requires forall i :: 0 <= i < |s| ==> UpperChar(s[i]) == UpperChar(t[i])
    ensures Parse(s) == Parse(t)
  {
    forall i | 0 <= i < |t|
      ensures if IsHyphenPosition(i) then t[i] == '-' else IsHexDigit(t[i])
    {
      assert UpperChar(s[i]) == UpperChar(t[i]);
    }
    assert WellFormed(t);
    assert Upper(s) == Upper(t);
  }
}
