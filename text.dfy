/**
 * The program's two string helpers. The console front end calls `isNumber`
 * to decide whether a line it read is a numeric id or count. `toUpperStr`
 * upper-cases a whole string; the program defines it but never calls it,
 * and upper-cases single characters with `toupper` instead. Both helpers use
 * the "C" locale classifications `isdigit` and `toupper`.
 */
module Text {

  /** `isdigit` in the "C" locale. */
  predicate IsDigit(c: char) {
    '0' <= c <= '9'
  }

  /** Every character of `s` is a decimal digit (true of the empty string). */
  predicate AllDigits(s: string) {
    forall i :: 0 <= i < |s| ==> IsDigit(s[i])
  }

  /** `toupper` in the "C" locale: the 26 lower-case letters map to upper case,
      every other character maps to itself. */
  function ToUpper(c: char): (u: char)
    ensures !('a' <= u <= 'z')
    ensures !('a' <= c <= 'z') ==> u == c
    ensures 'a' <= c <= 'z' ==> 'A' <= u <= 'Z' && u as int + 32 == c as int
  {
    if 'a' <= c <= 'z' then (c as int - 32) as char else c
  }

  /** The upper-cased copy of `s`, character by character. */
  function UpperCased(s: string): string {
    seq(|s|, i requires 0 <= i < |s| => ToUpper(s[i]))
  }

  /** Upper-casing twice is upper-casing once. */
  lemma UpperCasedIdempotent(s: string)
    ensures UpperCased(UpperCased(s)) == UpperCased(s)
  {
  }

  /** `isNumber` of the later variant: the empty line is not a number, any other
      line is one exactly when all of its characters are digits. */
  method IsNumber(s: string) returns (b: bool)
    ensures b <==> |s| > 0 && AllDigits(s)
  {
    if |s| == 0 {
      return false;
    }
    var i := 0;
    while i < |s|
      invariant 0 <= i <= |s|
      invariant forall j :: 0 <= j < i ==> IsDigit(s[j])
    {
      if !IsDigit(s[i]) {
        return false;
      }
      i := i + 1;
    }
    return true;
  }

  /** `isNumber` of the earlier variant: it has no empty-line test, so the
      empty line counts as a number. */
  method IsNumberAcceptingEmpty(s: string) returns (b: bool)
    ensures b <==> AllDigits(s)
    ensures |s| == 0 ==> b
  {
    var i := 0;
    while i < |s|
      invariant 0 <= i <= |s|
      invariant forall j :: 0 <= j < i ==> IsDigit(s[j])
    {
      if !IsDigit(s[i]) {
        return false;
      }
      i := i + 1;
    }
    return true;
  }

  /** `toUpperStr`: upper-cases a local copy of `s` in place, one index at a time. */
  method ToUpperStr(s: string) returns (r: string)
    ensures |r| == |s|
    ensures forall i :: 0 <= i < |s| ==> r[i] == ToUpper(s[i])
    ensures r == UpperCased(s)
  {
    r := s;
    var i := 0;
    while i < |s|
      invariant 0 <= i <= |s| && |r| == |s|
      invariant forall j :: 0 <= j < i ==> r[j] == ToUpper(s[j])
      invariant forall j :: i <= j < |s| ==> r[j] == s[j]
    {
      r := r[i := ToUpper(r[i])];
      i := i + 1;
    }
  }
}
