/**
 * The parts of java.lang.String and java.util.regex that the license plate
 * handlers use: the `\s` character class, the ASCII letter and digit classes
 * and upper-casing.
 */
module JavaText {

  /** Java's `\s` without UNICODE_CHARACTER_CLASS: `[ \t\n\x0B\f\r]`. */
  predicate IsWhitespace(c: char) {
    c == ' ' || c == '\t' || c == '\n' || c == '\U{000B}' || c == '\U{000C}' || c == '\r'
  }

  /** `[0-9]` */
  predicate IsDigit(c: char) {
    '0' <= c <= '9'
  }

  /** `[A-Z]` */
  predicate IsUpper(c: char) {
    'A' <= c <= 'Z'
  }

  /** `[a-z]` */
  predicate IsLower(c: char) {
    'a' <= c <= 'z'
  }

  /** Upper-cases an ASCII letter and leaves every other character alone. */
  function UpperChar(c: char): char {
    if IsLower(c) then (c as int - 'a' as int + 'A' as int) as char else c
  }

  /** `String.toUpperCase`, restricted to ASCII letters. */
  function ToUpper(s: string): string {
    seq(|s|, i requires 0 <= i < |s| => UpperChar(s[i]))
  }

  predicate NoWhitespace(s: string) {
    forall i :: 0 <= i < |s| ==> !IsWhitespace(s[i])
  }

  predicate NoLower(s: string) {
    forall i :: 0 <= i < |s| ==> !IsLower(s[i])
  }

  predicate NoHyphen(s: string) {
    forall i :: 0 <= i < |s| ==> s[i] != '-'
  }

  /** No `-` is directly followed by another `-`. */
  predicate NoDoubleHyphen(s: string) {
    forall i, j :: 0 <= i < |s| && 0 <= j < |s| && j == i + 1 ==> s[i] != '-' || s[j] != '-'
  }

  /** Upper-casing leaves the classes the handlers look at unchanged, except lower-case letters. */
  lemma UpperCharClasses(c: char)
    ensures !IsLower(UpperChar(c))
    ensures IsWhitespace(UpperChar(c)) == IsWhitespace(c)
    ensures (UpperChar(c) == '-') == (c == '-')
    ensures (UpperChar(c) == ' ') == (c == ' ')
    ensures IsDigit(UpperChar(c)) == IsDigit(c)
    ensures IsUpper(UpperChar(c)) == (IsUpper(c) || IsLower(c))
    ensures !IsLower(c) ==> UpperChar(c) == c
  {
  }

  /** `toUpperCase` is idempotent, keeps whitespace and hyphens where they were and leaves no lower-case letter. */
  lemma ToUpperProperties(s: string)
    ensures |ToUpper(s)| == |s|
    ensures NoLower(ToUpper(s))
    ensures ToUpper(ToUpper(s)) == ToUpper(s)
    ensures NoLower(s) ==> ToUpper(s) == s
    ensures forall i :: 0 <= i < |s| ==>
      IsWhitespace(ToUpper(s)[i]) == IsWhitespace(s[i]) && (ToUpper(s)[i] == '-') == (s[i] == '-')
    ensures NoWhitespace(ToUpper(s)) == NoWhitespace(s)
    ensures NoDoubleHyphen(ToUpper(s)) == NoDoubleHyphen(s)
  {
    var u := ToUpper(s);
    forall i | 0 <= i < |s|
      ensures !IsLower(u[i])
      ensures IsWhitespace(u[i]) == IsWhitespace(s[i])
      ensures (u[i] == '-') == (s[i] == '-')
    {
      UpperCharClasses(s[i]);
    }
  }

  lemma ToUpperIdempotent(s: string)
    ensures ToUpper(ToUpper(s)) == ToUpper(s)
  {
    forall i | 0 <= i < |s| ensures UpperChar(UpperChar(s[i])) == UpperChar(s[i]) {
      UpperCharClasses(s[i]);
    }
  }

  lemma ToUpperCons(c: char, s: string)
    ensures ToUpper([c] + s) == [UpperChar(c)] + ToUpper(s)
  {
  }
}
