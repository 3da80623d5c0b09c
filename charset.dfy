/** The character classes the password policy and the case generators talk
    about, and the two fixed character tables of the harness
    (`legalChars` and `illegalChars`). Go strings are modelled as
    `seq<char>`; every character used here is ASCII, so a byte, a rune and a
    Dafny `char` coincide. */
module Charset {

  datatype CharClass = Upper | Lower | Digit | LegalSpecial | IllegalSpecial

  /** The `legalChars` table: the punctuation the policy permits. */
  const LegalChars: seq<char> := ['-', '_', '.', '!', '$', '|', '@', '%', '^', '&', '*']

  /** The `illegalChars` table: punctuation, blank and quotes the policy forbids. */
  const IllegalChars: seq<char> :=
    ['+', '=', '(', ')', '#', '~', '}', '{', '[', ']', '\\', '<', '>', '/', '?', ' ', '"', '\'', '`', ',']

  predicate IsUpper(c: char) { 'A' <= c <= 'Z' }
  predicate IsLower(c: char) { 'a' <= c <= 'z' }
  predicate IsDigit(c: char) { '0' <= c <= '9' }

  /** The bracket expression `[-_.!$|@%^&*]` of the special-character regex;
      the same eleven alternatives close the whole-password regex. */
  predicate IsLegalSpecial(c: char) {
    c == '-' || c == '_' || c == '.' || c == '!' || c == '$' || c == '|' ||
    c == '@' || c == '%' || c == '^' || c == '&' || c == '*'
  }

  /** One repetition of the whole-password regex: `[A-Z]|[a-z]|[0-9]|` one of the specials. */
  predicate IsAllowed(c: char) {
    IsUpper(c) || IsLower(c) || IsDigit(c) || IsLegalSpecial(c)
  }

  predicate InClass(cls: CharClass, c: char) {
    match cls
    case Upper => IsUpper(c)
    case Lower => IsLower(c)
    case Digit => IsDigit(c)
    case LegalSpecial => IsLegalSpecial(c)
    case IllegalSpecial => c in IllegalChars
  }

  /** The table the generators draw the legal specials from is exactly the
      set the policy's regexes accept as specials. */
  lemma LegalTableMatchesPattern(c: char)
    ensures c in LegalChars <==> IsLegalSpecial(c)
  {
  }

  /** The illegal table entry by entry. */
  predicate IsIllegalSpecial(c: char) {
    c == '+' || c == '=' || c == '(' || c == ')' || c == '#' || c == '~' || c == '}' ||
    c == '{' || c == '[' || c == ']' || c == '\\' || c == '<' || c == '>' || c == '/' ||
    c == '?' || c == ' ' || c == '"' || c == '\'' || c == '`' || c == ','
  }

  lemma IllegalTableEntries(c: char)
    requires c in IllegalChars
    ensures IsIllegalSpecial(c)
  {
    var i :| 0 <= i < |IllegalChars| && IllegalChars[i] == c;
  }

  /** No character of the illegal table passes the whole-password regex. */
  lemma IllegalCharsNotAllowed(c: char)
    requires c in IllegalChars
    ensures !IsAllowed(c)
  {
    IllegalTableEntries(c);
    IllegalSpecialNotAllowed(c);
  }

  lemma IllegalSpecialNotAllowed(c: char)
    requires IsIllegalSpecial(c)
    ensures !IsAllowed(c)
  {
  }

  /** The five classes are pairwise disjoint. */
  lemma ClassesDisjoint(a: CharClass, b: CharClass, c: char)
    requires a != b && InClass(a, c)
    ensures !InClass(b, c)
  {
    if a == IllegalSpecial || b == IllegalSpecial {
      if c in IllegalChars {
        IllegalCharsNotAllowed(c);
      }
    }
  }

  /** A character of one of the four required classes is allowed, and an
      allowed character is in one of them. */
  lemma AllowedIsRequiredClass(c: char)
    ensures IsAllowed(c) <==> exists cls :: cls != IllegalSpecial && InClass(cls, c)
  {
    if IsAllowed(c) {
      var cls := if IsUpper(c) then Upper else if IsLower(c) then Lower
                 else if IsDigit(c) then Digit else LegalSpecial;
      assert InClass(cls, c);
    }
  }
}
