/** The password policy `runRegexp`: five regular-expression searches and an
    emptiness test. The regex engine is not modelled; each compiled pattern is
    replaced by the search it performs on a string of characters. */
module Policy {
  import opened Charset

  /** Minimum password length, the `{8,}` of the whole-password regex. */
  const MinLength: nat := 8

  /** `s` holds at least one character of class `cls`. */
  predicate Contains(s: string, cls: CharClass) {
    exists i :: 0 <= i < |s| && InClass(cls, s[i])
  }

  /** Every character of `s` is alphanumeric or a legal special. */
  predicate AllAllowed(s: string) {
    forall i :: 0 <= i < |s| ==> IsAllowed(s[i])
  }

  /** The policy as a plain statement: non-empty, at least eight characters,
      only legal characters, and at least one upper-case letter, one
      lower-case letter, one digit and one legal special character. */
  predicate Conforms(s: string) {
    && s != []
    && |s| >= MinLength
    && AllAllowed(s)
    && Contains(s, Upper)
    && Contains(s, Lower)
    && Contains(s, Digit)
    && Contains(s, LegalSpecial)
  }

  /** Index of the leftmost character of class `cls` in `s`, or `|s|` when
      there is none: where a one-character class pattern first matches. */
  function FirstInClass(cls: CharClass, s: string): (i: nat)
    ensures i <= |s|
    ensures forall j :: 0 <= j < i ==> !InClass(cls, s[j])
    ensures i < |s| ==> InClass(cls, s[i])
  {
    if s == [] || InClass(cls, s[0]) then 0
    else
      var i := FirstInClass(cls, s[1..]);
      assert forall j :: 1 <= j < i + 1 ==> s[j] == s[1..][j - 1];
      i + 1
  }

  /** `FindString` of a one-character class pattern (`[A-Z]`, `[a-z]`,
      `[0-9]`, `([-_.!$|@%^&*])`): the leftmost matching character as a
      one-character string, or "" when nothing matches. */
  function FindString(cls: CharClass, s: string): (m: string)
    ensures m == [] <==> !Contains(s, cls)
    ensures m != [] ==> |m| == 1 && InClass(cls, m[0]) && m[0] in s
  {
    var i := FirstInClass(cls, s);
    if i < |s| then [s[i]] else []
  }

  /** Length of the longest prefix of `s` made of allowed characters: how far
      the greedy repetition `(...)*` of the whole-password regex gets from
      the start of the string. */
  function AllowedPrefix(s: string): (n: nat)
    ensures n <= |s|
    ensures forall i :: 0 <= i < n ==> IsAllowed(s[i])
    ensures n < |s| ==> !IsAllowed(s[n])
  {
    if s == [] || !IsAllowed(s[0]) then 0
    else
      var n := AllowedPrefix(s[1..]);
      assert forall i :: 1 <= i < n + 1 ==> s[i] == s[1..][i - 1];
      n + 1
  }

  /** `FindString` of the anchored pattern `^(...){8,}$`: the whole string
      when it is at least eight allowed characters, otherwise "". */
  function FindValidPassword(s: string): (m: string)
    ensures m != [] <==> |s| >= MinLength && AllAllowed(s)
    ensures m != [] ==> m == s
  {
    if AllowedPrefix(s) == |s| && |s| >= MinLength then s else []
  }

  /** `runRegexp`: all four class searches and the anchored search find
      something, and the password is not empty. */
  function RunRegexp(passwd: string): (ok: bool)
    ensures ok <==> Conforms(passwd)
  {
    var upperCharCheck := FindString(Upper, passwd) != [];
    var lowerCharCheck := FindString(Lower, passwd) != [];
    var numberCheck := FindString(Digit, passwd) != [];
    var legalSpecialCharCheck := FindString(LegalSpecial, passwd) != [];
    var validPasswordCheck := FindValidPassword(passwd) != [];
    var emptyStringCheck := passwd == [];
    upperCharCheck && lowerCharCheck && numberCheck && legalSpecialCharCheck &&
    validPasswordCheck && !emptyStringCheck
  }

  /** Two strings with the same characters, counted with multiplicity, get
      the same verdict: the policy never looks at positions. */
  lemma {:induction false} VerdictDependsOnlyOnMultiset(s: string, t: string)
    requires multiset(s) == multiset(t)
    ensures RunRegexp(s) == RunRegexp(t)
  {
    if Conforms(s) {
      SameCharsConform(s, t);
    } else if Conforms(t) {
      SameCharsConform(t, s);
    }
  }

  lemma SameCharsConform(s: string, t: string)
    requires multiset(s) == multiset(t)
    requires Conforms(s)
    ensures Conforms(t)
  {
    assert |s| == |multiset(s)| == |multiset(t)| == |t|;
    forall i | 0 <= i < |t| ensures IsAllowed(t[i]) {
      assert t[i] in multiset(s);
      var j :| 0 <= j < |s| && s[j] == t[i];
    }
    forall cls | cls != IllegalSpecial && Contains(s, cls) ensures Contains(t, cls) {
      var i :| 0 <= i < |s| && InClass(cls, s[i]);
      assert s[i] in multiset(t);
      var j :| 0 <= j < |t| && t[j] == s[i];
    }
  }

  /** A character the whole-password regex rejects, anywhere in the string,
      makes the password fail whatever else it holds. */
  lemma {:induction false} ForbiddenCharRejects(s: string, i: nat)
    requires i < |s| && !IsAllowed(s[i])
    ensures !RunRegexp(s)
  {
  }

  /** For a password of allowed characters holding every class, the verdict
      is exactly the length test: fewer than eight characters fail, eight or
      more pass. */
  lemma LengthBoundary(s: string)
    requires AllAllowed(s)
    requires Contains(s, Upper) && Contains(s, Lower) && Contains(s, Digit) && Contains(s, LegalSpecial)
    ensures RunRegexp(s) <==> |s| >= MinLength
  {
  }

  /** `Aa1$Aa1$` meets the policy. */
  lemma SampleConforms()
    ensures Conforms("Aa1$Aa1$")
  {
    var s := "Aa1$Aa1$";
    assert InClass(Upper, s[0]) && InClass(Lower, s[1]) && InClass(Digit, s[2]) &&
           InClass(LegalSpecial, s[3]);
    assert forall i :: 0 <= i < |s| ==> IsAllowed(s[i]);
  }

  /** Instances of `LengthBoundary`: `Aa1$Aa1`, seven characters with every
      class present, fails; `Aa1$Aa1$` passes. */
  lemma LengthBoundaryInstances()
    ensures !RunRegexp("Aa1$Aa1")
    ensures RunRegexp("Aa1$Aa1$")
  {
    assert |"Aa1$Aa1"| < MinLength;
    SampleConforms();
  }

  /** Appending a character the whole-password regex accepts keeps a
      conforming password passing. */
  lemma AppendLegalKeeps(s: string, x: char)
    requires Conforms(s) && IsAllowed(x)
    ensures RunRegexp(s + [x])
  {
    var t := s + [x];
    assert forall i :: 0 <= i < |s| ==> t[i] == s[i];
    assert t[|s|] == x;
    forall cls | cls != IllegalSpecial ensures Contains(t, cls) {
      var i :| 0 <= i < |s| && InClass(cls, s[i]);
      assert InClass(cls, t[i]);
    }
  }

  /** Appending a character the whole-password regex rejects makes any
      password fail. */
  lemma AppendIllegalRejects(s: string, x: char)
    requires !IsAllowed(x)
    ensures !RunRegexp(s + [x])
  {
    ForbiddenCharRejects(s + [x], |s|);
  }

  /** Instances of the two lemmas above: `x` appended to the conforming
      `Aa1$Aa1$` passes, `#` appended fails. */
  lemma SingleIllegalCharacter()
    ensures RunRegexp("Aa1$Aa1$x")
    ensures !RunRegexp("Aa1$Aa1$#")
  {
    var t := "Aa1$Aa1$x";
    assert InClass(Upper, t[0]) && InClass(Lower, t[1]) && InClass(Digit, t[2]) &&
           InClass(LegalSpecial, t[3]);
    assert forall i :: 0 <= i < |t| ==> IsAllowed(t[i]);
    ForbiddenCharRejects("Aa1$Aa1$#", 8);
  }
}
