/** The seven case generators `shouldPass`, `shouldFailSpecialChars`,
    `shouldFailIllegalChars`, `shouldFailNumber`, `shouldFailUpper`,
    `shouldFailLower` and `shouldFailLength`, as one generator driven by a
    per-category recipe. Every random draw (`rand.Intn` results and the swap
    draws of `rand.Shuffle`) is an input; `DrawsFit` states the ranges
    `rand.Intn` guarantees. */
module Generator {
  import opened Charset
  import opened Policy
  import Shuffle

  datatype Option<T> = None | Some(value: T)

  /** The seven test categories, one per generator. */
  datatype Category =
    | AllValid             // shouldPass
    | MissingUpper         // shouldFailUpper
    | MissingLower         // shouldFailLower
    | MissingDigit         // shouldFailNumber
    | MissingLegalSpecial  // shouldFailSpecialChars
    | HasIllegalChars      // shouldFailIllegalChars
    | TooShort             // shouldFailLength

  /** One scored case, the `testResults` record sent on the channel. */
  datatype TestResult = TestResult(expected: bool, actual: bool, password: string)

  /** The verdict every generator attaches to its cases. */
  function Expected(cat: Category): bool {
    cat == AllValid
  }

  /** How a generator builds the run of one class: the count is
      `rand.Intn(bound) + offset`; when `drawn`, that many characters are
      drawn and appended one by one, otherwise `""` is appended that many
      times, so the class is left out. */
  datatype RunRecipe = RunRecipe(bound: nat, offset: nat, drawn: bool)

  /** The class a "missing class" generator leaves out. */
  predicate Omits(cat: Category, cls: CharClass) {
    || (cat == MissingUpper && cls == Upper)
    || (cat == MissingLower && cls == Lower)
    || (cat == MissingDigit && cls == Digit)
    || (cat == MissingLegalSpecial && cls == LegalSpecial)
  }

  /** The recipe of each generator for each class; `None` when the generator
      builds no run for that class at all (illegal characters outside
      `shouldFailIllegalChars`). */
  function Recipe(cat: Category, cls: CharClass): Option<RunRecipe> {
    if cat == HasIllegalChars then
      if cls == IllegalSpecial then Some(RunRecipe(25, 1, true)) else Some(RunRecipe(25, 0, true))
    else if cls == IllegalSpecial then None
    else Some(RunRecipe(if cls == Digit then 25 else 23, 2, !Omits(cat, cls)))
  }

  /** The generator draws characters of class `cls`. */
  predicate Produces(cat: Category, cls: CharClass) {
    Recipe(cat, cls).Some? && Recipe(cat, cls).value.drawn
  }

  /** Number of characters each class table offers to `rand.Intn`. */
  function ClassSize(cls: CharClass): nat {
    match cls
    case Upper => 26
    case Lower => 26
    case Digit => 10
    case LegalSpecial => |LegalChars|
    case IllegalSpecial => |IllegalChars|
  }

  /** The character a draw `k` stands for: `rune(k + 65)`, `rune(k + 97)`,
      `strconv.Itoa(k)`, `legalChars[k]` or `illegalChars[k]`. */
  function ClassChar(cls: CharClass, k: nat): (c: char)
    requires k < ClassSize(cls)
    ensures InClass(cls, c)
  {
    match cls
    case Upper => (65 + k) as char
    case Lower => (97 + k) as char
    case Digit => ('0' as int + k) as char
    case LegalSpecial => LegalChars[k]
    case IllegalSpecial => IllegalChars[k]
  }

  /** Every character of a class can be drawn. */
  lemma ClassCharCovers(cls: CharClass, c: char)
    requires InClass(cls, c)
    ensures exists k: nat :: k < ClassSize(cls) && ClassChar(cls, k) == c
  {
    match cls
    case Upper => assert ClassChar(cls, c as int - 65) == c;
    case Lower => assert ClassChar(cls, c as int - 97) == c;
    case Digit => assert ClassChar(cls, c as int - '0' as int) == c;
    case LegalSpecial =>
      LegalTableMatchesPattern(c);
      var k :| 0 <= k < |LegalChars| && LegalChars[k] == c;
      assert ClassChar(cls, k) == c;
    case IllegalSpecial =>
      var k :| 0 <= k < |IllegalChars| && IllegalChars[k] == c;
      assert ClassChar(cls, k) == c;
  }

  predicate PicksFit(cls: CharClass, picks: seq<nat>) {
    forall k :: 0 <= k < |picks| ==> picks[k] < ClassSize(cls)
  }

  /** The characters the draws `picks` spell, in draw order. */
  function Spell(cls: CharClass, picks: seq<nat>): (s: string)
    requires PicksFit(cls, picks)
    ensures |s| == |picks|
    ensures forall i :: 0 <= i < |s| ==> InClass(cls, s[i])
  {
    if picks == [] then []
    else Spell(cls, picks[..|picks| - 1]) + [ClassChar(cls, picks[|picks| - 1])]
  }

  /** `strings.Join(parts, "")`. */
  function Join(parts: seq<string>): string {
    if parts == [] then [] else Join(parts[..|parts| - 1]) + parts[|parts| - 1]
  }

  lemma JoinAppend(parts: seq<string>, p: string)
    ensures Join(parts + [p]) == Join(parts) + p
  {
    assert (parts + [p])[..|parts|] == parts;
  }

  lemma SpellAppend(cls: CharClass, picks: seq<nat>, i: nat)
    requires PicksFit(cls, picks) && i < |picks|
    ensures Spell(cls, picks[..i + 1]) == Spell(cls, picks[..i]) + [ClassChar(cls, picks[i])]
  {
    assert picks[..i + 1][..i] == picks[..i];
  }

  lemma {:induction false} JoinEmpties(parts: seq<string>)
    requires forall k :: 0 <= k < |parts| ==> parts[k] == ""
    ensures Join(parts) == ""
  {
    if parts != [] {
      JoinEmpties(parts[..|parts| - 1]);
    }
  }

  /** The draws of one class run: the count draw and the character draws. */
  datatype RunDraws = RunDraws(count: nat, picks: seq<nat>)

  /** All draws of one generated case. `cut` is the draw of
      `rand.Intn(7)`, used by `shouldFailLength` only. */
  datatype Draws = Draws(legal: RunDraws, illegal: RunDraws, lower: RunDraws, upper: RunDraws,
                         digits: RunDraws, swaps: seq<nat>, cut: nat)

  function DrawsOf(d: Draws, cls: CharClass): RunDraws {
    match cls
    case LegalSpecial => d.legal
    case IllegalSpecial => d.illegal
    case Lower => d.lower
    case Upper => d.upper
    case Digit => d.digits
  }

  /** Length of the run `make([]string, n)` is sized with: the count. */
  function RunLength(cat: Category, cls: CharClass, rd: RunDraws): nat {
    match Recipe(cat, cls)
    case None => 0
    case Some(r) => rd.count + r.offset
  }

  /** The draws of one run are ones `rand.Intn` can return. */
  predicate RunFits(cat: Category, cls: CharClass, rd: RunDraws) {
    match Recipe(cat, cls)
    case None => rd.picks == []
    case Some(r) =>
      && rd.count < r.bound
      && |rd.picks| == (if r.drawn then rd.count + r.offset else 0)
      && PicksFit(cls, rd.picks)
  }

  predicate RunsFit(cat: Category, d: Draws) {
    forall cls :: RunFits(cat, cls, DrawsOf(d, cls))
  }

  /** The joined run of one class. */
  function RunText(cat: Category, cls: CharClass, rd: RunDraws): (s: string)
    requires RunFits(cat, cls, rd)
    ensures |s| == if Produces(cat, cls) then RunLength(cat, cls, rd) else 0
    ensures forall i :: 0 <= i < |s| ==> InClass(cls, s[i])
  {
    if Produces(cat, cls) then Spell(cls, rd.picks) else []
  }

  function RunOf(cat: Category, d: Draws, cls: CharClass): string
    requires RunsFit(cat, d)
  {
    assert RunFits(cat, cls, DrawsOf(d, cls));
    RunText(cat, cls, DrawsOf(d, cls))
  }

  /** The password before shuffling: legal specials, illegal characters,
      lower case, upper case, digits, in that order. */
  function Unshuffled(cat: Category, d: Draws): string
    requires RunsFit(cat, d)
  {
    RunOf(cat, d, LegalSpecial) + RunOf(cat, d, IllegalSpecial) + RunOf(cat, d, Lower) +
    RunOf(cat, d, Upper) + RunOf(cat, d, Digit)
  }

  /** All draws of a case are in the ranges the generator's calls return. */
  predicate DrawsFit(cat: Category, d: Draws) {
    && RunsFit(cat, d)
    && Shuffle.DrawsFit(|Unshuffled(cat, d)|, d.swaps)
    && (cat == TooShort ==> d.cut < 7)
  }

  /** Every present class has at least two characters, so the four runs of
      `shouldFailLength` give at least eight, and the cut `[:cut + 1]` is in
      range. */
  lemma TooShortCutInBounds(d: Draws)
    requires DrawsFit(TooShort, d)
    ensures |Shuffle.Shuffled(Unshuffled(TooShort, d), d.swaps)| >= MinLength > d.cut
  {
    PresentRunHasTwo(TooShort, d, LegalSpecial);
    PresentRunHasTwo(TooShort, d, Lower);
    PresentRunHasTwo(TooShort, d, Upper);
    PresentRunHasTwo(TooShort, d, Digit);
  }

  /** The generated password: the runs joined, shuffled, and for
      `shouldFailLength` cut to `rand.Intn(7) + 1` characters. */
  function Password(cat: Category, d: Draws): string
    requires DrawsFit(cat, d)
  {
    var s := Shuffle.Shuffled(Unshuffled(cat, d), d.swaps);
    if cat == TooShort then
      TooShortCutInBounds(d);
      s[..d.cut + 1]
    else s
  }

  /** The case a generator sends for the draws `d`. */
  function Case(cat: Category, d: Draws): TestResult
    requires DrawsFit(cat, d)
  {
    TestResult(Expected(cat), RunRegexp(Password(cat, d)), Password(cat, d))
  }

  /** A run: `run := make([]string, n)`, then `n` appends of one drawn
      character each, or of `""` when the class is left out. The slice ends
      up with `2 n` strings, the first `n` of them empty. */
  method BuildRun(cls: CharClass, n: nat, drawn: bool, picks: seq<nat>) returns (run: seq<string>)
    requires drawn ==> |picks| == n && PicksFit(cls, picks)
    ensures |run| == 2 * n
    ensures forall k :: 0 <= k < n ==> run[k] == ""
    ensures Join(run) == if drawn then Spell(cls, picks) else []
  {
    run := seq(n, _ => "");
    JoinEmpties(run);
    var i := 0;
    while i < n
      invariant 0 <= i <= n
      invariant RunSoFar(cls, n, drawn, picks, run, i)
    {
      var piece := if drawn then [ClassChar(cls, picks[i])] else "";
      RunStep(cls, n, drawn, picks, run, i);
      run := run + [piece];
      i := i + 1;
    }
    assert drawn ==> picks[..n] == picks;
  }

  /** The loop invariant of `BuildRun` after `i` appends. */
  predicate RunSoFar(cls: CharClass, n: nat, drawn: bool, picks: seq<nat>, run: seq<string>, i: nat)
    requires drawn ==> |picks| == n && PicksFit(cls, picks)
    requires i <= n
  {
    && |run| == n + i
    && (forall k :: 0 <= k < n ==> run[k] == "")
    && (drawn ==> Join(run) == Spell(cls, picks[..i]))
    && (!drawn ==> Join(run) == [])
  }

  lemma RunStep(cls: CharClass, n: nat, drawn: bool, picks: seq<nat>, run: seq<string>, i: nat)
    requires drawn ==> |picks| == n && PicksFit(cls, picks)
    requires i < n && RunSoFar(cls, n, drawn, picks, run, i)
    ensures RunSoFar(cls, n, drawn, picks, run + [if drawn then [ClassChar(cls, picks[i])] else ""], i + 1)
  {
    var piece := if drawn then [ClassChar(cls, picks[i])] else "";
    JoinAppend(run, piece);
    if drawn {
      SpellAppend(cls, picks, i);
    }
    assert forall k :: 0 <= k < n ==> (run + [piece])[k] == run[k];
  }

  /** The run of one class as the generator `cat` builds it; no slice at
      all when its recipe has none. */
  method BuildClass(cat: Category, cls: CharClass, rd: RunDraws) returns (run: seq<string>)
    requires RunFits(cat, cls, rd)
    ensures Join(run) == RunText(cat, cls, rd)
  {
    match Recipe(cat, cls)
    case None =>
      run := [];
    case Some(r) =>
      run := BuildRun(cls, rd.count + r.offset, r.drawn, rd.picks);
  }

  /** The runs built and joined in the generators' order. */
  method BuildPassword(cat: Category, d: Draws) returns (generatedPassword: string)
    requires RunsFit(cat, d)
    ensures generatedPassword == Unshuffled(cat, d)
  {
    assert RunFits(cat, LegalSpecial, d.legal) && RunFits(cat, IllegalSpecial, d.illegal) &&
           RunFits(cat, Lower, d.lower) && RunFits(cat, Upper, d.upper) && RunFits(cat, Digit, d.digits) by {
      assert DrawsOf(d, LegalSpecial) == d.legal && DrawsOf(d, IllegalSpecial) == d.illegal &&
             DrawsOf(d, Lower) == d.lower && DrawsOf(d, Upper) == d.upper && DrawsOf(d, Digit) == d.digits;
    }
    var legalSpecialChars := BuildClass(cat, LegalSpecial, d.legal);
    var illegalSpecialChars := BuildClass(cat, IllegalSpecial, d.illegal);
    var lowerChars := BuildClass(cat, Lower, d.lower);
    var upperChars := BuildClass(cat, Upper, d.upper);
    var nums := BuildClass(cat, Digit, d.digits);
    generatedPassword := Join(legalSpecialChars) + Join(illegalSpecialChars) +
                         Join(lowerChars) + Join(upperChars) + Join(nums);
  }

  /** One iteration of a generator's loop: build the runs, join them, shuffle
      the runes in place, cut for `shouldFailLength`, and score the password. */
  method Generate(cat: Category, d: Draws) returns (result: TestResult)
    requires DrawsFit(cat, d)
    ensures result == Case(cat, d)
    ensures result.actual == result.expected
  {
    var generatedPassword := BuildPassword(cat, d);
    var shuff := new char[|generatedPassword|](i requires 0 <= i < |generatedPassword| => generatedPassword[i]);
    assert shuff[..] == generatedPassword;
    Shuffle.ShuffleInPlace(shuff, d.swaps);
    generatedPassword := shuff[..];

    if cat == TooShort {
      TooShortCutInBounds(d);
      generatedPassword := generatedPassword[..d.cut + 1];
    }
    assert generatedPassword == Password(cat, d);
    VerdictMatchesExpected(cat, d);
    result := TestResult(Expected(cat), RunRegexp(generatedPassword), generatedPassword);
  }

  // ---------------------------------------------------------------------
  // What each generator guarantees about its passwords

  lemma InRunIsOfClass(cat: Category, d: Draws, cls: CharClass, c: char)
    requires RunsFit(cat, d) && c in RunOf(cat, d, cls)
    ensures Produces(cat, cls) && InClass(cls, c)
  {
    var i :| 0 <= i < |RunOf(cat, d, cls)| && RunOf(cat, d, cls)[i] == c;
  }

  /** Every character of the unshuffled password comes from a class the
      generator draws. */
  lemma CharOrigin(cat: Category, d: Draws, c: char)
    requires RunsFit(cat, d) && c in Unshuffled(cat, d)
    ensures exists cls :: Produces(cat, cls) && InClass(cls, c)
  {
    if c in RunOf(cat, d, LegalSpecial) {
      InRunIsOfClass(cat, d, LegalSpecial, c);
    } else if c in RunOf(cat, d, IllegalSpecial) {
      InRunIsOfClass(cat, d, IllegalSpecial, c);
    } else if c in RunOf(cat, d, Lower) {
      InRunIsOfClass(cat, d, Lower, c);
    } else if c in RunOf(cat, d, Upper) {
      InRunIsOfClass(cat, d, Upper, c);
    } else {
      InRunIsOfClass(cat, d, Digit, c);
    }
  }

  /** A class the generator draws, with a positive count, shows up in the
      unshuffled password. */
  lemma CharPresent(cat: Category, d: Draws, cls: CharClass)
    requires RunsFit(cat, d) && Produces(cat, cls) && RunLength(cat, cls, DrawsOf(d, cls)) > 0
    ensures exists c :: c in Unshuffled(cat, d) && InClass(cls, c)
  {
    assert RunFits(cat, cls, DrawsOf(d, cls));
    var c := RunOf(cat, d, cls)[0];
    assert c in RunOf(cat, d, cls);
    assert c in Unshuffled(cat, d);
  }

  /** Shuffling keeps the characters; only `shouldFailLength` drops some. */
  lemma PasswordChars(cat: Category, d: Draws)
    requires DrawsFit(cat, d) && cat != TooShort
    ensures multiset(Password(cat, d)) == multiset(Unshuffled(cat, d))
  {
    Shuffle.ShufflePermutes(Unshuffled(cat, d), d.swaps);
  }

  lemma ContainsChar(s: string, cls: CharClass, c: char)
    requires c in s && InClass(cls, c)
    ensures Contains(s, cls)
  {
    var i :| 0 <= i < |s| && s[i] == c;
  }

  /** `shouldPass`: every class has 2 or more characters and all of them
      are legal, so the password conforms to the policy. */
  lemma ShouldPassConforms(d: Draws)
    requires DrawsFit(AllValid, d)
    ensures Conforms(Password(AllValid, d))
    ensures RunRegexp(Password(AllValid, d))
  {
    var s := Unshuffled(AllValid, d);
    forall i | 0 <= i < |s| ensures IsAllowed(s[i]) {
      assert s[i] in s;
      CharOrigin(AllValid, d, s[i]);
      AllowedIsRequiredClass(s[i]);
    }
    forall cls | cls != IllegalSpecial ensures Contains(s, cls) {
      assert RunFits(AllValid, cls, DrawsOf(d, cls));
      CharPresent(AllValid, d, cls);
      var c :| c in s && InClass(cls, c);
      ContainsChar(s, cls, c);
    }
    PresentRunHasTwo(AllValid, d, LegalSpecial);
    PresentRunHasTwo(AllValid, d, Lower);
    PresentRunHasTwo(AllValid, d, Upper);
    PresentRunHasTwo(AllValid, d, Digit);
    assert Conforms(s);
    PasswordChars(AllValid, d);
    VerdictDependsOnlyOnMultiset(s, Password(AllValid, d));
  }

  /** Outside `shouldFailIllegalChars` every class the generator draws has
      at least two characters. */
  lemma PresentRunHasTwo(cat: Category, d: Draws, cls: CharClass)
    requires RunsFit(cat, d) && cat != HasIllegalChars && Produces(cat, cls)
    ensures |RunOf(cat, d, cls)| >= 2
  {
    assert RunFits(cat, cls, DrawsOf(d, cls));
  }

  /** A "missing class" generator's password has no character of the class
      it leaves out. */
  lemma OmittedClassAbsent(cat: Category, cls: CharClass, d: Draws)
    requires DrawsFit(cat, d) && Omits(cat, cls)
    ensures !Contains(Password(cat, d), cls)
    ensures !RunRegexp(Password(cat, d))
  {
    var p := Password(cat, d);
    PasswordChars(cat, d);
    forall i | 0 <= i < |p| ensures !InClass(cls, p[i]) {
      assert p[i] in multiset(Unshuffled(cat, d));
      OmittedNotDrawn(cat, cls, d, p[i]);
    }
  }

  lemma OmittedNotDrawn(cat: Category, cls: CharClass, d: Draws, c: char)
    requires RunsFit(cat, d) && Omits(cat, cls) && c in Unshuffled(cat, d)
    ensures !InClass(cls, c)
  {
    CharOrigin(cat, d, c);
    var other :| Produces(cat, other) && InClass(other, c);
    assert other != cls;
    ClassesDisjoint(other, cls, c);
  }

  /** `shouldFailUpper` never produces an upper-case letter. */
  lemma ShouldFailUpperRejected(d: Draws)
    requires DrawsFit(MissingUpper, d)
    ensures !Contains(Password(MissingUpper, d), Upper)
    ensures !RunRegexp(Password(MissingUpper, d))
  {
    OmittedClassAbsent(MissingUpper, Upper, d);
  }

  /** `shouldFailLower` never produces a lower-case letter. */
  lemma ShouldFailLowerRejected(d: Draws)
    requires DrawsFit(MissingLower, d)
    ensures !Contains(Password(MissingLower, d), Lower)
    ensures !RunRegexp(Password(MissingLower, d))
  {
    OmittedClassAbsent(MissingLower, Lower, d);
  }

  /** `shouldFailNumber` never produces a digit. */
  lemma ShouldFailNumberRejected(d: Draws)
    requires DrawsFit(MissingDigit, d)
    ensures !Contains(Password(MissingDigit, d), Digit)
    ensures !RunRegexp(Password(MissingDigit, d))
  {
    OmittedClassAbsent(MissingDigit, Digit, d);
  }

  /** `shouldFailSpecialChars` never produces a legal special character. */
  lemma ShouldFailSpecialCharsRejected(d: Draws)
    requires DrawsFit(MissingLegalSpecial, d)
    ensures !Contains(Password(MissingLegalSpecial, d), LegalSpecial)
    ensures !RunRegexp(Password(MissingLegalSpecial, d))
  {
    OmittedClassAbsent(MissingLegalSpecial, LegalSpecial, d);
  }

  /** `shouldFailIllegalChars` always produces at least one illegal
      character, whatever the other counts are, so the password fails. */
  lemma ShouldFailIllegalCharsRejected(d: Draws)
    requires DrawsFit(HasIllegalChars, d)
    ensures Contains(Password(HasIllegalChars, d), IllegalSpecial)
    ensures !RunRegexp(Password(HasIllegalChars, d))
  {
    var p := Password(HasIllegalChars, d);
    assert RunFits(HasIllegalChars, IllegalSpecial, DrawsOf(d, IllegalSpecial));
    CharPresent(HasIllegalChars, d, IllegalSpecial);
    var c :| c in Unshuffled(HasIllegalChars, d) && InClass(IllegalSpecial, c);
    PasswordChars(HasIllegalChars, d);
    assert c in multiset(p);
    var i :| 0 <= i < |p| && p[i] == c;
    ContainsChar(p, IllegalSpecial, c);
    IllegalCharsNotAllowed(c);
    ForbiddenCharRejects(p, i);
  }

  /** `shouldFailLength` cuts the password to 1..7 characters, so it fails. */
  lemma ShouldFailLengthRejected(d: Draws)
    requires DrawsFit(TooShort, d)
    ensures 1 <= |Password(TooShort, d)| < MinLength
    ensures !RunRegexp(Password(TooShort, d))
  {
    TooShortCutInBounds(d);
  }

  /** Every generator's expected verdict is the policy's verdict. */
  lemma VerdictMatchesExpected(cat: Category, d: Draws)
    requires DrawsFit(cat, d)
    ensures RunRegexp(Password(cat, d)) == Expected(cat)
  {
    match cat
    case AllValid => ShouldPassConforms(d);
    case MissingUpper => ShouldFailUpperRejected(d);
    case MissingLower => ShouldFailLowerRejected(d);
    case MissingDigit => ShouldFailNumberRejected(d);
    case MissingLegalSpecial => ShouldFailSpecialCharsRejected(d);
    case HasIllegalChars => ShouldFailIllegalCharsRejected(d);
    case TooShort => ShouldFailLengthRejected(d);
  }
}
