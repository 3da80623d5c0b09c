# CredsTester password-policy harness, modelled in Dafny

CredsTester is a command-line harness for one password policy, written in Go
in a single file, `main.go`. The policy needs at least eight characters drawn
only from letters, digits and the eleven legal specials `-_.!$|@%^&*`. It
also needs at least one upper-case letter, one lower-case letter, one digit
and one legal special.

- With `-run-tests`, the program starts up to seven generators. Each builds
  random passwords of one kind, scores them with the policy, and sends the
  results on a channel. A consumer loop writes one CSV record per result to
  `results.csv`. It flushes every 100 000 results and, with `-exit-on-fail`,
  stops at the first result whose verdict differs from the expected one.
- With `-run-evals`, the program reads `results.csv` back and skips the
  header. It counts the records and those whose expected and actual fields
  differ once lower-cased, prints a line for each of those, and exits with
  their number.

The project has seven modules, one file each:

- `charset.dfy` (`Charset`): the character classes and the two character
  tables `legalChars` and `illegalChars`.
- `policy.dfy` (`Policy`): `runRegexp` as the five searches its regular
  expressions perform, proved equal to a plain statement of the policy.
- `shuffle.dfy` (`Shuffle`): `rand.Shuffle` over a rune buffer. It is an
  in-place Fisher-Yates loop on an `array<char>`, proved against a
  sequence-level specification that is a permutation.
- `generator.dfy` (`Generator`): the seven generators as one imperative
  generator driven by a per-category recipe. Every random draw is an input.
  It is proved to give each category the verdict it expects. Outside
  `shouldFailIllegalChars`, the digit run has 2 to 26 characters
  (`rand.Intn(25) + 2`, main.go:149) and each other drawn class has 2 to 24
  (`rand.Intn(23) + 2`).
- `orchestrator.dfy` (`Orchestrator`):
  - which generators `main` starts, and how many results the loop reads;
  - the consumer loop, over a `CsvWriter` class that holds the records
    written and the prefix flushed so far;
  - the fan-in of the generators' results.
- `evaluator.dfy` (`Evaluator`): the `-run-evals` loop, as an imperative
  method proved against a reference function. It includes the
  log.Fatal/panic paths and the pass rate.
- `roundtrip.dfy` (`RoundTrip`): the file `-run-tests` leaves behind, read
  back and evaluated. The records of a completed run evaluate to one row per
  result and one failure per mismatch, and with faithful generators to no
  failure and exit status 0. After an `-exit-on-fail` exit, `os.Exit(1)`
  (main.go:632) skips the final flush (main.go:635), so the explicitly
  flushed records are those up to the last periodic flush (main.go:623-624).
  The failing record is among them only when its index is a multiple of
  100 000. The real file can hold more than these records (see "## Left
  out"), so the model's verdict for the exit case is the verdict on the
  explicitly flushed records only.

Random numbers are inputs, constrained to the ranges `rand.Intn` returns:
`Generator.Draws`, `Generator.DrawsFit` and `Shuffle.DrawsFit`. The order in
which results arrive on the channel is an input sequence. The contents of
`results.csv` is the sequence of values `reader.Read()` returns
(`Evaluator.ReadItem`). Process exits (`os.Exit`, `log.Fatal`, Go runtime
panics) are result values.

## Model

| member | source | states |
|---|---|---|
| Charset.LegalTableMatchesPattern | main.go:41 | a character is in the `legalChars` table exactly when it is one of the specials the policy regexes accept |
| Charset.IllegalCharsNotAllowed | main.go:42 | no character of the `illegalChars` table is accepted by the whole-password regex |
| Charset.ClassesDisjoint | main.go:41-42 | upper, lower, digit, legal special and illegal character are pairwise disjoint classes |
| Charset.AllowedIsRequiredClass | main.go:523 | a character matches one repetition of the whole-password regex exactly when it is in one of the four required classes |
| Policy.FirstInClass | main.go:527-539 | the leftmost index at which a one-character class pattern matches: every earlier character is outside the class, and the character there is in it, or no character is |
| Policy.FindString | main.go:527-539 | a class search returns "" exactly when no character of the class occurs, and otherwise a one-character string of that class taken from the password |
| Policy.AllowedPrefix | main.go:523 | the greedy repetition of the anchored pattern: the longest prefix of allowed characters, stopping at the first character the pattern rejects |
| Policy.FindValidPassword | main.go:523 | the anchored search returns the whole password exactly when it has at least eight characters, all allowed, and "" otherwise |
| Policy.RunRegexp | main.go:46-55 | `runRegexp` is true exactly when the password is non-empty, has at least 8 characters, only allowed ones, and one of each required class |
| Policy.VerdictDependsOnlyOnMultiset | main.go:46-55 | two passwords with the same characters, counted with multiplicity, get the same verdict, so shuffling never changes a verdict |
| Policy.ForbiddenCharRejects | main.go:523 | one disallowed character anywhere makes the password fail |
| Policy.LengthBoundary | main.go:523 | for a password of allowed characters with every required class present, the verdict is exactly the `{8,}` length test |
| Policy.SampleConforms | main.go:523 | `Aa1$Aa1$` meets the policy |
| Policy.LengthBoundaryInstances | main.go:523 | instances of `LengthBoundary`: the 7-character `Aa1$Aa1` fails and the 8-character `Aa1$Aa1$` passes |
| Policy.AppendLegalKeeps | main.go:523 | appending any allowed character to any conforming password keeps it passing |
| Policy.AppendIllegalRejects | main.go:523 | appending any character the whole-password regex rejects makes any password fail |
| Policy.SingleIllegalCharacter | main.go:523 | instances of the two lemmas above: `Aa1$Aa1$x` passes and `Aa1$Aa1$#` fails |
| Shuffle.Steps | main.go:117-121 | definition: the buffer after the first `k` Fisher-Yates steps, step `k` swapping position `n - k` with its draw |
| Shuffle.Shuffled | main.go:117-121 | definition: the buffer after every step of `rand.Shuffle` |
| Shuffle.ShuffleInPlace | main.go:117-121 | the in-place swap loop leaves the buffer equal to the Fisher-Yates specification applied to its old contents |
| Shuffle.ShufflePermutes | main.go:117-121 | the shuffle is a permutation: the multiset of runes is unchanged |
| Generator.Expected | main.go:123-127 | definition: the `expectedResult` each generator attaches, `true` for `shouldPass` only (likewise main.go:186, 248, 308, 367, 427, 488) |
| Generator.Recipe | main.go:80-113 | definition: each generator's count and draw for each class. `shouldFailIllegalChars` draws `rand.Intn(25)` characters of every class and `rand.Intn(25)+1` illegal characters. The other generators draw `rand.Intn(25)+2` digits and `rand.Intn(23)+2` characters of each other class, append "" for the omitted class, and build no illegal run (main.go:149-170, 212-236, 272-293, 331-352, 391-412, 450-471) |
| Generator.ClassChar | main.go:83-113 | each draw stands for a character of its class (`rune(k+65)`, `rune(k+97)`, `strconv.Itoa(k)`, a table entry) |
| Generator.ClassCharCovers | main.go:83-113 | every character of a class is the image of some in-range draw |
| Generator.Join | main.go:115 | definition: `strings.Join(parts, "")`, the concatenation of the parts in order |
| Generator.BuildRun | main.go:149-153 | `make([]string, n)` followed by `n` appends gives `2n` strings, the first `n` empty, which join to the drawn characters, or to "" for an omitted class |
| Generator.BuildClass | main.go:80-113 | the run of a class joins to the characters its draws stand for, as many as the generator's count for that class, and to nothing for a class the generator does not build |
| Generator.BuildPassword | main.go:115 | the joined runs are the legal specials, illegal characters, lower case, upper case and digits, in that order |
| Generator.Unshuffled | main.go:115 | definition: the joined runs in the order legal specials, illegal characters, lower case, upper case, digits (main.go:176 for the generators without an illegal run) |
| Generator.Password | main.go:115-121 | definition: the joined runs shuffled by the swap draws, then, for `shouldFailLength` only, cut to its first `rand.Intn(7)+1` runes (main.go:485) |
| Generator.Case | main.go:123-127 | definition: the result a generator sends, with the category's expected verdict, `runRegexp` of the password and the password |
| Generator.Generate | main.go:79-129 | one generator iteration returns the case `Case(cat, d)` of its draws, and its actual verdict equals the expected one |
| Generator.TooShortCutInBounds | main.go:478-485 | the shuffled `shouldFailLength` password has at least 8 runes, so `[:rand.Intn(7)+1]` is in range |
| Generator.PasswordChars | main.go:115-121 | apart from `shouldFailLength`, the final password has exactly the characters of the joined runs |
| Generator.PresentRunHasTwo | main.go:149-174 | outside `shouldFailIllegalChars`, every class a generator draws gets at least two characters |
| Generator.OmittedClassAbsent | main.go:205-441 | a "missing class" generator never puts a character of the omitted class in the password, so the password fails |
| Generator.ShouldPassConforms | main.go:142-203 | every `shouldPass` password conforms to the policy and passes `runRegexp` |
| Generator.ShouldFailSpecialCharsRejected | main.go:205-263 | a `shouldFailSpecialChars` password has no legal special character and fails |
| Generator.ShouldFailIllegalCharsRejected | main.go:74-140 | a `shouldFailIllegalChars` password always holds at least one illegal character and fails, even when every other count is 0 |
| Generator.ShouldFailNumberRejected | main.go:265-322 | a `shouldFailNumber` password has no digit and fails |
| Generator.ShouldFailLowerRejected | main.go:324-382 | a `shouldFailLower` password has no lower-case letter and fails |
| Generator.ShouldFailUpperRejected | main.go:384-441 | a `shouldFailUpper` password has no upper-case letter and fails |
| Generator.ShouldFailLengthRejected | main.go:443-502 | a `shouldFailLength` password has 1 to 7 characters and fails |
| Generator.VerdictMatchesExpected | main.go:123-127 | for every category and every in-range draw, `runRegexp` of the password equals the verdict the generator expects |
| Orchestrator.Switch | main.go:584-611 | definition: the per-category flag each `if` tests (`runShouldPass`, `runShouldFailSpecialChars`, and so on) |
| Orchestrator.Enabled | main.go:584-611 | definition: a category is started when its flag or `-run-all-tests` is set |
| Orchestrator.Started | main.go:583-611 | a category is started exactly when its switch or `-run-all-tests` is set; none is started twice; with every switch on, all start in source order |
| Orchestrator.Launched | main.go:583-611 | a generator starts exactly when enabled; none starts twice; `-run-all-tests` starts all seven |
| Orchestrator.StartOrderComplete | main.go:583-611 | `main` considers each of the seven categories exactly once |
| Orchestrator.TotalTests | main.go:614 | the loop runs `testsToRun * tests` times, where tests is the number started, and not at all when that product is not positive |
| Orchestrator.FormatBool | main.go:616 | definition: `fmt.Sprintf("%t", b)`, that is `"true"` or `"false"` |
| Orchestrator.RowOf | main.go:616 | definition: the record of a result, its password, then its expected and its actual verdict |
| Orchestrator.RowsOf | main.go:614-617 | definition: one record per result, in order; as many records as results |
| Orchestrator.RowsOfPrefix | main.go:614-617 | the records of the first `k` results are the first `k` records |
| Orchestrator.CsvWriter.constructor | main.go:575 | a new writer holds no record and has flushed nothing |
| Orchestrator.CsvWriter.Write | main.go:617 | a write appends one record and leaves the flushed prefix alone |
| Orchestrator.CsvWriter.Flush | main.go:624 | a flush makes every record written so far part of the file |
| Orchestrator.FirstMismatch | main.go:629 | the index of the first result whose verdicts differ, with every earlier result agreeing |
| Orchestrator.Consumed | main.go:614-633 | the consumer stops early exactly when `exitOnFail` is set and a mismatch comes before the last result |
| Orchestrator.FlushPoints | main.go:623-624 | definition: the record counts, header included, at each periodic flush while `n` results are consumed |
| Orchestrator.FlushPointsExact | main.go:623-625 | the loop flushes after results 0, 100000, 200000, and so on, and at no other point |
| Orchestrator.FlushesAfter | main.go:623 | definition: `i%updateFrequency == 0`, the loop flushes after the record of result `i` |
| Orchestrator.LastFlushIndex | main.go:623-624 | definition: the last flush index at or before `m`, never above `m` |
| Orchestrator.LastFlushIndexBounds | main.go:623-624 | `LastFlushIndex(m)` is a flush index, no index after it up to `m` is one, and it is `m` itself exactly when `m` is a flush index |
| Orchestrator.LastFlushPoint | main.go:623-624 | after `c > 0` results the last flush covered the header and the results up to `LastFlushIndex(c - 1)` |
| Orchestrator.Persisted | main.go:614-635 | definition: how many results have their records explicitly flushed to `results.csv`, never more than were consumed: all of them on completion, those up to the last periodic flush after an exit |
| Orchestrator.PersistedBounds | main.go:614-635 | a completed run flushes every result. After an exit the explicitly flushed results are those up to the last flush index at or before the first mismatch, with no flush index between them. The failing result is among them exactly when the mismatch index is a flush index |
| Orchestrator.PersistedIs | main.go:614-635 | `Persisted` in terms of the consumed count: equal to it on completion, one past its last flush index after an exit |
| Orchestrator.CompletedFlushedRecords | main.go:635 | a final flush of every record leaves every record in the file |
| Orchestrator.ExitFlushedRecords | main.go:623-632 | after an exit that consumed `c` results, the flushed records are the header and the records of the results up to `LastFlushIndex(c - 1)` |
| Orchestrator.FlushedRecords | main.go:623-635 | the flushed records at the end of the loop, whichever way it ends, are the header and the records of the first `Persisted` results |
| Orchestrator.SavedRecords | main.go:614-635 | once `RunTests` returns, the explicitly flushed records are the header and the records of the first `Persisted` results: every record on completion, and after an exit, where `os.Exit` (main.go:632) skips the final `Flush` (main.go:635), those up to the last periodic flush |
| Orchestrator.MismatchStep | main.go:629-632 | under `exitOnFail` the loop exits exactly at the first mismatch, after consuming it |
| Orchestrator.RunTests | main.go:578-635 | see the list after the table |
| Orchestrator.FanIn | main.go:583-614 | definition: the arriving results' categories, as a multiset, are `testsToRun` copies of each started category |
| Orchestrator.FanInCount | main.go:583-614 | if each started generator sends `testsToRun` results, the loop bound counts them exactly: nothing is dropped and the loop never waits for a result that does not come |
| Orchestrator.GeneratedResultsAgree | main.go:123-127 | results produced by the generators never mismatch |
| Orchestrator.HarnessConsumesEverything | main.go:614-635 | with faithful generators the loop consumes every result and `exitOnFail` never fires |
| Evaluator.ExitStatus | main.go:737 | the status the process ends with, before the host truncates it: the full mismatch count passed to `os.Exit`, which is 0 exactly when a finished evaluation counted no failure; 1 from log.Fatal; 2, set by the Go runtime, after a panic |
| Evaluator.HostStatusAsWritten | main.go:737 | the status the parent sees as written lies in 0..255, is non-zero after log.Fatal or a panic, and tells success from failure only below 256 failures |
| Evaluator.HostStatusWraps | main.go:737 | 256 mismatching rows give a non-zero `os.Exit` argument but host status 0 |
| Evaluator.HostStatus | main.go:737 | the corrected status lies in 0..255, is 0 exactly when a finished evaluation counted no failure, is non-zero after log.Fatal or a panic, and equals the program's status wherever that status survives the host |
| Evaluator.ToLower | main.go:685-686 | the result has the same length, no upper-case ASCII letter, each upper-case letter moved by 32 to its lower-case form, and every other character unchanged |
| Evaluator.JoinComma | main.go:684 | definition: `strings.Join(parts, ",")` |
| Evaluator.Mismatched | main.go:689 | definition: the two last fields differ once lower-cased |
| Evaluator.ReportOf | main.go:684-690 | definition: the mismatch line of a record, every field but the last two joined with commas, then the two lower-cased verdicts |
| Evaluator.Failed | main.go:687-691 | the number of mismatched rows never exceeds the number of rows |
| Evaluator.Reports | main.go:689-690 | definition: the mismatch lines of the rows, in row order |
| Evaluator.FirstUnusable | main.go:683-686 | the index of the first record the loop cannot take apart, with every earlier one a record of at least two fields |
| Evaluator.EvaluationOf | main.go:671-703 | definition: the reference outcome of an evaluation, described in the list after the table |
| Evaluator.Evaluate | main.go:671-698 | see the list after the table |
| Evaluator.WellFormedFileEvaluates | main.go:671-703 | a file whose header reads and whose records have at least two fields is evaluated completely: one row per record, failures counted and reported; with no data row the pass-rate division panics |
| Evaluator.ReportsMatchFailures | main.go:689-691 | one mismatch line is printed per counted failure, and the count is 0 exactly when no row mismatches |
| Evaluator.SuccessIffNoMismatch | main.go:693-737 | a finished evaluation counts every data row and has a positive total; its uncapped `os.Exit` argument and its corrected status are 0 exactly when no row mismatches; the printed rate and the corrected rate are 100 exactly then |
| Evaluator.PassRateAsWritten | main.go:703 | the printed pass rate as written is 100 when nothing failed and 0 otherwise |
| Evaluator.PassPercent | main.go:703 | the intended pass rate lies between 0 and 100; it is 100 exactly when nothing failed and 0 exactly when everything failed |
| Evaluator.PassRate | main.go:703 | the corrected pass rate of a finished evaluation is 100% exactly when its corrected exit status is 0 |
| RoundTrip.FileItems | main.go:671-686 | definition: a file of well-formed records, one `reader.Read()` value per record |
| RoundTrip.FormatBoolRoundTrip | main.go:616 | `"true"` and `"false"` survive `strings.ToLower` and stay distinct, so the evaluator's compare is the test's `expected != actual` |
| RoundTrip.JoinOne | main.go:684 | a record with one password field gives back that password from the comma join |
| RoundTrip.RecordOfResult | main.go:616 | the record of one result is usable by the evaluator, mismatched exactly when the result's verdicts differ, and reports that result |
| RoundTrip.RowsEvaluate | main.go:616-691 | the records written for a sequence of results, read back, give the same mismatch count and the same mismatch lines in order |
| RoundTrip.WrittenFileEvaluates | main.go:578-703 | the header and the records of any sequence of results, as a completed run leaves them in the file, evaluate to one row per result and one failure per mismatch; an empty run panics at the pass rate |
| RoundTrip.MismatchCountZero | main.go:629 | no mismatch is counted exactly when every result's verdicts agree |
| RoundTrip.AgreeingFileEvaluatesClean | main.go:578-737 | a file of agreeing results evaluates with no failure and no mismatch line |
| RoundTrip.AgreeingPrefix | main.go:629 | the results before the first mismatch have no mismatch |
| RoundTrip.AgreeingPrefixClean | main.go:629-690 | a prefix that stops at or before the first mismatch counts no failure and reports nothing |
| RoundTrip.MismatchEndedPrefix | main.go:629-690 | the prefix that ends with the first mismatch counts that one failure and reports that one result |
| RoundTrip.ExitFileEvaluates | main.go:614-737 | after an `-exit-on-fail` exit the explicitly flushed records evaluate to `Finished(Persisted, f)` and reports the failing result only if it is kept, where `f` is 1 when the first mismatch is a flush index and 0 otherwise; evaluated on their own, the explicitly flushed records give corrected status 0 exactly when the failing record is not among them |
| RoundTrip.PersistedFileEvaluates | main.go:614-737 | the explicitly flushed records evaluate to every result's row and mismatch on completion, and to the ones up to the last periodic flush after an exit |
| RoundTrip.SavedFileEvaluates | main.go:578-737 | what `-run-evals` makes of the records `RunTests` flushes explicitly: on completion one row per result and one failure per mismatch; after an exit the persisted results, with the failing one only when its index is a flush index |
| RoundTrip.GeneratedFileEvaluatesClean | main.go:558-737 | a whole faithful run evaluates to `Finished(TotalTests, 0)`, that is, exit status 0, or panics when no test was run |

Orchestrator.RunTests states:

- `results.csv` receives the header, then one record per consumed result, in
  arrival order.
- The run exits with status 1 exactly when `exitOnFail` is set and a result
  mismatches.
- The flushes happen at the points `FlushPointsExact` describes. The final
  flush happens only when the loop completes, because `os.Exit` skips it.
  `SavedRecords` turns this into the records flushed explicitly.

Evaluator.Evaluate states that the imperative loop computes
`EvaluationOf(items)`. That function gives:

- log.Fatal when the header read fails, an empty file included (`io.EOF`);
- log.Fatal at the first read error after the header, with the mismatch
  lines printed before it;
- a panic at the first record with fewer than two fields;
- a panic when the file has no data row (the pass-rate division);
- otherwise the row count, the mismatch count and the mismatch lines, in
  order.

## Left out

- Orchestrator.Persisted, PersistedBounds, SavedRecords, RoundTrip.ExitFileEvaluates, PersistedFileEvaluates, SavedFileEvaluates:
  these speak of the explicitly flushed records only. `csv.NewWriter`
  (main.go:575) writes through a 4096-byte `bufio.Writer`, which writes out
  every block it fills. After an `-exit-on-fail` exit the real file therefore
  holds at least these records, plus every full block written since the last
  periodic flush, and may end in a record cut in the middle. Read back, such a
  file can end in `log.Fatal` or count a spurious mismatch, so the model's
  verdict for the exit case is not the program's. On completion the final
  `Flush` writes everything, and the model's file is the real one.
- Orchestrator.PersistedBounds: bounds the explicitly flushed results only; the
  blocks the buffer writes out on its own are not counted (see above).
- Orchestrator.SavedRecords: states the explicitly flushed records only, not
  the full blocks written after them (see above).
- RoundTrip.ExitFileEvaluates: evaluates the explicitly flushed records only;
  the real file after an exit can hold more, or a cut record (see above).
- RoundTrip.PersistedFileEvaluates: the exit case evaluates the explicitly
  flushed records only (see above).
- RoundTrip.SavedFileEvaluates: the exit case evaluates the explicitly flushed
  records only (see above).
- Goroutines and the channel. The generators run concurrently, and the
  consumer sees their results in some interleaving. The model takes that
  order as an input and states the sources' multiplicities as a multiset
  (`Orchestrator.FanIn`). The random interleaving itself is not modelled.
- `math/rand`. Every `rand.Intn` result and every swap draw of
  `rand.Shuffle` is an input, constrained to the range the call can return.
  Which values the generator produces, and with what probability, is not
  modelled. `rand.Shuffle` is modelled as the Fisher-Yates loop it runs,
  with `i` from `n-1` down to `1` and `j` in `0..i`.
- The regex engine. Each compiled pattern is replaced by the search it
  performs: a leftmost one-character class match, or the greedy anchored
  repetition. Regex compilation cannot fail for these constant patterns, so
  its `log.Fatal` branches are left out.
- CSV encoding and file I/O. The writer is a sequence of records with a
  flushed prefix, and the reader is the sequence of values successive
  `reader.Read()` calls return. Quoting is assumed to round-trip. Any reader
  error, including the field-count check, is one `ParseError` item. Errors
  from `os.Create`, `os.Open`, `Close` and `Write` (log.Fatal, log.Panicf)
  are left out, as is the buffered writer writing out each block it fills
  (see the first line of this section).
- Flag parsing. `Orchestrator.Config` holds the values after parsing. No flag
  sets `runShouldPass` (main.go:23), so in the real program `shouldPass`
  starts only under `-run-all-tests`. The model keeps the field so that
  either setting can be stated.
- The order of the two modes in one invocation. `RoundTrip` states what a
  run's file evaluates to. An `os.Exit(1)` under `-exit-on-fail` ends the
  process before the evaluation starts.
- `printUpdate`, the progress and timing output, and every `fmt.Printf`
  other than the mismatch lines (`Evaluator.Report`).
- Evaluator.PassPercent: `float32` rounding and `%.3g` formatting are not
  modelled. The corrected pass rate is a `real`.
- Evaluator.ToLower: only ASCII letters are folded. Unicode case mapping is
  not modelled (every verdict field the harness writes is ASCII).
- Orchestrator.TotalTests: Go's 64-bit `int` overflow of
  `testsToRun * tests` is not modelled. The product is at most 7 times the
  flag value.

## Findings

| source | as written | input that shows it | evidently intended | confidence | as-written member | corrected member |
|---|---|---|---|---|---|---|
| main.go:703 | `float32((totalOfTests-failedTests)/totalOfTests)*100` divides two integers before the conversion, so the printed pass rate is 100% when nothing failed and 0% otherwise | 3 tests with 1 failure print 0% | the share of passing tests in percent, 66.7% for that input | high (not executed) | Evaluator.PassRateAsWritten, Evaluator.PassRateAsWrittenTruncates | Evaluator.PassPercent, Evaluator.PassRate |
| main.go:737 | `os.Exit(failedTests)` passes the full mismatch count, and the host keeps only its low 8 bits, so a multiple of 256 failures exits with status 0 | 256 mismatching rows exit with status 0, as on success | a non-zero status whenever a row mismatched, for example the count capped at 255 | high (not executed) | Evaluator.HostStatusAsWritten, Evaluator.HostStatusWraps | Evaluator.HostStatus, Evaluator.SuccessIffNoMismatch, Evaluator.PassRate |
