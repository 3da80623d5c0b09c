/** The `-run-tests` half of `main`: which generators are started, and the
    loop that takes their results off the channel one at a time and writes
    them to `results.csv`. The goroutines and the channel are not modelled:
    the order in which results arrive is an input sequence. */
module Orchestrator {
  import opened Generator

  /** A flush (and a progress line) every this many results. */
  const UpdateFrequency: nat := 1000 * 100

  /** The harness's global switches, as `main` sees them after flag parsing. */
  datatype Config = Config(
    runShouldPass: bool,
    runShouldFailSpecialChars: bool,
    runShouldFailIllegalChars: bool,
    runShouldFailNumber: bool,
    runShouldFailUpper: bool,
    runShouldFailLower: bool,
    runShouldFailLength: bool,
    runAllTests: bool,
    exitOnFail: bool,
    testsToRun: int)

  /** The switch that names one category. */
  function Switch(cfg: Config, cat: Category): bool {
    match cat
    case AllValid => cfg.runShouldPass
    case MissingLegalSpecial => cfg.runShouldFailSpecialChars
    case HasIllegalChars => cfg.runShouldFailIllegalChars
    case MissingDigit => cfg.runShouldFailNumber
    case MissingUpper => cfg.runShouldFailUpper
    case MissingLower => cfg.runShouldFailLower
    case TooShort => cfg.runShouldFailLength
  }

  predicate Enabled(cfg: Config, cat: Category) {
    Switch(cfg, cat) || cfg.runAllTests
  }

  /** No category appears twice. */
  predicate Distinct(cats: seq<Category>) {
    forall i, j :: 0 <= i < j < |cats| ==> cats[i] != cats[j]
  }

  /** The order in which `main` tries to start the generators. */
  const StartOrder: seq<Category> :=
    [AllValid, MissingLegalSpecial, HasIllegalChars, MissingDigit, MissingUpper, MissingLower, TooShort]

  /** The categories of `order` whose generator `main` starts. */
  function Started(cfg: Config, order: seq<Category>): (cats: seq<Category>)
    ensures forall c :: c in cats <==> c in order && Enabled(cfg, c)
    ensures Distinct(order) ==> Distinct(cats)
    ensures (forall c :: c in order ==> Enabled(cfg, c)) ==> cats == order
  {
    if order == [] then []
    else
      var rest := Started(cfg, order[1..]);
      assert Distinct(order) ==> order[0] !in order[1..] && Distinct(order[1..]) by {
        if Distinct(order) {
          assert forall j :: 0 <= j < |order[1..]| ==> order[1..][j] == order[j + 1];
        }
      }
      if Enabled(cfg, order[0]) then [order[0]] + rest else rest
  }

  /** The generators `main` starts, in the order it starts them. */
  function Launched(cfg: Config): (cats: seq<Category>)
    ensures forall c :: c in cats <==> Enabled(cfg, c)
    ensures Distinct(cats)
    ensures cfg.runAllTests ==> |cats| == 7
  {
    StartOrderComplete();
    Started(cfg, StartOrder)
  }

  /** `main` considers every category once. */
  lemma StartOrderComplete()
    ensures forall c :: c in StartOrder
    ensures Distinct(StartOrder)
  {
    forall c ensures c in StartOrder {
      match c
      case AllValid => assert StartOrder[0] == c;
      case MissingLegalSpecial => assert StartOrder[1] == c;
      case HasIllegalChars => assert StartOrder[2] == c;
      case MissingDigit => assert StartOrder[3] == c;
      case MissingUpper => assert StartOrder[4] == c;
      case MissingLower => assert StartOrder[5] == c;
      case TooShort => assert StartOrder[6] == c;
    }
  }

  /** How many times the consumer loop `for i := 0; i < testsToRun*tests; i++`
      runs: each started generator sends `testsToRun` results (none when
      `testsToRun` is not positive). */
  function TotalTests(cfg: Config): (n: nat)
    ensures n == (if cfg.testsToRun > 0 then cfg.testsToRun else 0) * |Launched(cfg)|
  {
    var product := cfg.testsToRun * |Launched(cfg)|;
    if product > 0 then product else 0
  }

  /** A CSV record. */
  type Row = seq<string>

  const Header: Row := ["password", "expected", "actual"]

  /** `fmt.Sprintf("%t", b)`. */
  function FormatBool(b: bool): string {
    if b then "true" else "false"
  }

  /** The record written for one result. */
  function RowOf(r: TestResult): Row {
    [r.password, FormatBool(r.expected), FormatBool(r.actual)]
  }

  function RowsOf(rs: seq<TestResult>): (rows: seq<Row>)
    ensures |rows| == |rs|
  {
    if rs == [] then [] else RowsOf(rs[..|rs| - 1]) + [RowOf(rs[|rs| - 1])]
  }

  /** The records of a prefix are a prefix of the records. */
  lemma {:induction false} RowsOfPrefix(rs: seq<TestResult>, k: nat)
    requires k <= |rs|
    ensures RowsOf(rs)[..k] == RowsOf(rs[..k])
  {
    if k < |rs| {
      RowsOfPrefix(rs[..|rs| - 1], k);
      assert rs[..|rs| - 1][..k] == rs[..k];
    } else {
      assert rs[..k] == rs;
    }
  }

  lemma RowsOfAppend(rs: seq<TestResult>, i: nat)
    requires i < |rs|
    ensures RowsOf(rs[..i + 1]) == RowsOf(rs[..i]) + [RowOf(rs[i])]
  {
    assert rs[..i + 1][..i] == rs[..i];
  }

  /** The `csv.Writer` over `results.csv`: the records written so far, and
      how many of them a `Flush` has pushed to the file. */
  class CsvWriter {
    var rows: seq<Row>
    var flushed: nat
    /** The number of records written at each call of `Flush`, in call order. */
    ghost var flushes: seq<nat>

    ghost predicate Valid()
      reads this
    {
      && flushed <= |rows|
      && (if flushes == [] then flushed == 0 else flushed == flushes[|flushes| - 1])
    }

    constructor ()
      ensures Valid()
      ensures rows == [] && flushed == 0 && flushes == []
    {
      rows := [];
      flushed := 0;
      flushes := [];
    }

    method Write(row: Row)
      requires Valid()
      modifies this
      ensures Valid()
      ensures rows == old(rows) + [row]
      ensures flushed == old(flushed) && flushes == old(flushes)
    {
      rows := rows + [row];
    }

    method Flush()
      requires Valid()
      modifies this
      ensures Valid()
      ensures rows == old(rows)
      ensures flushed == |rows| && flushes == old(flushes) + [|rows|]
    {
      flushed := |rows|;
      flushes := flushes + [|rows|];
    }
  }

  /** Index of the first result whose expected and actual verdicts differ,
      or `|rs|` when they all agree. */
  function FirstMismatch(rs: seq<TestResult>): (k: nat)
    ensures k <= |rs|
    ensures forall j :: 0 <= j < k ==> rs[j].expected == rs[j].actual
    ensures k < |rs| ==> rs[k].expected != rs[k].actual
  {
    if rs == [] || rs[0].expected != rs[0].actual then 0
    else
      var k := FirstMismatch(rs[1..]);
      assert forall j :: 1 <= j < k + 1 ==> rs[j] == rs[1..][j - 1];
      k + 1
  }

  /** How many results the consumer takes off the channel: all of them, or
      with `exitOnFail` up to and including the first mismatch. */
  function Consumed(cfg: Config, arrivals: seq<TestResult>): (n: nat)
    ensures n <= |arrivals|
    ensures n < |arrivals| <==> cfg.exitOnFail && FirstMismatch(arrivals) < |arrivals| - 1
  {
    if cfg.exitOnFail && FirstMismatch(arrivals) < |arrivals| then FirstMismatch(arrivals) + 1
    else |arrivals|
  }

  /** The record counts at which the loop flushes while consuming `n`
      results: after the record of result `i` (header included, `i + 2`
      records) whenever `i % UpdateFrequency == 0`. */
  function FlushPoints(n: nat): seq<nat> {
    if n == 0 then []
    else FlushPoints(n - 1) + (if (n - 1) % UpdateFrequency == 0 then [n + 1] else [])
  }

  /** The loop flushes exactly after results `0, UpdateFrequency,
      2 * UpdateFrequency, ...`, the first one included. */
  lemma {:induction false} FlushPointsExact(n: nat)
    ensures forall i :: 0 <= i < n && i % UpdateFrequency == 0 ==> i + 2 in FlushPoints(n)
    ensures forall e :: e in FlushPoints(n) ==> 2 <= e <= n + 1 && (e - 2) % UpdateFrequency == 0
  {
    if n > 0 {
      FlushPointsExact(n - 1);
    }
  }

  /** The loop flushes after the record of result `i`. */
  predicate FlushesAfter(i: nat) {
    i % UpdateFrequency == 0
  }

  /** The last index at or before `m` after which the loop flushes. */
  function LastFlushIndex(m: nat): (p: nat)
    ensures p <= m
  {
    if FlushesAfter(m) then m else LastFlushIndex(m - 1)
  }

  /** `LastFlushIndex(m)` is a flush index, no index after it up to `m` is
      one, and it is `m` itself exactly when `m` is one. */
  lemma {:induction false} LastFlushIndexBounds(m: nat)
    ensures FlushesAfter(LastFlushIndex(m))
    ensures forall j :: LastFlushIndex(m) < j <= m ==> !FlushesAfter(j)
    ensures LastFlushIndex(m) == m <==> FlushesAfter(m)
  {
    if !FlushesAfter(m) {
      LastFlushIndexBounds(m - 1);
    }
  }

  /** After consuming `c > 0` results, the last flush came after the record
      of result `LastFlushIndex(c - 1)`, header included. */
  lemma {:induction false} LastFlushPoint(c: nat)
    requires c > 0
    ensures FlushPoints(c) != []
    ensures FlushPoints(c)[|FlushPoints(c)| - 1] == LastFlushIndex(c - 1) + 2
  {
    if (c - 1) % UpdateFrequency != 0 {
      LastFlushPoint(c - 1);
    }
  }

  /** How many results have their records explicitly flushed to
      `results.csv` once the loop ends: every one on completion; after an
      `exitOnFail` exit those up to the last periodic flush. */
  function Persisted(cfg: Config, arrivals: seq<TestResult>): (n: nat)
    ensures n <= Consumed(cfg, arrivals)
  {
    if cfg.exitOnFail && FirstMismatch(arrivals) < |arrivals| then
      LastFlushIndex(Consumed(cfg, arrivals) - 1) + 1
    else |arrivals|
  }

  /** A completed run flushes every record; an exit has flushed the records
      up to the last flush index at or before the first mismatch, and so the
      failing record exactly when the mismatch falls on a flush index. */
  lemma {:induction false} PersistedBounds(cfg: Config, arrivals: seq<TestResult>)
    ensures !(cfg.exitOnFail && FirstMismatch(arrivals) < |arrivals|) ==>
              Persisted(cfg, arrivals) == Consumed(cfg, arrivals) == |arrivals|
    ensures cfg.exitOnFail && FirstMismatch(arrivals) < |arrivals| ==>
              && Persisted(cfg, arrivals) == LastFlushIndex(FirstMismatch(arrivals)) + 1
              && FlushesAfter(Persisted(cfg, arrivals) - 1)
              && forall j :: Persisted(cfg, arrivals) <= j <= FirstMismatch(arrivals) ==> !FlushesAfter(j)
    ensures cfg.exitOnFail && FirstMismatch(arrivals) < |arrivals| ==>
              (Persisted(cfg, arrivals) == Consumed(cfg, arrivals) <==> FlushesAfter(FirstMismatch(arrivals)))
  {
    if cfg.exitOnFail && FirstMismatch(arrivals) < |arrivals| {
      LastFlushIndexBounds(FirstMismatch(arrivals));
    }
  }

  /** The records explicitly flushed to `results.csv` once `RunTests`
      returns, in terms of its postconditions: the header and the records of
      the first `Persisted` results, so on completion every record and after
      an exit those up to the last periodic flush. */
  lemma {:induction false} SavedRecords(cfg: Config, arrivals: seq<TestResult>, outcome: RunOutcome,
                     rows: seq<Row>, flushed: nat, flushes: seq<nat>)
    requires rows == [Header] + RowsOf(arrivals[..Consumed(cfg, arrivals)])
    requires outcome == if cfg.exitOnFail && FirstMismatch(arrivals) < |arrivals| then Exited(1) else Completed
    requires flushes == FlushPoints(Consumed(cfg, arrivals)) + (if outcome == Completed then [|rows|] else [])
    requires if flushes == [] then flushed == 0 else flushed == flushes[|flushes| - 1]
    ensures flushed <= |rows|
    ensures rows[..flushed] == [Header] + RowsOf(arrivals[..Persisted(cfg, arrivals)])
  {
    PersistedIs(cfg, arrivals);
    FlushedRecords(arrivals, Consumed(cfg, arrivals), Persisted(cfg, arrivals), outcome == Completed,
                   rows, flushed, flushes);
  }

  /** The flushed records at the end of the loop, whichever way it ends, are
      the header and the records of the first `p` of `c` consumed results. */
  lemma {:induction false} FlushedRecords(arrivals: seq<TestResult>, c: nat, p: nat, completed: bool,
                       rows: seq<Row>, flushed: nat, flushes: seq<nat>)
    requires c <= |arrivals|
    requires completed ==> p == c
    requires !completed ==> 0 < c && p == LastFlushIndex(c - 1) + 1
    requires rows == [Header] + RowsOf(arrivals[..c])
    requires flushes == FlushPoints(c) + (if completed then [|rows|] else [])
    requires if flushes == [] then flushed == 0 else flushed == flushes[|flushes| - 1]
    ensures flushed <= |rows|
    ensures rows[..flushed] == [Header] + RowsOf(arrivals[..p])
  {
    if completed {
      CompletedFlushedRecords(rows, flushed, flushes);
    } else {
      ExitFlushedRecords(arrivals, c, rows, flushed, flushes);
    }
  }

  /** `Persisted` in terms of `Consumed`. */
  lemma {:induction false} PersistedIs(cfg: Config, arrivals: seq<TestResult>)
    ensures !(cfg.exitOnFail && FirstMismatch(arrivals) < |arrivals|) ==>
              Persisted(cfg, arrivals) == Consumed(cfg, arrivals)
    ensures cfg.exitOnFail && FirstMismatch(arrivals) < |arrivals| ==>
              0 < Consumed(cfg, arrivals) && Persisted(cfg, arrivals) == LastFlushIndex(Consumed(cfg, arrivals) - 1) + 1
  {
  }

  /** A completed run ends with a flush of every record. */
  lemma {:induction false} CompletedFlushedRecords(rows: seq<Row>, flushed: nat, flushes: seq<nat>)
    requires flushes != [] && flushes[|flushes| - 1] == |rows| && flushed == flushes[|flushes| - 1]
    ensures flushed <= |rows| && rows[..flushed] == rows
  {
  }

  /** After an exit that consumed `c` results, the last flush holds the
      header and the records of results `0..LastFlushIndex(c - 1)`. */
  lemma {:induction false} ExitFlushedRecords(arrivals: seq<TestResult>, c: nat, rows: seq<Row>, flushed: nat, flushes: seq<nat>)
    requires 0 < c <= |arrivals|
    requires rows == [Header] + RowsOf(arrivals[..c])
    requires flushes == FlushPoints(c)
    requires if flushes == [] then flushed == 0 else flushed == flushes[|flushes| - 1]
    ensures flushed == LastFlushIndex(c - 1) + 2 <= |rows|
    ensures rows[..flushed] == [Header] + RowsOf(arrivals[..LastFlushIndex(c - 1) + 1])
  {
    var p := LastFlushIndex(c - 1) + 1;
    LastFlushPoint(c);
    RowsOfPrefix(arrivals[..c], p);
    assert arrivals[..c][..p] == arrivals[..p];
    assert rows[..p + 1] == [Header] + RowsOf(arrivals[..c])[..p];
  }

  datatype RunOutcome =
    | Completed        // all results written and flushed
    | Exited(status: int)  // `os.Exit` on the first mismatch under `exitOnFail`

  /** The consumer loop of `-run-tests`: write the header, then one record
      per result in arrival order, flushing every `UpdateFrequency` results
      and, under `exitOnFail`, exiting at the first mismatch; a final flush
      when every result has been written. `os.Exit` skips that flush. */
  method RunTests(cfg: Config, arrivals: seq<TestResult>) returns (writer: CsvWriter, outcome: RunOutcome)
    requires |arrivals| == TotalTests(cfg)
    ensures fresh(writer) && writer.Valid()
    ensures writer.rows == [Header] + RowsOf(arrivals[..Consumed(cfg, arrivals)])
    ensures outcome == if cfg.exitOnFail && FirstMismatch(arrivals) < |arrivals| then Exited(1) else Completed
    ensures writer.flushes == FlushPoints(Consumed(cfg, arrivals)) +
                              (if outcome == Completed then [|writer.rows|] else [])
  {
    writer := new CsvWriter();
    writer.Write(Header);
    var tests := |Launched(cfg)|;
    var total := cfg.testsToRun * tests;
    LoopBound(cfg, total);
    var i: int := 0;
    while i < total
      invariant 0 <= i <= |arrivals|
      invariant writer.Valid()
      invariant WroteFirst(arrivals, i, writer.rows, writer.flushes)
      invariant cfg.exitOnFail ==> i <= FirstMismatch(arrivals)
    {
      var result := arrivals[i];
      WriteStep(arrivals, i, writer.rows, writer.flushes);
      writer.Write(RowOf(result));
      if i % UpdateFrequency == 0 {
        writer.Flush();
      }
      MismatchStep(cfg, arrivals, i);
      if cfg.exitOnFail && result.expected != result.actual {
        outcome := Exited(1);
        return;
      }
      i := i + 1;
    }
    assert arrivals[..i] == arrivals;
    writer.Flush();
    outcome := Completed;
  }

  /** The writer's state once the first `i` results have been consumed. */
  ghost predicate WroteFirst(arrivals: seq<TestResult>, i: nat, rows: seq<Row>, flushes: seq<nat>)
    requires i <= |arrivals|
  {
    rows == [Header] + RowsOf(arrivals[..i]) && flushes == FlushPoints(i)
  }

  lemma WriteStep(arrivals: seq<TestResult>, i: nat, rows: seq<Row>, flushes: seq<nat>)
    requires i < |arrivals| && WroteFirst(arrivals, i, rows, flushes)
    ensures WroteFirst(arrivals, i + 1, rows + [RowOf(arrivals[i])],
                       flushes + if i % UpdateFrequency == 0 then [|rows| + 1] else [])
  {
    RowsOfAppend(arrivals, i);
  }

  /** The loop bound `testsToRun * tests` is the number of results to read,
      and no result at all when it is not positive. */
  lemma LoopBound(cfg: Config, total: int)
    requires total == cfg.testsToRun * |Launched(cfg)|
    ensures total > 0 ==> total == TotalTests(cfg)
    ensures total <= 0 ==> TotalTests(cfg) == 0
  {
  }

  /** After the record of result `i`, the run exits exactly at the first
      mismatch, having consumed `i + 1` results. */
  lemma MismatchStep(cfg: Config, arrivals: seq<TestResult>, i: nat)
    requires i < |arrivals| && (cfg.exitOnFail ==> i <= FirstMismatch(arrivals))
    ensures cfg.exitOnFail && arrivals[i].expected != arrivals[i].actual ==>
            FirstMismatch(arrivals) == i && Consumed(cfg, arrivals) == i + 1
    ensures cfg.exitOnFail && arrivals[i].expected == arrivals[i].actual ==>
            i + 1 <= FirstMismatch(arrivals)
  {
  }

  // ---------------------------------------------------------------------
  // Fan-in: what arrives on the channel

  /** `n` copies of `c`. */
  function Copies(c: Category, n: nat): (m: multiset<Category>)
    ensures |m| == n
    ensures forall x :: m[x] == if x == c then n else 0
  {
    if n == 0 then multiset{} else Copies(c, n - 1) + multiset{c}
  }

  /** `n` copies of each category of `cats`. */
  function EachTimes(cats: seq<Category>, n: nat): multiset<Category> {
    if cats == [] then multiset{} else EachTimes(cats[..|cats| - 1], n) + Copies(cats[|cats| - 1], n)
  }

  lemma {:induction false} EachTimesSize(cats: seq<Category>, n: nat)
    ensures |EachTimes(cats, n)| == n * |cats|
  {
    if cats != [] {
      EachTimesSize(cats[..|cats| - 1], n);
      assert n * |cats| == n * (|cats| - 1) + n;
    }
  }

  lemma {:induction false} EachTimesCounts(cats: seq<Category>, n: nat)
    requires Distinct(cats)
    ensures forall x :: EachTimes(cats, n)[x] == if x in cats then n else 0
  {
    if cats != [] {
      var init, last := cats[..|cats| - 1], cats[|cats| - 1];
      assert cats == init + [last];
      assert Distinct(init) by {
        forall i, j | 0 <= i < j < |init| ensures init[i] != init[j] {
          assert init[i] == cats[i] && init[j] == cats[j];
        }
      }
      EachTimesCounts(init, n);
      assert last !in init by {
        forall j | 0 <= j < |init| ensures init[j] != last {
          assert init[j] == cats[j];
        }
      }
      forall x ensures EachTimes(cats, n)[x] == if x in cats then n else 0 {
        assert EachTimes(cats, n)[x] == EachTimes(init, n)[x] + Copies(last, n)[x];
        assert x in cats <==> x in init || x == last;
      }
    }
  }

  /** The categories of the arriving results, read as a multiset, are those a
      run with `cfg` sends: `testsToRun` results from each started generator. */
  predicate FanIn(cfg: Config, sources: seq<Category>) {
    forall c :: multiset(sources)[c] == if Enabled(cfg, c) && cfg.testsToRun > 0 then cfg.testsToRun else 0
  }

  /** The consumer's loop bound is exactly the number of results the started
      generators send, so nothing is dropped and the loop does not wait for
      a result that never comes. */
  lemma FanInCount(cfg: Config, sources: seq<Category>)
    requires FanIn(cfg, sources)
    ensures |sources| == TotalTests(cfg)
  {
    var n: nat := if cfg.testsToRun > 0 then cfg.testsToRun else 0;
    var cats := Launched(cfg);
    EachTimesCounts(cats, n);
    EachTimesSize(cats, n);
    forall x ensures multiset(sources)[x] == EachTimes(cats, n)[x] {
      assert x in cats <==> Enabled(cfg, x);
    }
    assert multiset(sources) == EachTimes(cats, n);
    assert |sources| == |multiset(sources)|;
  }

  /** The results arriving in order, each the case its generator built from
      its own draws. */
  predicate ProducedBy(arrivals: seq<TestResult>, sources: seq<Category>, draws: seq<Draws>) {
    && |arrivals| == |sources| == |draws|
    && forall k :: 0 <= k < |arrivals| ==> DrawsFit(sources[k], draws[k]) && arrivals[k] == Case(sources[k], draws[k])
  }

  /** Results that the generators built never mismatch, so `exitOnFail`
      never fires and every result is consumed. */
  lemma {:induction false} GeneratedResultsAgree(arrivals: seq<TestResult>, sources: seq<Category>, draws: seq<Draws>)
    requires ProducedBy(arrivals, sources, draws)
    ensures FirstMismatch(arrivals) == |arrivals|
  {
    forall k | 0 <= k < |arrivals| ensures arrivals[k].expected == arrivals[k].actual {
      VerdictMatchesExpected(sources[k], draws[k]);
    }
  }

  /** A run over the generators' own results consumes all of them and ends
      normally, whatever `exitOnFail` says. */
  lemma HarnessConsumesEverything(cfg: Config, arrivals: seq<TestResult>, sources: seq<Category>, draws: seq<Draws>)
    requires FanIn(cfg, sources) && ProducedBy(arrivals, sources, draws)
    ensures |arrivals| == TotalTests(cfg)
    ensures Consumed(cfg, arrivals) == |arrivals|
    ensures !(cfg.exitOnFail && FirstMismatch(arrivals) < |arrivals|)
  {
    FanInCount(cfg, sources);
    GeneratedResultsAgree(arrivals, sources, draws);
  }
}
