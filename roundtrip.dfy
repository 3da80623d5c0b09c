/** The two halves of the program joined through `results.csv`: the records
    `-run-tests` leaves in the file, read back record by record, are what
    `-run-evals` evaluates. The explicitly flushed records of a completed
    run are every record; after an `exitOnFail` exit they are those up to the
    last periodic flush. Blocks the buffered writer writes out on its own are
    not modelled. */
module RoundTrip {
  import opened Generator
  import opened Orchestrator
  import opened Evaluator

  /** A file of well-formed records, as `reader.Read()` returns them. */
  function FileItems(rows: seq<Row>): (items: seq<ReadItem>)
    ensures |items| == |rows|
    ensures forall k :: 0 <= k < |rows| ==> items[k] == Record(rows[k])
  {
    seq(|rows|, k requires 0 <= k < |rows| => Record(rows[k]))
  }

  /** The file read from the header on: the header's record, then the rest. */
  lemma FileItemsCons(h: Row, rows: seq<Row>)
    ensures FileItems([h] + rows) == [Record(h)] + FileItems(rows)
  {
    var a := FileItems([h] + rows);
    var b := [Record(h)] + FileItems(rows);
    forall k | 0 <= k < |a| ensures a[k] == b[k] {
      if k > 0 {
        assert ([h] + rows)[k] == rows[k - 1];
      }
    }
  }

  /** Number of results whose expected and actual verdicts differ. */
  function MismatchCount(rs: seq<TestResult>): (n: nat)
    ensures n <= |rs|
  {
    if rs == [] then 0
    else MismatchCount(rs[..|rs| - 1]) + (if rs[|rs| - 1].expected != rs[|rs| - 1].actual then 1 else 0)
  }

  /** The mismatch line a result gives when its verdicts differ. */
  function ReportFor(r: TestResult): Report {
    Report(r.password, FormatBool(r.expected), FormatBool(r.actual))
  }

  /** The mismatch lines of the results whose verdicts differ, in order. */
  function MismatchReports(rs: seq<TestResult>): seq<Report> {
    if rs == [] then []
    else
      var last := rs[|rs| - 1];
      MismatchReports(rs[..|rs| - 1]) + (if last.expected != last.actual then [ReportFor(last)] else [])
  }

  /** "true" and "false" are already lower case, and tell the two apart. */
  lemma FormatBoolRoundTrip(a: bool, b: bool)
    ensures ToLower(FormatBool(a)) == FormatBool(a)
    ensures ToLower(FormatBool(a)) == ToLower(FormatBool(b)) <==> a == b
  {
    assert ToLower("true") == "true";
    assert ToLower("false") == "false";
    assert "true" != "false" by { assert |"true"| != |"false"|; }
  }

  /** A one-field password comes back unchanged from the comma join. */
  lemma JoinOne(pw: string)
    ensures JoinComma([pw]) == pw
  {
  }

  /** The record of one result is usable, mismatched exactly when the
      result's verdicts differ, and reports that result. */
  lemma RecordOfResult(r: TestResult)
    ensures Usable(Record(RowOf(r)))
    ensures Mismatched(RowOf(r)) <==> r.expected != r.actual
    ensures ReportOf(RowOf(r)) == ReportFor(r)
  {
    var row := RowOf(r);
    FormatBoolRoundTrip(r.expected, r.actual);
    JoinOne(r.password);
    assert row[..1] == [r.password];
  }

  /** Read back record by record, the written results give the same
      mismatch count and the same mismatch lines. */
  lemma {:induction false} RowsEvaluate(rs: seq<TestResult>)
    ensures AllUsable(FileItems(RowsOf(rs)))
    ensures Failed(FileItems(RowsOf(rs))) == MismatchCount(rs)
    ensures Reports(FileItems(RowsOf(rs))) == MismatchReports(rs)
  {
    if rs != [] {
      var init := rs[..|rs| - 1];
      var last := rs[|rs| - 1];
      var items := FileItems(RowsOf(rs));
      RowsEvaluate(init);
      assert items[..|items| - 1] == FileItems(RowsOf(init));
      assert items[|items| - 1] == Record(RowOf(last));
      RecordOfResult(last);
    }
  }

  /** The header and the records of `results`, as a completed run leaves
      them in the file, evaluate to one row per result and one failure per
      mismatch; with no result, the pass-rate division panics. */
  lemma WrittenFileEvaluates(results: seq<TestResult>)
    ensures var e := EvaluationOf(FileItems([Header] + RowsOf(results)));
      && e.verdict == (if results == [] then DivideByZeroPanic else Finished(|results|, MismatchCount(results)))
      && e.reported == MismatchReports(results)
  {
    var items := FileItems([Header] + RowsOf(results));
    FileItemsCons(Header, RowsOf(results));
    assert items[1..] == FileItems(RowsOf(results));
    RowsEvaluate(results);
    WellFormedFileEvaluates(items);
  }

  /** No mismatch is counted exactly when every result agrees. */
  lemma {:induction false} MismatchCountZero(rs: seq<TestResult>)
    ensures MismatchCount(rs) == 0 <==> FirstMismatch(rs) == |rs|
  {
    if rs != [] {
      var init := rs[..|rs| - 1];
      MismatchCountZero(init);
      if FirstMismatch(rs) == |rs| {
        assert FirstMismatch(init) == |init| by {
          assert forall j :: 0 <= j < |init| ==> init[j] == rs[j];
        }
      } else if FirstMismatch(init) == |init| {
        assert rs[|rs| - 1].expected != rs[|rs| - 1].actual;
      } else {
        assert init[FirstMismatch(init)] == rs[FirstMismatch(init)];
      }
    }
  }

  /** A faithful generator run: the file holds every generated result, the
      evaluator counts all of them and finds no failure, and the evaluation
      exits with status 0 (or panics on the empty file of a run with no
      test). */
  lemma GeneratedFileEvaluatesClean(cfg: Config, arrivals: seq<TestResult>, sources: seq<Category>, draws: seq<Draws>)
    requires FanIn(cfg, sources) && ProducedBy(arrivals, sources, draws)
    ensures var e := EvaluationOf(FileItems([Header] + RowsOf(arrivals[..Consumed(cfg, arrivals)])));
      && e.verdict == (if TotalTests(cfg) == 0 then DivideByZeroPanic else Finished(TotalTests(cfg), 0))
      && e.reported == []
  {
    HarnessConsumesEverything(cfg, arrivals, sources, draws);
    GeneratedResultsAgree(arrivals, sources, draws);
    ConsumedFileEvaluatesClean(cfg, arrivals);
  }

  lemma ConsumedFileEvaluatesClean(cfg: Config, arrivals: seq<TestResult>)
    requires Consumed(cfg, arrivals) == |arrivals| == TotalTests(cfg)
    requires FirstMismatch(arrivals) == |arrivals|
    ensures var e := EvaluationOf(FileItems([Header] + RowsOf(arrivals[..Consumed(cfg, arrivals)])));
      && e.verdict == (if TotalTests(cfg) == 0 then DivideByZeroPanic else Finished(TotalTests(cfg), 0))
      && e.reported == []
  {
    assert arrivals[..Consumed(cfg, arrivals)] == arrivals;
    AgreeingFileEvaluatesClean(arrivals);
  }

  /** Results whose verdicts all agree evaluate with no failure and no
      mismatch line. */
  lemma AgreeingFileEvaluatesClean(results: seq<TestResult>)
    requires FirstMismatch(results) == |results|
    ensures var e := EvaluationOf(FileItems([Header] + RowsOf(results)));
      && e.verdict == (if results == [] then DivideByZeroPanic else Finished(|results|, 0))
      && e.reported == []
  {
    WrittenFileEvaluates(results);
    MismatchCountZero(results);
    NoMismatchNoReports(results);
  }

  lemma {:induction false} NoMismatchNoReports(rs: seq<TestResult>)
    requires MismatchCount(rs) == 0
    ensures MismatchReports(rs) == []
  {
    if rs != [] {
      NoMismatchNoReports(rs[..|rs| - 1]);
    }
  }

  /** The results before the first mismatch agree. */
  lemma {:induction false} AgreeingPrefix(rs: seq<TestResult>, k: nat)
    requires k <= FirstMismatch(rs)
    ensures FirstMismatch(rs[..k]) == k
  {
    assert forall j :: 0 <= j < k ==> rs[..k][j] == rs[j];
  }

  /** Up to the first mismatch, a prefix counts no failure and reports
      nothing. */
  lemma {:induction false} AgreeingPrefixClean(rs: seq<TestResult>, k: nat)
    requires k <= FirstMismatch(rs)
    ensures MismatchCount(rs[..k]) == 0 && MismatchReports(rs[..k]) == []
  {
    AgreeingPrefix(rs, k);
    MismatchCountZero(rs[..k]);
    NoMismatchNoReports(rs[..k]);
  }

  /** The prefix that ends with the first mismatch counts that one failure
      and reports that one result. */
  lemma {:induction false} MismatchEndedPrefix(rs: seq<TestResult>)
    requires FirstMismatch(rs) < |rs|
    ensures var k := FirstMismatch(rs);
      MismatchCount(rs[..k + 1]) == 1 && MismatchReports(rs[..k + 1]) == [ReportFor(rs[k])]
  {
    var k := FirstMismatch(rs);
    assert rs[..k + 1][..k] == rs[..k];
    AgreeingPrefixClean(rs, k);
  }

  /** After an `exitOnFail` exit, the explicitly flushed records are those up
      to the last flush index at or before the first mismatch. Evaluated on
      their own, they count the failing record, and only it, exactly when the
      mismatch fell on a flush index; otherwise they hold no failure. */
  lemma {:induction false} ExitFileEvaluates(cfg: Config, arrivals: seq<TestResult>)
    requires cfg.exitOnFail && FirstMismatch(arrivals) < |arrivals|
    ensures var e := EvaluationOf(FileItems([Header] + RowsOf(arrivals[..Persisted(cfg, arrivals)])));
      var fm := FirstMismatch(arrivals);
      && e.verdict == Finished(Persisted(cfg, arrivals), if FlushesAfter(fm) then 1 else 0)
      && e.reported == (if FlushesAfter(fm) then [ReportFor(arrivals[fm])] else [])
      && (HostStatus(e.verdict) == 0 <==> !FlushesAfter(fm))
  {
    PersistedBounds(cfg, arrivals);
    var p := Persisted(cfg, arrivals);
    WrittenFileEvaluates(arrivals[..p]);
    if FlushesAfter(FirstMismatch(arrivals)) {
      MismatchEndedPrefix(arrivals);
    } else {
      AgreeingPrefixClean(arrivals, p);
    }
  }

  /** The evaluation of the explicitly flushed records: on completion every
      result is counted; after an exit, only the results up to the last
      periodic flush. */
  lemma {:induction false} PersistedFileEvaluates(cfg: Config, arrivals: seq<TestResult>)
    ensures var e := EvaluationOf(FileItems([Header] + RowsOf(arrivals[..Persisted(cfg, arrivals)])));
      && (!(cfg.exitOnFail && FirstMismatch(arrivals) < |arrivals|) ==>
            && e.verdict == (if arrivals == [] then DivideByZeroPanic else Finished(|arrivals|, MismatchCount(arrivals)))
            && e.reported == MismatchReports(arrivals))
      && (cfg.exitOnFail && FirstMismatch(arrivals) < |arrivals| ==>
            var fm := FirstMismatch(arrivals);
            && e.verdict == Finished(Persisted(cfg, arrivals), if FlushesAfter(fm) then 1 else 0)
            && e.reported == (if FlushesAfter(fm) then [ReportFor(arrivals[fm])] else []))
  {
    if cfg.exitOnFail && FirstMismatch(arrivals) < |arrivals| {
      ExitFileEvaluates(cfg, arrivals);
    } else {
      assert arrivals[..Persisted(cfg, arrivals)] == arrivals;
      WrittenFileEvaluates(arrivals);
    }
  }

  /** What `-run-evals` makes of the records `RunTests` flushes explicitly,
      in terms of its postconditions. */
  lemma {:induction false} SavedFileEvaluates(cfg: Config, arrivals: seq<TestResult>, outcome: RunOutcome,
                           rows: seq<Row>, flushed: nat, flushes: seq<nat>)
    requires rows == [Header] + RowsOf(arrivals[..Consumed(cfg, arrivals)])
    requires outcome == if cfg.exitOnFail && FirstMismatch(arrivals) < |arrivals| then Exited(1) else Completed
    requires flushes == FlushPoints(Consumed(cfg, arrivals)) + (if outcome == Completed then [|rows|] else [])
    requires if flushes == [] then flushed == 0 else flushed == flushes[|flushes| - 1]
    ensures flushed <= |rows|
    ensures var e := EvaluationOf(FileItems(rows[..flushed]));
      && (outcome == Completed ==>
            && e.verdict == (if arrivals == [] then DivideByZeroPanic else Finished(|arrivals|, MismatchCount(arrivals)))
            && e.reported == MismatchReports(arrivals))
      && (outcome.Exited? ==>
            var fm := FirstMismatch(arrivals);
            && e.verdict == Finished(Persisted(cfg, arrivals), if FlushesAfter(fm) then 1 else 0)
            && e.reported == (if FlushesAfter(fm) then [ReportFor(arrivals[fm])] else []))
  {
    SavedRecords(cfg, arrivals, outcome, rows, flushed, flushes);
    PersistedFileEvaluates(cfg, arrivals);
  }
}
