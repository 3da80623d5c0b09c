/** The `-run-evals` half of `main`: read `results.csv` back, skip the header,
    count the rows and the rows whose expected and actual fields differ, and
    exit with the number of differences. CSV parsing is not modelled: the file
    is the sequence of values successive `reader.Read()` calls return. */
module Evaluator {

  /** What one `reader.Read()` returns before end of file: a record's fields,
      or an error (a malformed line, or a record whose field count differs
      from the first record's). */
  datatype ReadItem = Record(fields: seq<string>) | ParseError

  /** A "did not meet expectations" line. */
  datatype Report = Report(password: string, expected: string, actual: string)

  datatype Verdict =
    | Finished(total: nat, failed: nat)  // `os.Exit(failedTests)`
    | Fatal                              // `log.Fatal`: no header, or a read error
    | ShortRecordPanic                   // `line[:len(line)-2]` on a record of fewer than two fields
    | DivideByZeroPanic                  // the pass rate `(total - failed) / total` with no data row

  /** How an evaluation ends, and the mismatch lines it printed on the way. */
  datatype Evaluation = Evaluation(verdict: Verdict, reported: seq<Report>)

  /** The status the process ends with: the mismatch count passed to
      `os.Exit`, 1 from `log.Fatal`, and 2, set by the Go runtime itself,
      after a panic. */
  function ExitStatus(v: Verdict): (status: int)
    ensures v.Finished? ==> (status == 0 <==> v.failed == 0)
    ensures !v.Finished? ==> status != 0
  {
    match v
    case Finished(_, failed) => failed
    case Fatal => 1
    case ShortRecordPanic => 2
    case DivideByZeroPanic => 2
  }

  /** The status the parent process sees, as written: the host keeps only the
      low 8 bits of the exit status. Below 256 failures it still tells
      success from failure. */
  function HostStatusAsWritten(v: Verdict): (status: int)
    ensures 0 <= status < 256
    ensures v.Finished? && v.failed < 256 ==> (status == 0 <==> v.failed == 0)
    ensures !v.Finished? ==> status != 0
  {
    ExitStatus(v) % 256
  }

  /** 256 mismatching rows exit with status 0, as if nothing had failed. */
  lemma HostStatusWraps()
    ensures ExitStatus(Finished(256, 256)) != 0
    ensures HostStatusAsWritten(Finished(256, 256)) == 0
  {
  }

  /** The status as evidently intended: the mismatch count capped at 255, so
      that every failing evaluation exits non-zero. It agrees with the program
      wherever the program's status survives the host. */
  function HostStatus(v: Verdict): (status: int)
    ensures 0 <= status < 256
    ensures v.Finished? ==> (status == 0 <==> v.failed == 0)
    ensures !v.Finished? ==> status != 0
    ensures (!v.Finished? || v.failed < 256) ==> status == HostStatusAsWritten(v)
  {
    match v
    case Finished(_, failed) => if failed < 255 then failed else 255
    case _ => ExitStatus(v)
  }

  /** `strings.ToLower` on the ASCII letters. */
  function ToLower(s: string): (r: string)
    ensures |r| == |s|
    ensures forall i :: 0 <= i < |s| ==> !('A' <= r[i] <= 'Z')
    ensures forall i :: 0 <= i < |s| && 'A' <= s[i] <= 'Z' ==> r[i] as int == s[i] as int + 32
    ensures forall i :: 0 <= i < |s| && !('A' <= s[i] <= 'Z') ==> r[i] == s[i]
  {
    seq(|s|, i requires 0 <= i < |s| => if 'A' <= s[i] <= 'Z' then (s[i] as int + 32) as char else s[i])
  }

  /** `strings.Join(parts, ",")`. */
  function JoinComma(parts: seq<string>): string {
    if parts == [] then []
    else if |parts| == 1 then parts[0]
    else JoinComma(parts[..|parts| - 1]) + "," + parts[|parts| - 1]
  }

  /** A record the loop body can take apart. */
  predicate Usable(item: ReadItem) {
    item.Record? && |item.fields| >= 2
  }

  predicate AllUsable(items: seq<ReadItem>) {
    forall k :: 0 <= k < |items| ==> Usable(items[k])
  }

  /** The expected and actual fields, the last two, differ once lower-cased. */
  predicate Mismatched(fields: seq<string>)
    requires |fields| >= 2
  {
    ToLower(fields[|fields| - 2]) != ToLower(fields[|fields| - 1])
  }

  /** The mismatch line for a record: every field but the last two joined
      with commas as the password, then the lower-cased verdicts. */
  function ReportOf(fields: seq<string>): Report
    requires |fields| >= 2
  {
    Report(JoinComma(fields[..|fields| - 2]), ToLower(fields[|fields| - 2]), ToLower(fields[|fields| - 1]))
  }

  /** Number of mismatched rows. */
  function Failed(rows: seq<ReadItem>): (n: nat)
    requires AllUsable(rows)
    ensures n <= |rows|
  {
    if rows == [] then 0
    else Failed(rows[..|rows| - 1]) + (if Mismatched(rows[|rows| - 1].fields) then 1 else 0)
  }

  /** The mismatch lines for the rows, in row order. */
  function Reports(rows: seq<ReadItem>): seq<Report>
    requires AllUsable(rows)
  {
    if rows == [] then []
    else
      var last := rows[|rows| - 1].fields;
      Reports(rows[..|rows| - 1]) + (if Mismatched(last) then [ReportOf(last)] else [])
  }

  /** Index of the first item the loop cannot get past, or `|items|`. */
  function FirstUnusable(items: seq<ReadItem>): (k: nat)
    ensures k <= |items|
    ensures forall j :: 0 <= j < k ==> Usable(items[j])
    ensures k < |items| ==> !Usable(items[k])
  {
    if items == [] || !Usable(items[0]) then 0
    else
      var k := FirstUnusable(items[1..]);
      assert forall j :: 1 <= j < k + 1 ==> items[j] == items[1..][j - 1];
      k + 1
  }

  /** What `-run-evals` does with the items of `results.csv`. */
  function EvaluationOf(items: seq<ReadItem>): Evaluation {
    if items == [] || items[0].ParseError? then Evaluation(Fatal, [])
    else
      var data := items[1..];
      var k := FirstUnusable(data);
      if k < |data| then
        Evaluation(if data[k].ParseError? then Fatal else ShortRecordPanic, Reports(data[..k]))
      else if k == 0 then Evaluation(DivideByZeroPanic, [])
      else
        assert data[..k] == data;
        Evaluation(Finished(k, Failed(data)), Reports(data))
  }

  lemma AppendUsable(items: seq<ReadItem>, pos: nat)
    requires 1 <= pos < |items| && AllUsable(items[1..pos]) && Usable(items[pos])
    ensures AllUsable(items[1..pos + 1])
    ensures Failed(items[1..pos + 1]) ==
            Failed(items[1..pos]) + (if Mismatched(items[pos].fields) then 1 else 0)
    ensures Reports(items[1..pos + 1]) ==
            Reports(items[1..pos]) + (if Mismatched(items[pos].fields) then [ReportOf(items[pos].fields)] else [])
  {
    var r := items[1..pos + 1];
    assert r[..|r| - 1] == items[1..pos];
    assert r[|r| - 1] == items[pos];
  }

  /** Where the loop stops is the first unusable data item. */
  lemma StopsAtFirstUnusable(items: seq<ReadItem>, pos: nat)
    requires 1 <= pos <= |items| && AllUsable(items[1..pos])
    requires pos < |items| ==> !Usable(items[pos])
    ensures FirstUnusable(items[1..]) == pos - 1
    ensures items[1..][..pos - 1] == items[1..pos]
  {
    assert items[1..][..pos - 1] == items[1..pos];
  }

  /** The `-run-evals` loop of `main`. */
  method Evaluate(items: seq<ReadItem>) returns (e: Evaluation)
    ensures e == EvaluationOf(items)
  {
    // The header: `reader.Read()` fails on an empty file too (io.EOF).
    if |items| == 0 || items[0].ParseError? {
      e := Evaluation(Fatal, []);
      return;
    }
    var pos := 1;
    var eof := pos == |items|;
    if !eof && items[pos].ParseError? {
      StopsAtFirstUnusable(items, pos);
      e := Evaluation(Fatal, []);
      return;
    }
    var failedTests := 0;
    var totalOfTests := 0;
    var reported: seq<Report> := [];
    while !eof
      invariant 1 <= pos <= |items|
      invariant eof <==> pos == |items|
      invariant !eof ==> items[pos].Record?
      invariant totalOfTests == pos - 1
      invariant AllUsable(items[1..pos])
      invariant failedTests == Failed(items[1..pos])
      invariant reported == Reports(items[1..pos])
      decreases |items| - pos
    {
      var line := items[pos].fields;
      if |line| < 2 {
        StopsAtFirstUnusable(items, pos);
        e := Evaluation(ShortRecordPanic, reported);
        return;
      }
      AppendUsable(items, pos);
      var password := JoinComma(line[..|line| - 2]);
      var expected := ToLower(line[|line| - 2]);
      var actual := ToLower(line[|line| - 1]);
      if expected != actual {
        reported := reported + [Report(password, expected, actual)];
        failedTests := failedTests + 1;
      }
      totalOfTests := totalOfTests + 1;
      pos := pos + 1;
      eof := pos == |items|;
      if !eof && items[pos].ParseError? {
        StopsAtFirstUnusable(items, pos);
        e := Evaluation(Fatal, reported);
        return;
      }
    }
    StopsAtFirstUnusable(items, pos);
    if totalOfTests == 0 {
      e := Evaluation(DivideByZeroPanic, []);
      return;
    }
    assert items[1..pos] == items[1..];
    e := Evaluation(Finished(totalOfTests, failedTests), reported);
  }

  /** A file whose header reads and whose every data record has at least
      two fields is evaluated completely: one row per data record, the
      mismatches counted and reported, or a panic when there is no row. */
  lemma WellFormedFileEvaluates(items: seq<ReadItem>)
    requires items != [] && items[0].Record? && AllUsable(items[1..])
    ensures EvaluationOf(items) ==
            if |items| == 1 then Evaluation(DivideByZeroPanic, [])
            else Evaluation(Finished(|items| - 1, Failed(items[1..])), Reports(items[1..]))
  {
    assert items[1..|items|] == items[1..];
    StopsAtFirstUnusable(items, |items|);
  }

  // ---------------------------------------------------------------------
  // The pass rate printed after the loop

  /** The pass rate as written: `(totalOfTests - failedTests) / totalOfTests`
      is a Go integer division (both operands are non-negative here, so it
      agrees with Dafny's), converted to a float only afterwards. */
  function PassRateAsWritten(total: nat, failed: nat): (rate: int)
    requires 0 < total && failed <= total
    ensures rate == if failed == 0 then 100 else 0
  {
    (total - failed) / total * 100
  }

  /** With one failure out of three the printed rate is 0%, although two
      thirds of the tests passed. */
  lemma PassRateAsWrittenTruncates()
    ensures PassRateAsWritten(3, 1) == 0
    ensures PassPercent(3, 1) > 66.0
  {
  }

  /** The pass rate as evidently intended: passing tests over all tests, in
      percent. */
  function PassPercent(total: nat, failed: nat): (rate: real)
    requires 0 < total && failed <= total
    ensures 0.0 <= rate <= 100.0
    ensures rate == 100.0 <==> failed == 0
    ensures rate == 0.0 <==> failed == total
  {
    (total - failed) as real * 100.0 / total as real
  }

  /** The pass rate of a finished evaluation. */
  function PassRate(e: Evaluation): (rate: real)
    requires e.verdict.Finished? && 0 < e.verdict.total && e.verdict.failed <= e.verdict.total
    ensures rate == 100.0 <==> HostStatus(e.verdict) == 0
  {
    PassPercent(e.verdict.total, e.verdict.failed)
  }

  /** Every counted failure is reported, and only those. */
  lemma {:induction false} ReportsMatchFailures(rows: seq<ReadItem>)
    requires AllUsable(rows)
    ensures |Reports(rows)| == Failed(rows)
    ensures Failed(rows) == 0 <==> forall k :: 0 <= k < |rows| ==> !Mismatched(rows[k].fields)
  {
    if rows != [] {
      var init := rows[..|rows| - 1];
      assert forall k :: 0 <= k < |init| ==> init[k] == rows[k];
      ReportsMatchFailures(init);
    }
  }

  /** A finished evaluation succeeds exactly when no row mismatched: its
      `os.Exit` argument and its corrected status are 0 exactly then, and so
      are the printed and the corrected pass rates 100. */
  lemma SuccessIffNoMismatch(items: seq<ReadItem>)
    requires EvaluationOf(items).verdict.Finished?
    ensures ExitStatus(EvaluationOf(items).verdict) == 0 <==>
            forall k :: 1 <= k < |items| ==> !Mismatched(items[k].fields)
    ensures HostStatus(EvaluationOf(items).verdict) == 0 <==>
            forall k :: 1 <= k < |items| ==> !Mismatched(items[k].fields)
    ensures EvaluationOf(items).verdict.total == |items| - 1
    ensures 0 < EvaluationOf(items).verdict.total
    ensures EvaluationOf(items).verdict.failed <= EvaluationOf(items).verdict.total
    ensures PassRateAsWritten(EvaluationOf(items).verdict.total, EvaluationOf(items).verdict.failed) == 100 <==>
            HostStatus(EvaluationOf(items).verdict) == 0
    ensures PassRate(EvaluationOf(items)) == 100.0 <==> HostStatus(EvaluationOf(items).verdict) == 0
  {
    var data := items[1..];
    assert FirstUnusable(data) == |data|;
    assert data[..|data|] == data;
    ReportsMatchFailures(data);
    assert forall k :: 1 <= k < |items| ==> items[k] == data[k - 1];
  }
}
