/** From Judge0 results to rows and a verdict: build_evaluation_result, the alignment PERSIST
    performs before it, and what the two attribute to each testcase. */
module Evaluation {
  import opened Collections
  import opened Judge0Repository
  import opened Verdict

  datatype TestcaseId = TestcaseId(id: nat)
  datatype Testcase = Testcase(id: TestcaseId, input: string, output: string, isOrdered: bool, weight: int)
  datatype TokenEntry = TokenEntry(token: Option<Token>, testcase: TestcaseId)

  /** One SubmissionTestCase row (stderr aside). */
  datatype Row = Row(testcase: TestcaseId, token: Option<Token>, status: Status, stdout: Option<string>,
                     time: Option<int>, memory: Option<int>)

  datatype EvaluationResult = EvaluationResult(
    status: Status, passed: nat, total: nat, totalTime: int, totalMemory: int, rows: seq<Row>)

  /** The execution strategy's comparison of stdout with a testcase. */
  type Strategy = (Option<string>, Testcase) -> bool

  // ----- one testcase -----

  /** JUDGE0_TO_SUBMISSION_STATUS; queued, processing, missing and unknown ids are absent from it. */
  function MapStatus(statusId: Option<int>): Status {
    match statusId
    case None => SystemError
    case Some(n) =>
      if n == 3 then AC
      else if n == 4 then WA
      else if n == 5 then TLE
      else if n == 6 then CE
      else if 7 <= n <= 12 || n == 14 then RE
      else SystemError
  }

  /** The poller's _is_terminal: a known status other than queued (1) and processing (2). */
  predicate IsTerminal(result: Judge0Result) {
    result.statusId.Some? && 3 <= result.statusId.value <= 14
  }

  function Missing(timedOut: bool): Status {
    if timedOut then TLE else SystemError
  }

  function ResultOf(results: map<Token, Judge0Result>, token: Option<Token>): Option<Judge0Result> {
    if Usable(token) && token.value in results then Some(results[token.value]) else None
  }

  /** Judge0 reports something for the token. */
  predicate Reported(results: map<Token, Judge0Result>, token: Option<Token>) {
    token.Some? && token.value != "" && token.value in results
  }

  /** Python's int() on a float. */
  function Truncate(x: real): (r: int)
    ensures x >= 0.0 ==> r as real <= x < r as real + 1.0
    ensures x <= 0.0 ==> r as real - 1.0 < x <= r as real
  {
    if x >= 0.0 then x.Floor else -(-x).Floor
  }

  function Judge(result: Judge0Result, testcase: Testcase, passes: Strategy): Status {
    var st := MapStatus(result.statusId);
    if st == AC && !passes(result.stdout, testcase) then WA else st
  }

  /** The row of one testcase: a function of that testcase and of its own token's result only. */
  function RowFor(testcase: Testcase, token: Option<Token>, results: map<Token, Judge0Result>,
                  timedOut: bool, passes: Strategy): Row
  {
    match ResultOf(results, token)
    case None => Row(testcase.id, token, Missing(timedOut), None, None, None)
    case Some(result) =>
      var ms := if result.time.Some? then Some(Truncate(result.time.value * 1000.0)) else None;
      Row(testcase.id, token, Judge(result, testcase, passes), result.stdout, ms, result.memory)
  }

  /** Judge0's word decides: a testcase passes exactly when Judge0 accepted it and the output
      compares equal, and SYSTEM_ERROR is left for what is not finished, unknown or Judge0's own
      internal error (13). */
  lemma JudgedBy(result: Judge0Result, testcase: Testcase, passes: Strategy)
    ensures Judge(result, testcase, passes) == AC <==> result.statusId == Some(3) && passes(result.stdout, testcase)
    ensures Judge(result, testcase, passes) == SystemError <==> !IsTerminal(result) || result.statusId == Some(13)
  {
  }

  // ----- aggregation -----

  function RowsFor(testcases: seq<Testcase>, tokens: seq<Option<Token>>, results: map<Token, Judge0Result>,
                   timedOut: bool, passes: Strategy): (rows: seq<Row>)
    requires |testcases| == |tokens|
    ensures |rows| == |testcases|
    ensures forall i :: 0 <= i < |rows| ==> rows[i] == RowFor(testcases[i], tokens[i], results, timedOut, passes)
  {
    seq(|testcases|, i requires 0 <= i < |testcases| => RowFor(testcases[i], tokens[i], results, timedOut, passes))
  }

  function Statuses(rows: seq<Row>): (r: seq<Status>)
    ensures |r| == |rows| && forall i :: 0 <= i < |rows| ==> r[i] == rows[i].status
  {
    seq(|rows|, i requires 0 <= i < |rows| => rows[i].status)
  }

  /** The seconds and kilobytes a token's result reports; nothing reported counts as 0. */
  function TimeOf(token: Option<Token>, results: map<Token, Judge0Result>): real {
    var result := ResultOf(results, token);
    if result.Some? && result.value.time.Some? then result.value.time.value else 0.0
  }

  function MemoryOf(token: Option<Token>, results: map<Token, Judge0Result>): int {
    var result := ResultOf(results, token);
    if result.Some? && result.value.memory.Some? then result.value.memory.value else 0
  }

  /** x is the longest time among the tokens, and 0 when none is positive. */
  ghost predicate IsLongest(x: real, tokens: seq<Option<Token>>, results: map<Token, Judge0Result>) {
    && x >= 0.0
    && (forall i :: 0 <= i < |tokens| ==> TimeOf(tokens[i], results) <= x)
    && (x == 0.0 || exists i :: 0 <= i < |tokens| && TimeOf(tokens[i], results) == x)
  }

  ghost predicate IsLargest(x: int, tokens: seq<Option<Token>>, results: map<Token, Judge0Result>) {
    && x >= 0
    && (forall i :: 0 <= i < |tokens| ==> MemoryOf(tokens[i], results) <= x)
    && (x == 0 || exists i :: 0 <= i < |tokens| && MemoryOf(tokens[i], results) == x)
  }

  lemma LongestAppend(x: real, tokens: seq<Option<Token>>, token: Option<Token>, results: map<Token, Judge0Result>)
    requires IsLongest(x, tokens, results)
    ensures IsLongest(if TimeOf(token, results) > x then TimeOf(token, results) else x, tokens + [token], results)
  {
    hide TimeOf;
    var all := tokens + [token];
    assert all[|tokens|] == token;
    forall i | 0 <= i < |tokens| ensures all[i] == tokens[i] {
    }
    if x != 0.0 {
      var i :| 0 <= i < |tokens| && TimeOf(tokens[i], results) == x;
      assert TimeOf(all[i], results) == x;
    }
  }

  lemma LargestAppend(x: int, tokens: seq<Option<Token>>, token: Option<Token>, results: map<Token, Judge0Result>)
    requires IsLargest(x, tokens, results)
    ensures IsLargest(if MemoryOf(token, results) > x then MemoryOf(token, results) else x, tokens + [token], results)
  {
    hide MemoryOf;
    var all := tokens + [token];
    assert all[|tokens|] == token;
    forall i | 0 <= i < |tokens| ensures all[i] == tokens[i] {
    }
    if x != 0 {
      var i :| 0 <= i < |tokens| && MemoryOf(tokens[i], results) == x;
      assert MemoryOf(all[i], results) == x;
    }
  }

  lemma RowsAppend(testcases: seq<Testcase>, tokens: seq<Option<Token>>, i: nat,
                   results: map<Token, Judge0Result>, timedOut: bool, passes: Strategy)
    requires |testcases| == |tokens| && i < |testcases|
    ensures RowsFor(testcases[..i + 1], tokens[..i + 1], results, timedOut, passes)
         == RowsFor(testcases[..i], tokens[..i], results, timedOut, passes)
            + [RowFor(testcases[i], tokens[i], results, timedOut, passes)]
  {
    hide RowFor;
  }

  lemma StatusesAppend(rows: seq<Row>, row: Row)
    ensures Statuses(rows + [row]) == Statuses(rows) + [row.status]
    ensures FirstFailure(Statuses(rows + [row]))
         == if FirstFailure(Statuses(rows)) == AC then row.status else FirstFailure(Statuses(rows))
    ensures CountOf(Statuses(rows + [row]), AC) == CountOf(Statuses(rows), AC) + if row.status == AC then 1 else 0
  {
    FirstFailureAppend(Statuses(rows), row.status);
    CountAppend(Statuses(rows), row.status, AC);
    assert Statuses(rows + [row]) == Statuses(rows) + [row.status];
  }

  lemma {:induction false} FirstFailureAppend(rows: seq<Status>, st: Status)
    ensures FirstFailure(rows + [st]) == if FirstFailure(rows) == AC then st else FirstFailure(rows)
  {
    if rows != [] {
      FirstFailureAppend(rows[1..], st);
      assert (rows + [st])[1..] == rows[1..] + [st];
    } else {
      assert [st][1..] == [];
    }
  }

  lemma {:induction false} CountAppend(rows: seq<Status>, st: Status, x: Status)
    ensures CountOf(rows + [st], x) == CountOf(rows, x) + if st == x then 1 else 0
  {
    if rows != [] {
      CountAppend(rows[1..], st, x);
      assert (rows + [st])[1..] == rows[1..] + [st];
    } else {
      assert [st][1..] == [];
    }
  }

  /** What a row says, from Judge0's report and the strategy. */
  ghost predicate RowSays(row: Row, testcase: Testcase, token: Option<Token>, results: map<Token, Judge0Result>,
                          timedOut: bool, passes: Strategy)
  {
    && row.testcase == testcase.id && row.token == token
    && (!Reported(results, token) ==>
          row == Row(testcase.id, token, if timedOut then TLE else SystemError, None, None, None))
    && (Reported(results, token) ==>
          var report := results[token.value];
          var id := if report.statusId.Some? then report.statusId.value else 0;
          && (row.status == AC <==> id == 3 && passes(report.stdout, testcase))
          && (row.status == WA <==> id == 4 || (id == 3 && !passes(report.stdout, testcase)))
          && (row.status == TLE <==> id == 5) && (row.status == CE <==> id == 6)
          && (row.status == RE <==> 7 <= id <= 12 || id == 14)
          && (row.status == SystemError <==> id < 3 || id == 13 || id > 14) && row.status != MLE
          && row.stdout == report.stdout && row.memory == report.memory
          && (row.time.Some? <==> report.time.Some?)
          && (report.time.Some? ==> row.time == Some(Truncate(report.time.value * 1000.0))))
  }

  lemma RowMeans(testcase: Testcase, token: Option<Token>, results: map<Token, Judge0Result>, timedOut: bool,
                 passes: Strategy)
    ensures RowSays(RowFor(testcase, token, results, timedOut, passes), testcase, token, results, timedOut, passes)
  {
    hide Truncate;
  }

  lemma SameRow(testcases: seq<Testcase>, tokens: seq<Option<Token>>, i: nat, n: nat, results: map<Token, Judge0Result>,
                timedOut: bool, passes: Strategy)
    requires i < n <= |testcases| && n <= |tokens|
    ensures RowsFor(testcases[..n], tokens[..n], results, timedOut, passes)[i]
         == RowFor(testcases[i], tokens[i], results, timedOut, passes)
  {
  }

  lemma RowReports(testcase: Testcase, token: Option<Token>, results: map<Token, Judge0Result>, timedOut: bool,
                   passes: Strategy)
    ensures var row := RowFor(testcase, token, results, timedOut, passes);
            && (row.time.Some? ==> row.time == Some(Truncate(TimeOf(token, results) * 1000.0)))
            && (row.time.None? ==> TimeOf(token, results) == 0.0)
            && if row.memory.Some? then row.memory.value == MemoryOf(token, results) else MemoryOf(token, results) == 0
  {
    hide Truncate;
  }

  /** The greatest time and memory of the tokens are those of the rows. */
  lemma TotalsMean(rows: seq<Row>, testcases: seq<Testcase>, tokens: seq<Option<Token>>,
                   results: map<Token, Judge0Result>, timedOut: bool, passes: Strategy, peak: real, largest: int)
    requires |testcases| == |tokens| && rows == RowsFor(testcases, tokens, results, timedOut, passes)
    requires IsLongest(peak, tokens, results) && IsLargest(largest, tokens, results)
    ensures forall i :: 0 <= i < |rows| && rows[i].time.Some? ==> rows[i].time.value <= Truncate(peak * 1000.0)
    ensures forall i :: 0 <= i < |rows| && rows[i].memory.Some? ==> rows[i].memory.value <= largest
    ensures var total := Truncate(peak * 1000.0);
            total >= 0 && (total == 0 || exists i :: 0 <= i < |rows| && rows[i].time == Some(total))
    ensures largest >= 0 && (largest == 0 || exists i :: 0 <= i < |rows| && rows[i].memory == Some(largest))
  {
    hide Truncate, RowFor, TimeOf, MemoryOf;
    forall i | 0 <= i < |rows|
      ensures rows[i].time.Some? ==> rows[i].time == Some(Truncate(TimeOf(tokens[i], results) * 1000.0))
      ensures rows[i].time.None? ==> TimeOf(tokens[i], results) == 0.0
      ensures if rows[i].memory.Some? then rows[i].memory.value == MemoryOf(tokens[i], results)
              else MemoryOf(tokens[i], results) == 0
      ensures rows[i].time.Some? ==> rows[i].time.value <= Truncate(peak * 1000.0)
    {
      RowReports(testcases[i], tokens[i], results, timedOut, passes);
      TruncateGrows(TimeOf(tokens[i], results) * 1000.0, peak * 1000.0);
    }
    TruncateGrows(0.0, peak * 1000.0);
    TruncateZero();
    if peak != 0.0 {
      var i :| 0 <= i < |tokens| && TimeOf(tokens[i], results) == peak;
      assert rows[i].time == Some(Truncate(peak * 1000.0));
    }
    if largest != 0 {
      var i :| 0 <= i < |tokens| && MemoryOf(tokens[i], results) == largest;
      assert rows[i].memory == Some(largest);
    }
  }

  lemma TruncateZero()
    ensures Truncate(0.0) == 0
  {
  }

  lemma TruncateGrows(x: real, y: real)
    requires x <= y
    ensures Truncate(x) <= Truncate(y)
  {
  }

  function Shorter(a: nat, b: nat): nat { if a < b then a else b }

  lemma Prefixes<T>(q: seq<T>, i: nat, n: nat)
    requires i < n <= |q|
    ensures q[..n][..i] == q[..i] && q[..n][..i + 1] == q[..i + 1]
  {
  }

  lemma NothingYet(results: map<Token, Judge0Result>, timedOut: bool, passes: Strategy)
    ensures RowsFor([], [], results, timedOut, passes) == []
    ensures FirstFailure(Statuses([])) == AC && CountOf(Statuses([]), AC) == 0
    ensures IsLongest(0.0, [], results) && IsLargest(0, [], results)
  {
    assert Statuses([]) == [];
  }

  /** build_evaluation_result. The loop zips, so the shorter list decides; PERSIST passes lists of
      one length. */
  method BuildEvaluationResult(testcases: seq<Testcase>, tokens: seq<Option<Token>>,
                               results: map<Token, Judge0Result>, timedOut: bool, passes: Strategy)
    returns (r: EvaluationResult)
    ensures |r.rows| <= |testcases| && |r.rows| <= |tokens| && (|r.rows| == |testcases| || |r.rows| == |tokens|)
    ensures forall i :: 0 <= i < |r.rows| ==> RowSays(r.rows[i], testcases[i], tokens[i], results, timedOut, passes)
    ensures forall i :: 0 <= i < |r.rows| && r.rows[i].time.Some? ==> r.rows[i].time.value <= r.totalTime
    ensures forall i :: 0 <= i < |r.rows| && r.rows[i].memory.Some? ==> r.rows[i].memory.value <= r.totalMemory
    ensures r.totalTime >= 0
            && (r.totalTime == 0 || exists i :: 0 <= i < |r.rows| && r.rows[i].time == Some(r.totalTime))
    ensures r.totalMemory >= 0
            && (r.totalMemory == 0 || exists i :: 0 <= i < |r.rows| && r.rows[i].memory == Some(r.totalMemory))
    ensures var n := Shorter(|testcases|, |tokens|);
            && r.rows == RowsFor(testcases[..n], tokens[..n], results, timedOut, passes)
            && (exists peak :: IsLongest(peak, tokens[..n], results) && r.totalTime == Truncate(peak * 1000.0))
            && IsLargest(r.totalMemory, tokens[..n], results)
    ensures r.status == FirstFailure(Statuses(r.rows))
    ensures r.passed == CountOf(Statuses(r.rows), AC) && r.total == |testcases|
  {
    hide Statuses, RowsFor, IsLongest, IsLargest, CountOf, FirstFailure, RowSays;
    var maxTime := 0.0;
    var maxMemory := 0;
    var passed: nat := 0;
    var rows: seq<Row> := [];
    var final := AC;
    var missing := Missing(timedOut);
    var n := Shorter(|testcases|, |tokens|);
    NothingYet(results, timedOut, passes);
    for i := 0 to n
      invariant rows == RowsFor(testcases[..i], tokens[..i], results, timedOut, passes)
      invariant final == FirstFailure(Statuses(rows)) && passed == CountOf(Statuses(rows), AC)
      invariant IsLongest(maxTime, tokens[..i], results) && IsLargest(maxMemory, tokens[..i], results)
      invariant maxTime >= 0.0 && maxMemory >= 0
    {
      var testcase, token := testcases[i], tokens[i];
      var result := ResultOf(results, token);
      RowsAppend(testcases[..n], tokens[..n], i, results, timedOut, passes);
      Prefixes(testcases, i, n);
      Prefixes(tokens, i, n);
      LongestAppend(maxTime, tokens[..i], token, results);
      LargestAppend(maxMemory, tokens[..i], token, results);
      assert tokens[..i + 1] == tokens[..i] + [token];
      StatusesAppend(rows, RowFor(testcase, token, results, timedOut, passes));
      match result {
        case None =>
          if final == AC {
            final := missing;
          }
          rows := rows + [Row(testcase.id, token, missing, None, None, None)];
        case Some(result) =>
          var st := MapStatus(result.statusId);
          if st == AC && !passes(result.stdout, testcase) {
            st := WA;
          }
          if result.time.Some? {
            maxTime := if result.time.value > maxTime then result.time.value else maxTime;
          }
          if result.memory.Some? {
            maxMemory := if result.memory.value > maxMemory then result.memory.value else maxMemory;
          }
          var ms := if result.time.Some? then Some(Truncate(result.time.value * 1000.0)) else None;
          rows := rows + [Row(testcase.id, token, st, result.stdout, ms, result.memory)];
          if st == AC {
            passed := passed + 1;
          } else if final == AC {
            final := st;
          }
      }
    }
    r := EvaluationResult(final, passed, |testcases|, Truncate(maxTime * 1000.0), maxMemory, rows);
    forall i | 0 <= i < n
      ensures RowSays(r.rows[i], testcases[i], tokens[i], results, timedOut, passes)
    {
      RowMeans(testcases[i], tokens[i], results, timedOut, passes);
      SameRow(testcases, tokens, i, n, results, timedOut, passes);
    }
    TotalsMean(rows, testcases[..n], tokens[..n], results, timedOut, passes, maxTime, maxMemory);
  }
}
