/** The three places that derive one verdict from a submission's testcase rows: the model
    property, the priority order of the team and analytics SQL, and the statistics over them. */
module Verdict {
  import opened Collections

  datatype Status = AC | WA | TLE | RE | CE | MLE | SystemError

  /** The status of the first row, in order, that is not AC; AC when there is none. */
  function FirstFailure(rows: seq<Status>): Status {
    if rows == [] then AC
    else if rows[0] != AC then rows[0]
    else FirstFailure(rows[1..])
  }

  function CountOf(rows: seq<Status>, st: Status): nat {
    if rows == [] then 0 else (if rows[0] == st then 1 else 0) + CountOf(rows[1..], st)
  }

  /** Submission.status: None until evaluated, SYSTEM_ERROR when evaluated without rows. */
  function ModelStatus(evaluated: bool, rows: seq<Status>): Option<Status> {
    if !evaluated then None
    else if rows == [] then Some(SystemError)
    else Some(FirstFailure(rows))
  }

  /** Submission.passed_testcases without an explicitly set value. */
  function ModelPassed(evaluated: bool, rows: seq<Status>): nat {
    if !evaluated || rows == [] then 0 else CountOf(rows, AC)
  }

  /** The case ladder over sum(case(status = x, 1, else 0)) > 0 that both SQL builders share. */
  function Ladder(rows: seq<Status>): Status {
    if CountOf(rows, SystemError) > 0 then SystemError
    else if CountOf(rows, CE) > 0 then CE
    else if CountOf(rows, MLE) > 0 then MLE
    else if CountOf(rows, TLE) > 0 then TLE
    else if CountOf(rows, RE) > 0 then RE
    else if CountOf(rows, WA) > 0 then WA
    else AC
  }

  /** The team builder: an outer join, so a submission without rows still has a line. */
  function TeamStatus(evaluated: bool, rows: seq<Status>): Option<Status> {
    if !evaluated then None
    else if |rows| == 0 then Some(SystemError)
    else Some(Ladder(rows))
  }

  /** The analytics builder: grouped by the rows themselves, so a submission without rows is
      missing from the subquery and joins as NULL. */
  function AnalyticsStatus(rows: seq<Status>): Option<Status> {
    if rows == [] then None else Some(Ladder(rows))
  }

  // ----- the failure order of the ladder -----

  /** How soon the ladder tests for a status. */
  function Rank(st: Status): nat {
    match st
    case SystemError => 6
    case CE => 5
    case MLE => 4
    case TLE => 3
    case RE => 2
    case WA => 1
    case AC => 0
  }

  lemma {:induction false} CountPositive(rows: seq<Status>, st: Status)
    ensures CountOf(rows, st) > 0 <==> st in rows
  {
    if rows != [] {
      CountPositive(rows[1..], st);
      assert rows == [rows[0]] + rows[1..];
    }
  }

  /** The ladder picks the highest ranked status among the rows. */
  lemma LadderIsGreatest(rows: seq<Status>, st: Status)
    requires rows != []
    ensures Ladder(rows) == st <==> st in rows && forall x :: x in rows ==> Rank(x) <= Rank(st)
  {
    forall x ensures CountOf(rows, x) > 0 <==> x in rows {
      CountPositive(rows, x);
    }
    assert rows[0] in rows;
    assert Ladder(rows) in rows;
    assert forall x :: x in rows ==> Rank(x) <= Rank(Ladder(rows));
  }

  /** The ladder in words: each failure wins over those named after it. */
  lemma LadderMeans(rows: seq<Status>)
    ensures Ladder(rows) == SystemError <==> SystemError in rows
    ensures Ladder(rows) == CE <==> CE in rows && SystemError !in rows
    ensures Ladder(rows) == MLE <==> MLE in rows && CE !in rows && SystemError !in rows
    ensures Ladder(rows) == TLE <==> TLE in rows && MLE !in rows && CE !in rows && SystemError !in rows
    ensures Ladder(rows) == RE <==> RE in rows && TLE !in rows && MLE !in rows && CE !in rows && SystemError !in rows
    ensures Ladder(rows) == WA <==> WA in rows && forall x :: x in rows ==> x == WA || x == AC
    ensures Ladder(rows) == AC <==> forall x :: x in rows ==> x == AC
  {
    forall x ensures CountOf(rows, x) > 0 <==> x in rows {
      CountPositive(rows, x);
    }
  }

  /** The three verdicts of an evaluated submission with rows, and of the other two kinds. */
  lemma VerdictsMean(rows: seq<Status>)
    ensures ModelStatus(false, rows) == None && TeamStatus(false, rows) == None
    ensures ModelStatus(true, []) == TeamStatus(true, []) == Some(SystemError) && AnalyticsStatus([]) == None
    ensures rows != [] ==> ModelStatus(true, rows) == Some(FirstFailure(rows))
    ensures rows != [] ==> TeamStatus(true, rows) == AnalyticsStatus(rows) == Some(Ladder(rows))
    ensures ModelPassed(false, rows) == 0 && ModelPassed(true, rows) == multiset(rows)[AC]
  {
    CountIsMultiplicity(rows, AC);
  }

  lemma {:induction false} FirstFailureSplits(rows: seq<Status>)
    ensures FirstFailure(rows) == AC <==> forall x :: x in rows ==> x == AC
    ensures rows != [] ==> FirstFailure(rows) in rows
    ensures FirstFailure(rows) != AC ==>
              exists k :: 0 <= k < |rows| && rows[k] == FirstFailure(rows) && forall j :: 0 <= j < k ==> rows[j] == AC
  {
    if rows != [] {
      FirstFailureSplits(rows[1..]);
      forall x ensures x in rows <==> x == rows[0] || x in rows[1..] {
        assert rows == [rows[0]] + rows[1..];
      }
      assert rows[0] in rows;
      if rows[0] == AC && FirstFailure(rows[1..]) != AC {
        var k :| 0 <= k < |rows[1..]| && rows[1..][k] == FirstFailure(rows[1..])
                 && forall j :: 0 <= j < k ==> rows[1..][j] == AC;
        assert rows[k + 1] == FirstFailure(rows);
        assert forall j :: 0 < j < k + 1 ==> rows[j] == rows[1..][j - 1];
      }
    }
  }

  /** AC passes all rows and nothing else does. */
  lemma {:induction false} AcceptedIffAllPass(rows: seq<Status>)
    ensures FirstFailure(rows) == AC <==> CountOf(rows, AC) == |rows|
    ensures CountOf(rows, AC) <= |rows|
  {
    if rows != [] {
      AcceptedIffAllPass(rows[1..]);
    }
  }

  // ----- agreement -----

  /** The property and the team SQL agree on accepted and on not evaluated, for every row list. */
  lemma AgreeOnAccepted(evaluated: bool, rows: seq<Status>)
    ensures ModelStatus(evaluated, rows) == Some(AC) <==> TeamStatus(evaluated, rows) == Some(AC)
    ensures ModelStatus(evaluated, rows) == None <==> TeamStatus(evaluated, rows) == None
    ensures ModelStatus(evaluated, rows) == Some(AC)
            <==> evaluated && rows != [] && ModelPassed(evaluated, rows) == |rows|
  {
    FirstFailureSplits(rows);
    AcceptedIffAllPass(rows);
    if rows != [] {
      LadderIsGreatest(rows, AC);
      assert rows[0] in rows;
    }
  }

  /** They name the same failure exactly when no later row outranks the first failing one. */
  lemma AgreeOnFailureIff(rows: seq<Status>)
    requires rows != []
    ensures FirstFailure(rows) == Ladder(rows)
            <==> forall x :: x in rows ==> Rank(x) <= Rank(FirstFailure(rows))
  {
    FirstFailureSplits(rows);
    LadderIsGreatest(rows, FirstFailure(rows));
  }

  /** In particular when only one kind of failure occurs. */
  lemma AgreeOnOneKind(rows: seq<Status>, kind: Status)
    requires rows != [] && forall x :: x in rows ==> x == AC || x == kind
    ensures FirstFailure(rows) == Ladder(rows)
  {
    FirstFailureSplits(rows);
    AgreeOnFailureIff(rows);
  }

  /** The SQL verdict does not depend on the order in which rows are returned ... */
  lemma LadderPermutes(rows: seq<Status>, rows': seq<Status>)
    requires multiset(rows) == multiset(rows')
    ensures Ladder(rows) == Ladder(rows')
  {
    forall st ensures CountOf(rows, st) == CountOf(rows', st) {
      CountIsMultiplicity(rows, st);
      CountIsMultiplicity(rows', st);
    }
  }

  lemma {:induction false} CountIsMultiplicity(rows: seq<Status>, st: Status)
    ensures CountOf(rows, st) == multiset(rows)[st]
  {
    if rows != [] {
      CountIsMultiplicity(rows[1..], st);
      assert rows == [rows[0]] + rows[1..];
    }
  }

  /** All failing rows have one status. */
  ghost predicate OneFailure(rows: seq<Status>) {
    forall x, y :: x in rows && y in rows && x != AC && y != AC ==> x == y
  }

  /** No other order of the rows gives another first failure. */
  ghost predicate OrderFree(rows: seq<Status>) {
    forall r :: multiset(r) == multiset(rows) ==> FirstFailure(r) == FirstFailure(rows)
  }

  lemma MovedToFront(rows: seq<Status>, x: Status) returns (r: seq<Status>)
    requires x in rows && x != AC
    ensures multiset(r) == multiset(rows) && FirstFailure(r) == x
  {
    var i :| 0 <= i < |rows| && rows[i] == x;
    r := [x] + (rows[..i] + rows[i + 1..]);
    assert rows == rows[..i] + [x] + rows[i + 1..];
  }

  /** ... whereas the property's, whose relationship has no order_by, is the same in every order exactly
      when only one kind of failure occurs. */
  lemma OrderFreeIff(rows: seq<Status>)
    ensures OrderFree(rows) <==> OneFailure(rows)
  {
    if OrderFree(rows) {
      forall x, y | x in rows && y in rows && x != AC && y != AC ensures x == y {
        var r := MovedToFront(rows, x);
        var r' := MovedToFront(rows, y);
      }
    }
    if OneFailure(rows) {
      FirstFailureSplits(rows);
      forall r | multiset(r) == multiset(rows) ensures FirstFailure(r) == FirstFailure(rows) {
        FirstFailureSplits(r);
        forall x ensures x in r <==> x in rows {
          assert x in multiset(r) <==> x in multiset(rows);
        }
      }
    }
  }

  /** The smallest instance. */
  lemma PropertyDependsOnOrder()
    ensures multiset([WA, TLE]) == multiset([TLE, WA]) && !OrderFree([WA, TLE])
    ensures ModelStatus(true, [WA, TLE]) == Some(WA) && ModelStatus(true, [TLE, WA]) == Some(TLE)
  {
    assert FirstFailure([WA, TLE]) == WA && FirstFailure([TLE, WA]) == TLE;
  }

  // ----- statistics -----

  datatype Judged = Judged(evaluated: bool, rows: seq<Status>)

  /** _submission_status_count of the team builder. */
  function TeamCount(subs: seq<Judged>, st: Status): nat {
    if subs == [] then 0
    else (if subs[0].evaluated && TeamStatus(true, subs[0].rows) == Some(st) then 1 else 0) + TeamCount(subs[1..], st)
  }

  function TeamPending(subs: seq<Judged>): nat {
    if subs == [] then 0 else (if !subs[0].evaluated then 1 else 0) + TeamPending(subs[1..])
  }

  /** One verdict column of get_contest_analytics_raw. */
  function AnalyticsCount(subs: seq<Judged>, st: Status): nat {
    if subs == [] then 0
    else (if AnalyticsStatus(subs[0].rows) == Some(st) then 1 else 0) + AnalyticsCount(subs[1..], st)
  }

  /** Evaluated submissions that have no rows. */
  function Rowless(subs: seq<Judged>): nat {
    if subs == [] then 0 else (if subs[0].evaluated && subs[0].rows == [] then 1 else 0) + Rowless(subs[1..])
  }

  /** An unevaluated submission has no rows (proved for the pipeline in PipelineRows). */
  ghost predicate RowsOnlyWhenEvaluated(subs: seq<Judged>) {
    forall i :: 0 <= i < |subs| && !subs[i].evaluated ==> subs[i].rows == []
  }

  /** Where a column's members are. */
  ghost function TeamMembers(subs: seq<Judged>, st: Status): set<int> {
    set i | 0 <= i < |subs| && subs[i].evaluated
            && (if subs[i].rows == [] then st == SystemError else st == Ladder(subs[i].rows))
  }

  ghost function PendingMembers(subs: seq<Judged>): set<int> {
    set i | 0 <= i < |subs| && !subs[i].evaluated
  }

  ghost function RowlessMembers(subs: seq<Judged>): set<int> {
    set i | 0 <= i < |subs| && subs[i].evaluated && subs[i].rows == []
  }

  lemma {:induction false} ColumnsAppend(subs: seq<Judged>, s: Judged, st: Status)
    ensures TeamCount(subs + [s], st) == TeamCount(subs, st) + TeamCount([s], st)
    ensures TeamPending(subs + [s]) == TeamPending(subs) + TeamPending([s])
    ensures Rowless(subs + [s]) == Rowless(subs) + Rowless([s])
  {
    if subs == [] {
      assert subs + [s] == [s];
    } else {
      assert (subs + [s])[1..] == subs[1..] + [s];
      ColumnsAppend(subs[1..], s, st);
    }
  }

  lemma OneColumn(s: Judged, st: Status)
    ensures TeamCount([s], st)
         == if s.evaluated && (if s.rows == [] then st == SystemError else st == Ladder(s.rows)) then 1 else 0
    ensures TeamPending([s]) == if s.evaluated then 0 else 1
    ensures Rowless([s]) == if s.evaluated && s.rows == [] then 1 else 0
  {
    assert [s][1..] == [];
  }

  /** Each statistics column counts the submissions it should. */
  lemma {:induction false} TeamColumnsMean(subs: seq<Judged>, st: Status)
    ensures TeamCount(subs, st) == |TeamMembers(subs, st)| && TeamPending(subs) == |PendingMembers(subs)|
    ensures Rowless(subs) == |RowlessMembers(subs)|
  {
    hide Ladder;
    if subs != [] {
      var n := |subs| - 1;
      TeamColumnsMean(subs[..n], st);
      assert subs == subs[..n] + [subs[n]];
      ColumnsAppend(subs[..n], subs[n], st);
      OneColumn(subs[n], st);
      ReplacedSize(TeamMembers(subs[..n], st), n, n in TeamMembers(subs, st), TeamMembers(subs, st));
      ReplacedSize(PendingMembers(subs[..n]), n, n in PendingMembers(subs), PendingMembers(subs));
      ReplacedSize(RowlessMembers(subs[..n]), n, n in RowlessMembers(subs), RowlessMembers(subs));
    }
  }

  /** The team statistics put every submission in exactly one column. */
  lemma {:induction false} TeamColumnsCoverAll(subs: seq<Judged>)
    ensures |subs| == TeamPending(subs) + TeamCount(subs, AC) + TeamCount(subs, WA) + TeamCount(subs, TLE)
                      + TeamCount(subs, RE) + TeamCount(subs, CE) + TeamCount(subs, MLE) + TeamCount(subs, SystemError)
  {
    if subs != [] {
      TeamColumnsCoverAll(subs[1..]);
    }
  }

  /** The two dashboards agree on every column but one: the analytics leave out the evaluated
      submissions without rows, which the team statistics call system errors. */
  lemma {:induction false} DashboardsAgree(subs: seq<Judged>, st: Status)
    requires RowsOnlyWhenEvaluated(subs)
    ensures TeamCount(subs, st) == AnalyticsCount(subs, st) + if st == SystemError then Rowless(subs) else 0
  {
    if subs != [] {
      DashboardsAgree(subs[1..], st);
    }
  }

  /** So the analytics columns add up to the total exactly when nothing is pending or rowless. */
  lemma AnalyticsColumnsCoverAllIff(subs: seq<Judged>)
    requires RowsOnlyWhenEvaluated(subs)
    ensures |subs| == AnalyticsCount(subs, AC) + AnalyticsCount(subs, WA) + AnalyticsCount(subs, TLE)
                      + AnalyticsCount(subs, RE) + AnalyticsCount(subs, CE) + AnalyticsCount(subs, MLE)
                      + AnalyticsCount(subs, SystemError)
            <==> TeamPending(subs) == 0 && Rowless(subs) == 0
  {
    TeamColumnsCoverAll(subs);
    DashboardsAgree(subs, AC);
    DashboardsAgree(subs, WA);
    DashboardsAgree(subs, TLE);
    DashboardsAgree(subs, RE);
    DashboardsAgree(subs, CE);
    DashboardsAgree(subs, MLE);
    DashboardsAgree(subs, SystemError);
  }
}
