/** Team standings: the averaged team score, the paged leaderboard, and one team's windowed rank. */
module Ranking {
  import opened Collections
  import opened MemberScores

  /** name is the team's name by its place in the collation; eligible means CONFIRMED and APPROVED. */
  datatype Team = Team(id: TeamId, name: int, eligible: bool, accepted: seq<MemberId>)

  // ----- the team score -----

  /** The scores of the progress rows that join to one accepted member, or to the NULL row an outer
      join keeps for a team without any. */
  function Joined(rows: seq<Progress>, team: TeamId, member: Option<MemberId>, leaderOnly: bool): seq<int> {
    if rows == [] then []
    else
      var row := rows[|rows| - 1];
      var matches := row.team == team
          && (if leaderOnly then row.member == None else member.Some? && row.member == member);
      Joined(rows[..|rows| - 1], team, member, leaderOnly) + if matches then [row.score] else []
  }

  function JoinedAll(rows: seq<Progress>, team: TeamId, members: seq<Option<MemberId>>, leaderOnly: bool): seq<int> {
    if members == [] then []
    else
      var n := |members| - 1;
      JoinedAll(rows, team, members[..n], leaderOnly) + Joined(rows, team, members[n], leaderOnly)
  }

  function OuterMembers(accepted: seq<MemberId>): (r: seq<Option<MemberId>>)
    ensures accepted != [] ==> |r| == |accepted| && forall i :: 0 <= i < |r| ==> r[i] == Some(accepted[i])
  {
    if accepted == [] then [None] else seq(|accepted|, i requires 0 <= i < |accepted| => Some(accepted[i]))
  }

  /** ROUND of a quotient: to nearest, halves away from zero. */
  function RoundedQuotient(a: int, n: nat): int
    requires n > 0
  {
    if a >= 0 then (2 * a + n) / (2 * n) else -((2 * -a + n) / (2 * n))
  }

  /** The nearest integer to a / n, and of two equally near ones that further from zero. */
  lemma RoundedIsNearest(a: int, n: nat)
    requires n > 0
    ensures var off := 2 * (n * RoundedQuotient(a, n)) - 2 * a;
            0 <= off + n <= 2 * n && (a >= 0 ==> off + n > 0) && (a < 0 ==> off < n)
  {
    var m := if a >= 0 then 2 * a + n else 2 * -a + n;
    var q := m / (2 * n);
    assert q * (2 * n) <= m < q * (2 * n) + 2 * n;
    assert q * (2 * n) == 2 * (n * q);
    assert n * -q == -(n * q);
  }

  /** COALESCE(ROUND(AVG(score)), 0) */
  function TeamScore(rows: seq<Progress>, team: Team, leaderOnly: bool): int {
    var scores := JoinedAll(rows, team.id, OuterMembers(team.accepted), leaderOnly);
    if scores == [] then 0 else RoundedQuotient(Sum(scores), |scores|)
  }

  lemma RoundedMultiple(x: int, n: nat)
    requires n > 0
    ensures RoundedQuotient(n * x, n) == x
  {
    if x >= 0 {
      QuotientIs(2 * (n * x) + n, 2 * n, x, n);
    } else {
      QuotientIs(2 * (n * -x) + n, 2 * n, -x, n);
      assert -(n * x) == n * -x;
    }
  }

  lemma QuotientIs(a: int, d: nat, q: int, r: int)
    requires 0 <= r < d && a == d * q + r
    ensures a / d == q
  {
    assert a / d * d <= a < a / d * d + d;
    assert d * q == q * d;
    Scale(a / d, q + 1, d);
    Scale(q - 1, a / d, d);
  }

  lemma Scale(x: int, y: int, d: nat)
    ensures x >= y ==> x * d >= y * d
  {
  }

  lemma {:induction false} SumConstant(xs: seq<int>, x: int)
    requires forall i :: 0 <= i < |xs| ==> xs[i] == x
    ensures Sum(xs) == |xs| * x
  {
    if xs != [] {
      SumConstant(xs[..|xs| - 1], x);
      assert |xs| * x == (|xs| - 1) * x + x;
    }
  }

  /** What one member joins to: nothing without a row of its own, and that row's score with it. */
  lemma {:induction false} JoinedOne(rows: seq<Progress>, team: TeamId, member: Option<MemberId>, leaderOnly: bool)
    requires OneRowEach(rows)
    ensures var key := if leaderOnly then None else member;
            && (forall i :: 0 <= i < |rows| && rows[i].team == team && rows[i].member == key
                            && (leaderOnly || member.Some?)
                  ==> Joined(rows, team, member, leaderOnly) == [rows[i].score])
            && (!HasRow(rows, team, key) ==> Joined(rows, team, member, leaderOnly) == [])
            && (!leaderOnly && member.None? ==> Joined(rows, team, member, leaderOnly) == [])
  {
    if rows != [] {
      var n := |rows| - 1;
      var key := if leaderOnly then None else member;
      JoinedOne(rows[..n], team, member, leaderOnly);
      if HasRow(rows[..n], team, key) {
        var i :| 0 <= i < n && rows[..n][i].team == team && rows[..n][i].member == key;
        assert rows[i].team == team && rows[i].member == key;
      }
      if rows[n].team == team && rows[n].member == key {
        assert HasRow(rows, team, key);
        forall i | 0 <= i < n ensures !(rows[..n][i].team == team && rows[..n][i].member == key) {
          assert rows[..n][i] == rows[i];
        }
      }
    }
  }

  lemma {:induction false} JoinedSame(rows: seq<Progress>, team: TeamId, members: seq<Option<MemberId>>, k: nat)
    requires OneRowEach(rows) && k < |rows| && rows[k].team == team && rows[k].member == None
    ensures var scores := JoinedAll(rows, team, members, true);
            |scores| == |members| && forall i :: 0 <= i < |scores| ==> scores[i] == rows[k].score
  {
    if members != [] {
      JoinedSame(rows, team, members[..|members| - 1], k);
      JoinedOne(rows, team, members[|members| - 1], true);
    }
  }

  /** LEADER_ONLY: the one team-level row joins to every accepted member, and the average is its
      score for any number of them, none included. */
  lemma LeaderOnlyScore(rows: seq<Progress>, team: Team, k: nat)
    requires OneRowEach(rows) && k < |rows| && rows[k].team == team.id && rows[k].member == None
    ensures TeamScore(rows, team, true) == rows[k].score
  {
    var scores := JoinedAll(rows, team.id, OuterMembers(team.accepted), true);
    JoinedSame(rows, team.id, OuterMembers(team.accepted), k);
    SumConstant(scores, rows[k].score);
    RoundedMultiple(rows[k].score, |scores|);
  }

  /** Once the leader's submissions have been recomputed, the leaderboard shows their total. */
  lemma LeaderOnlyShown(rows: seq<Progress>, subs: seq<Scored>, team: Team, m: MemberId, accepted: seq<MemberId>)
    requires OneRowEach(rows)
    ensures TeamScore(Recomputed(rows, subs, team.id, m, accepted, true), team, true) == Total(subs, m)
  {
    hide Recomputed, TeamScore, Total;
    var rows' := Recomputed(rows, subs, team.id, m, accepted, true);
    RecomputeFacts(rows, subs, team.id, m, accepted, true);
    LeaderOnlyRecompute(rows, subs, team.id, m, accepted);
    var k :| 0 <= k < |rows'| && rows'[k] == Progress(team.id, None, Total(subs, m));
    LeaderOnlyScore(rows', team, k);
  }

  lemma {:induction false} JoinedEach(rows: seq<Progress>, team: TeamId, members: seq<Option<MemberId>>,
                                      scores: seq<int>)
    requires OneRowEach(rows) && |scores| == |members|
    requires forall i :: 0 <= i < |members| ==> members[i].Some? && RowHolds(rows, team, members[i], scores[i])
    ensures JoinedAll(rows, team, members, false) == scores
  {
    hide Joined;
    if members != [] {
      var n := |members| - 1;
      JoinedEach(rows, team, members[..n], scores[..n]);
      JoinedOne(rows, team, members[n], false);
      assert RowHolds(rows, team, members[n], scores[n]);
      assert scores == scores[..n] + [scores[n]];
    }
  }

  ghost predicate RowHolds(rows: seq<Progress>, team: TeamId, member: Option<MemberId>, score: int) {
    exists i :: 0 <= i < |rows| && rows[i].team == team && rows[i].member == member && rows[i].score == score
  }

  /** INDIVIDUAL_WORKSPACE: once every accepted member has a row the average has them all, and no
      one else, in its denominator. */
  lemma IndividualScore(rows: seq<Progress>, team: Team, scores: seq<int>)
    requires OneRowEach(rows) && team.accepted != [] && |scores| == |team.accepted|
    requires forall i :: 0 <= i < |scores| ==> RowHolds(rows, team.id, Some(team.accepted[i]), scores[i])
    ensures TeamScore(rows, team, false) == RoundedQuotient(Sum(scores), |team.accepted|)
  {
    JoinedEach(rows, team.id, OuterMembers(team.accepted), scores);
  }

  /** Members without a row are left out of the average: the scores of two groups of members, side by side. */
  lemma {:induction false} JoinedSplits(rows: seq<Progress>, team: TeamId, a: seq<Option<MemberId>>,
                                        b: seq<Option<MemberId>>, leaderOnly: bool)
    ensures JoinedAll(rows, team, a + b, leaderOnly)
         == JoinedAll(rows, team, a, leaderOnly) + JoinedAll(rows, team, b, leaderOnly)
  {
    if b == [] {
      assert a + b == a;
    } else {
      JoinedSplits(rows, team, a, b[..|b| - 1], leaderOnly);
      assert (a + b)[..|a + b| - 1] == a + b[..|b| - 1];
    }
  }

  /** A team without progress rows has score 0, whoever its members are. */
  lemma UnscoredTeam(rows: seq<Progress>, team: Team, leaderOnly: bool)
    requires OneRowEach(rows) && forall i :: 0 <= i < |rows| ==> rows[i].team != team.id
    ensures TeamScore(rows, team, leaderOnly) == 0
  {
    NothingJoins(rows, team.id, OuterMembers(team.accepted), leaderOnly);
  }

  lemma {:induction false} NothingJoins(rows: seq<Progress>, team: TeamId, members: seq<Option<MemberId>>,
                                        leaderOnly: bool)
    requires OneRowEach(rows) && forall i :: 0 <= i < |rows| ==> rows[i].team != team
    ensures JoinedAll(rows, team, members, leaderOnly) == []
  {
    if members != [] {
      NothingJoins(rows, team, members[..|members| - 1], leaderOnly);
      JoinedOne(rows, team, members[|members| - 1], leaderOnly);
    }
  }

  // ----- standings -----

  datatype Entry = Entry(id: TeamId, name: int, score: int)

  function Entries(teams: seq<Team>, rows: seq<Progress>, leaderOnly: bool): seq<Entry> {
    if teams == [] then []
    else
      var team := teams[|teams| - 1];
      Entries(teams[..|teams| - 1], rows, leaderOnly)
      + if team.eligible then [Entry(team.id, team.name, TeamScore(rows, team, leaderOnly))] else []
  }

  predicate Better(a: int, b: int, ascending: bool) {
    if ascending then a < b else a > b
  }

  /** ORDER BY team_score, and by name as well on the leaderboard. */
  predicate Precedes(a: Entry, b: Entry, ascending: bool, byName: bool) {
    Better(a.score, b.score, ascending) || (a.score == b.score && (byName ==> a.name <= b.name))
  }

  function Insert(es: seq<Entry>, e: Entry, ascending: bool, byName: bool): seq<Entry> {
    if es == [] || Precedes(e, es[0], ascending, byName) then [e] + es
    else [es[0]] + Insert(es[1..], e, ascending, byName)
  }

  function Sorted(es: seq<Entry>, ascending: bool, byName: bool): seq<Entry> {
    if es == [] then [] else Insert(Sorted(es[1..], ascending, byName), es[0], ascending, byName)
  }

  ghost predicate InOrder(es: seq<Entry>, ascending: bool, byName: bool) {
    forall i, j :: 0 <= i < j < |es| ==> Precedes(es[i], es[j], ascending, byName)
  }

  /** How many entries have a strictly better score. */
  function CountBetter(es: seq<Entry>, score: int, ascending: bool): nat {
    if es == [] then 0
    else (if Better(es[0].score, score, ascending) then 1 else 0) + CountBetter(es[1..], score, ascending)
  }

  /** The index of the first entry with that score. */
  function FirstIndex(es: seq<Entry>, score: int): nat {
    if es == [] || es[0].score == score then 0 else 1 + FirstIndex(es[1..], score)
  }

  lemma {:induction false} InsertKeeps(es: seq<Entry>, e: Entry, ascending: bool, byName: bool)
    requires InOrder(es, ascending, byName)
    ensures InOrder(Insert(es, e, ascending, byName), ascending, byName)
    ensures forall x :: x in Insert(es, e, ascending, byName) <==> x == e || x in es
    ensures forall score :: CountBetter(Insert(es, e, ascending, byName), score, ascending)
                            == CountBetter(es, score, ascending) + if Better(e.score, score, ascending) then 1 else 0
  {
    var r := Insert(es, e, ascending, byName);
    if es == [] || Precedes(e, es[0], ascending, byName) {
      assert r[1..] == es;
    } else {
      InsertKeeps(es[1..], e, ascending, byName);
      var rest := Insert(es[1..], e, ascending, byName);
      assert r[1..] == rest && es == [es[0]] + es[1..];
      forall j | 0 <= j < |rest| ensures Precedes(es[0], rest[j], ascending, byName) {
        assert rest[j] in rest;
        if rest[j] != e {
          var k :| 0 <= k < |es[1..]| && es[1..][k] == rest[j];
          assert es[k + 1] == rest[j];
        }
      }
    }
  }

  lemma {:induction false} InsertPermutes(es: seq<Entry>, e: Entry, ascending: bool, byName: bool)
    ensures multiset(Insert(es, e, ascending, byName)) == multiset(es) + multiset{e}
  {
    hide Precedes;
    if es != [] && !Precedes(e, es[0], ascending, byName) {
      InsertPermutes(es[1..], e, ascending, byName);
      assert es == [es[0]] + es[1..];
    }
  }

  /** Sorting orders the entries, permutes them, and keeps how many are better than any score. */
  lemma {:induction false} SortedKeeps(es: seq<Entry>, ascending: bool, byName: bool)
    ensures InOrder(Sorted(es, ascending, byName), ascending, byName)
    ensures multiset(Sorted(es, ascending, byName)) == multiset(es)
    ensures forall x :: x in Sorted(es, ascending, byName) <==> x in es
    ensures forall score ::
              CountBetter(Sorted(es, ascending, byName), score, ascending) == CountBetter(es, score, ascending)
  {
    if es != [] {
      SortedKeeps(es[1..], ascending, byName);
      InsertKeeps(Sorted(es[1..], ascending, byName), es[0], ascending, byName);
      InsertPermutes(Sorted(es[1..], ascending, byName), es[0], ascending, byName);
      assert es == [es[0]] + es[1..];
    }
  }

  /** In an ordered list the entries before the first of a score are the better ones. */
  lemma {:induction false} FirstIndexCounts(es: seq<Entry>, score: int, ascending: bool, byName: bool)
    requires InOrder(es, ascending, byName) && exists i :: 0 <= i < |es| && es[i].score == score
    ensures FirstIndex(es, score) == CountBetter(es, score, ascending)
    ensures FirstIndex(es, score) < |es|
  {
    var i :| 0 <= i < |es| && es[i].score == score;
    if es[0].score == score {
      NoneBetter(es, score, ascending, byName);
    } else {
      assert Precedes(es[0], es[i], ascending, byName);
      assert es[1..][i - 1].score == score;
      FirstIndexCounts(es[1..], score, ascending, byName);
    }
  }

  lemma {:induction false} FirstIndexFirst(es: seq<Entry>, score: int)
    ensures FirstIndex(es, score) < |es| ==> es[FirstIndex(es, score)].score == score
    ensures forall j :: 0 <= j < FirstIndex(es, score) && j < |es| ==> es[j].score != score
  {
    if es != [] {
      FirstIndexFirst(es[1..], score);
      assert es == [es[0]] + es[1..];
    }
  }

  lemma {:induction false} NoneBetter(es: seq<Entry>, score: int, ascending: bool, byName: bool)
    requires InOrder(es, ascending, byName) && (es == [] || !Better(es[0].score, score, ascending))
    ensures CountBetter(es, score, ascending) == 0
  {
    if |es| > 1 {
      assert Precedes(es[0], es[1], ascending, byName);
      NoneBetter(es[1..], score, ascending, byName);
    } else if |es| == 1 {
      assert es[1..] == [];
    }
  }

  // ----- the two queries -----

  /** The entry of a team in the standings. */
  function EntryOf(es: seq<Entry>, id: TeamId): Option<Entry> {
    if es == [] then None else if es[0].id == id then Some(es[0]) else EntryOf(es[1..], id)
  }

  /** get_team_rank_and_score: RANK() counts the rows ahead of a row's first peer. */
  function RankAndScore(teams: seq<Team>, rows: seq<Progress>, leaderOnly: bool, ascending: bool, id: TeamId)
    : Option<(nat, int)>
  {
    var es := Entries(teams, rows, leaderOnly);
    match EntryOf(es, id)
    case None => None
    case Some(e) => Some((1 + FirstIndex(Sorted(es, ascending, false), e.score), e.score))
  }

  lemma {:induction false} EntryFound(es: seq<Entry>, id: TeamId)
    ensures EntryOf(es, id).Some? ==> EntryOf(es, id).value in es && EntryOf(es, id).value.id == id
    ensures EntryOf(es, id).None? ==> forall e :: e in es ==> e.id != id
  {
    if es != [] {
      EntryFound(es[1..], id);
      assert es == [es[0]] + es[1..];
    }
  }

  lemma {:induction false} EntriesAre(teams: seq<Team>, rows: seq<Progress>, leaderOnly: bool)
    ensures forall e :: e in Entries(teams, rows, leaderOnly) <==>
              exists i :: 0 <= i < |teams| && teams[i].eligible
                          && e == Entry(teams[i].id, teams[i].name, TeamScore(rows, teams[i], leaderOnly))
  {
    hide TeamScore;
    if teams != [] {
      var n := |teams| - 1;
      EntriesAre(teams[..n], rows, leaderOnly);
      forall e ensures e in Entries(teams, rows, leaderOnly) <==>
                exists i :: 0 <= i < |teams| && teams[i].eligible
                            && e == Entry(teams[i].id, teams[i].name, TeamScore(rows, teams[i], leaderOnly))
      {
        if e in Entries(teams[..n], rows, leaderOnly) {
          var i :| 0 <= i < n && teams[..n][i].eligible
                   && e == Entry(teams[..n][i].id, teams[..n][i].name, TeamScore(rows, teams[..n][i], leaderOnly));
          assert teams[i].eligible;
        }
        assert forall i :: 0 <= i < n ==> teams[..n][i] == teams[i];
      }
    }
  }

  /** A ranked team's windowed rank is one more than the number of strictly better teams, which is
      one more than the index of the first team of its score in the whole leaderboard: the name
      tie-break does not matter. A team outside the standings has no rank. */
  lemma RanksAgree(teams: seq<Team>, rows: seq<Progress>, leaderOnly: bool, ascending: bool, i: nat)
    requires i < |teams| && forall j, k :: 0 <= j < k < |teams| ==> teams[j].id != teams[k].id
    ensures var score := TeamScore(rows, teams[i], leaderOnly);
            RankAndScore(teams, rows, leaderOnly, ascending, teams[i].id)
            == if !teams[i].eligible then None
               else Some((1 + |TeamsAhead(teams, rows, leaderOnly, ascending, score)|, score))
    ensures var board := Sorted(Entries(teams, rows, leaderOnly), ascending, true);
            var score := TeamScore(rows, teams[i], leaderOnly);
            teams[i].eligible ==>
              FirstIndex(board, score) == |TeamsAhead(teams, rows, leaderOnly, ascending, score)|
              && FirstIndex(board, score) < |board| && board[FirstIndex(board, score)].score == score
              && forall j :: 0 <= j < FirstIndex(board, score) ==> board[j].score != score
  {
    hide TeamScore, Sorted, Entries, TeamsAhead;
    var es := Entries(teams, rows, leaderOnly);
    var score := TeamScore(rows, teams[i], leaderOnly);
    BetterTeams(teams, rows, leaderOnly, ascending, score);
    FirstIndexFirst(Sorted(es, ascending, true), score);
    EntriesAre(teams, rows, leaderOnly);
    EntryFound(es, teams[i].id);
    if teams[i].eligible {
      assert Entry(teams[i].id, teams[i].name, score) in es;
      FirstAmong(es, Entry(teams[i].id, teams[i].name, score), ascending, false);
      FirstAmong(es, Entry(teams[i].id, teams[i].name, score), ascending, true);
    }
  }

  /** The ranked teams with a better score: higher, or lower when the standings ascend. */
  ghost function TeamsAhead(teams: seq<Team>, rows: seq<Progress>, leaderOnly: bool, ascending: bool, score: int)
    : set<int>
  {
    set k | 0 <= k < |teams| && teams[k].eligible
            && if ascending then TeamScore(rows, teams[k], leaderOnly) < score
               else TeamScore(rows, teams[k], leaderOnly) > score
  }

  lemma {:induction false} BetterTeams(teams: seq<Team>, rows: seq<Progress>, leaderOnly: bool, ascending: bool,
                                       score: int)
    ensures CountBetter(Entries(teams, rows, leaderOnly), score, ascending)
         == |TeamsAhead(teams, rows, leaderOnly, ascending, score)|
  {
    hide TeamScore;
    if teams != [] {
      var n := |teams| - 1;
      BetterTeams(teams[..n], rows, leaderOnly, ascending, score);
      var team := teams[n];
      var own := if team.eligible then [Entry(team.id, team.name, TeamScore(rows, team, leaderOnly))] else [];
      CountBetterAppend(Entries(teams[..n], rows, leaderOnly), own, score, ascending);
      var before := TeamsAhead(teams[..n], rows, leaderOnly, ascending, score);
      var after := TeamsAhead(teams, rows, leaderOnly, ascending, score);
      assert forall k :: 0 <= k < n ==> teams[..n][k] == teams[k];
      ReplacedSize(before, n, n in after, after);
      CountBetterOne(own, score, ascending);
    }
  }

  lemma CountBetterOne(es: seq<Entry>, score: int, ascending: bool)
    requires |es| <= 1
    ensures CountBetter(es, score, ascending) == if es != [] && Better(es[0].score, score, ascending) then 1 else 0
  {
    if es != [] {
      assert es[1..] == [];
    }
  }

  lemma {:induction false} CountBetterAppend(es: seq<Entry>, more: seq<Entry>, score: int, ascending: bool)
    ensures CountBetter(es + more, score, ascending)
         == CountBetter(es, score, ascending) + CountBetter(more, score, ascending)
  {
    if es == [] {
      assert es + more == more;
    } else {
      assert (es + more)[1..] == es[1..] + more;
      CountBetterAppend(es[1..], more, score, ascending);
    }
  }

  lemma FirstAmong(es: seq<Entry>, e: Entry, ascending: bool, byName: bool)
    requires e in es
    ensures var list := Sorted(es, ascending, byName);
            FirstIndex(list, e.score) == CountBetter(es, e.score, ascending) && FirstIndex(list, e.score) < |list|
  {
    var list := Sorted(es, ascending, byName);
    SortedKeeps(es, ascending, byName);
    var k :| 0 <= k < |list| && list[k] == e;
    assert list[k].score == e.score;
    FirstIndexCounts(list, e.score, ascending, byName);
  }

  // ----- paging -----

  function Page<T>(list: seq<T>, skip: nat, limit: nat): seq<T> {
    var from := if skip < |list| then skip else |list|;
    var to := if skip + limit < |list| then skip + limit else |list|;
    list[from..to]
  }

  /** OFFSET skip LIMIT limit: what follows the skipped entries, as many as there are up to the limit. */
  lemma PageMeans<T>(list: seq<T>, skip: nat, limit: nat)
    ensures var page := Page(list, skip, limit);
            && |page| <= limit && (|page| < limit ==> skip + |page| >= |list|)
            && skip + |page| <= |list| + (if page == [] then skip else 0)
            && (forall i :: 0 <= i < |page| ==> page[i] == list[skip + i])
  {
  }

  /** Where page k starts in a list of the given length, and page k - 1 ends. */
  function Cut(length: nat, limit: nat, k: nat): (r: nat)
    ensures r <= length
  {
    if k * limit < length then k * limit else length
  }

  lemma PageIsCut<T>(list: seq<T>, limit: nat, k: nat)
    ensures Cut(|list|, limit, k) <= Cut(|list|, limit, k + 1)
    ensures Page(list, k * limit, limit) == list[Cut(|list|, limit, k)..Cut(|list|, limit, k + 1)]
  {
    assert (k + 1) * limit == k * limit + limit;
  }

  lemma CutStart(length: nat, limit: nat)
    ensures Cut(length, limit, 0) == 0
  {
  }

  lemma CutEnd(length: nat, limit: nat, k: nat)
    requires k * limit >= length
    ensures Cut(length, limit, k) == length
  {
  }

  /** Consecutive pages of one list, put together, are the list. */
  function Pages<T>(list: seq<T>, limit: nat, count: nat): seq<T> {
    if count == 0 then [] else Pages(list, limit, count - 1) + Page(list, (count - 1) * limit, limit)
  }

  lemma {:induction false} PagesJoin<T>(list: seq<T>, limit: nat, count: nat)
    ensures Pages(list, limit, count) == list[..Cut(|list|, limit, count)]
  {
    hide Cut, Page;
    if count > 0 {
      PagesJoin(list, limit, count - 1);
      PageIsCut(list, limit, count - 1);
    } else {
      CutStart(|list|, limit);
    }
  }

  /** What a query may see before OFFSET and LIMIT: the entries in order, ties in whatever order. */
  ghost predicate IsAnswer(list: seq<Entry>, es: seq<Entry>, ascending: bool) {
    InOrder(list, ascending, true) && multiset(list) == multiset(es)
  }

  /** get_teams_ranked_by_score: a page of some answer, and the total count. */
  ghost predicate IsRankedTeams(answer: (seq<Entry>, nat), teams: seq<Team>, rows: seq<Progress>, leaderOnly: bool,
                                ascending: bool, skip: nat, limit: nat)
  {
    var es := Entries(teams, rows, leaderOnly);
    answer.1 == |es| && exists list :: IsAnswer(list, es, ascending) && answer.0 == Page(list, skip, limit)
  }

  /** The k-th page of the k-th list, page after page: every page is a query of its own. */
  function JoinedPages(lists: seq<seq<Entry>>, limit: nat): seq<Entry> {
    if lists == [] then []
    else var k := |lists| - 1; JoinedPages(lists[..k], limit) + Page(lists[k], k * limit, limit)
  }

  ghost predicate AreAnswers(lists: seq<seq<Entry>>, es: seq<Entry>, ascending: bool) {
    forall k :: 0 <= k < |lists| ==> IsAnswer(lists[k], es, ascending)
  }

  /** However the queries break ties, scrolling shows every entry, as often as it is there. */
  ghost predicate AlwaysComplete(es: seq<Entry>, ascending: bool, limit: nat) {
    forall lists :: AreAnswers(lists, es, ascending) && |lists| * limit >= |es| ==>
      multiset(JoinedPages(lists, limit)) == multiset(es)
  }

  predicate Tied(a: Entry, b: Entry) {
    a.score == b.score && a.name == b.name
  }

  /** The last entry of a page and the first of the next one are tied. */
  predicate TiedBoundary(board: seq<Entry>, limit: nat, k: nat) {
    var p := k * limit;
    0 < p < |board| && Tied(board[p - 1], board[p])
  }

  ghost predicate SplitsTie(es: seq<Entry>, ascending: bool, limit: nat) {
    exists k :: TiedBoundary(Sorted(es, ascending, true), limit, k)
  }

  ghost predicate NoTies(es: seq<Entry>) {
    forall i, j :: 0 <= i < j < |es| ==> !Tied(es[i], es[j])
  }

  // ----- the entries strictly ahead of one, which no tie can change -----

  predicate IsAhead(a: Entry, e: Entry, ascending: bool) {
    Better(a.score, e.score, ascending) || (a.score == e.score && a.name < e.name)
  }

  function Ahead(es: seq<Entry>, e: Entry, ascending: bool): seq<Entry> {
    if es == [] then [] else (if IsAhead(es[0], e, ascending) then [es[0]] else []) + Ahead(es[1..], e, ascending)
  }

  lemma {:induction false} AheadCounts(es: seq<Entry>, e: Entry, ascending: bool, x: Entry)
    ensures multiset(Ahead(es, e, ascending))[x] == if IsAhead(x, e, ascending) then multiset(es)[x] else 0
  {
    if es != [] {
      AheadCounts(es[1..], e, ascending, x);
      assert es == [es[0]] + es[1..];
    }
  }

  lemma AheadPermutes(es: seq<Entry>, es': seq<Entry>, e: Entry, ascending: bool)
    requires multiset(es) == multiset(es')
    ensures multiset(Ahead(es, e, ascending)) == multiset(Ahead(es', e, ascending))
    ensures |Ahead(es, e, ascending)| == |Ahead(es', e, ascending)|
  {
    forall x ensures multiset(Ahead(es, e, ascending))[x] == multiset(Ahead(es', e, ascending))[x] {
      AheadCounts(es, e, ascending, x);
      AheadCounts(es', e, ascending, x);
    }
    assert multiset(Ahead(es, e, ascending)) == multiset(Ahead(es', e, ascending));
    assert |multiset(Ahead(es, e, ascending))| == |multiset(Ahead(es', e, ascending))|;
  }

  lemma {:induction false} AheadExactly(list: seq<Entry>, e: Entry, ascending: bool, p: nat)
    requires p <= |list|
    requires forall i :: 0 <= i < p ==> IsAhead(list[i], e, ascending)
    requires forall i :: p <= i < |list| ==> !IsAhead(list[i], e, ascending)
    ensures Ahead(list, e, ascending) == list[..p]
  {
    if list != [] {
      AheadExactly(list[1..], e, ascending, if p == 0 then 0 else p - 1);
      if p > 0 {
        assert list[..p] == [list[0]] + list[1..][..p - 1];
      }
    }
  }

  /** In an ordered list the entries ahead of any other come first. */
  lemma {:induction false} AheadIsPrefix(list: seq<Entry>, e: Entry, ascending: bool)
    requires InOrder(list, ascending, true)
    ensures Ahead(list, e, ascending) <= list
  {
    if list != [] {
      if IsAhead(list[0], e, ascending) {
        AheadIsPrefix(list[1..], e, ascending);
        assert list == [list[0]] + list[1..];
      } else {
        forall i | 0 <= i < |list| ensures !IsAhead(list[i], e, ascending) {
          assert i == 0 || Precedes(list[0], list[i], ascending, true);
        }
        AheadExactly(list, e, ascending, 0);
      }
    }
  }

  predicate UntiedAt(board: seq<Entry>, p: nat) {
    p < |board| && p > 0 ==> !Tied(board[p - 1], board[p])
  }

  lemma BoardAhead(board: seq<Entry>, ascending: bool, p: nat)
    requires InOrder(board, ascending, true) && 0 < p < |board| && UntiedAt(board, p)
    ensures Ahead(board, board[p], ascending) == board[..p]
  {
    assert Precedes(board[p - 1], board[p], ascending, true);
    forall i | 0 <= i < |board| ensures IsAhead(board[i], board[p], ascending) <==> i < p {
      assert i < p - 1 ==> Precedes(board[i], board[p - 1], ascending, true);
      assert i > p ==> Precedes(board[p], board[i], ascending, true);
    }
    AheadExactly(board, board[p], ascending, p);
  }

  /** Up to a place where no tie is split every answer shows the same entries. */
  lemma PrefixAgrees(list: seq<Entry>, board: seq<Entry>, es: seq<Entry>, ascending: bool, p: nat)
    requires IsAnswer(list, es, ascending) && IsAnswer(board, es, ascending) && p <= |board| && UntiedAt(board, p)
    ensures |list| == |board| && multiset(list[..p]) == multiset(board[..p])
  {
    assert |multiset(list)| == |multiset(board)|;
    if p == |board| {
      assert list[..p] == list && board[..p] == board;
    } else if p > 0 {
      BoardAhead(board, ascending, p);
      AheadIsPrefix(list, board[p], ascending);
      AheadPermutes(list, board, board[p], ascending);
      assert Ahead(list, board[p], ascending) == list[..p];
    }
  }

  lemma CutUntied(board: seq<Entry>, limit: nat, k: nat)
    requires !TiedBoundary(board, limit, k)
    ensures UntiedAt(board, Cut(|board|, limit, k))
  {
  }

  lemma {:induction false} JoinedPrefix(lists: seq<seq<Entry>>, board: seq<Entry>, es: seq<Entry>, ascending: bool,
                                        limit: nat)
    requires AreAnswers(lists, es, ascending) && IsAnswer(board, es, ascending)
    requires forall k :: !TiedBoundary(board, limit, k)
    ensures multiset(JoinedPages(lists, limit)) == multiset(board[..Cut(|board|, limit, |lists|)])
  {
    hide IsAnswer, Cut, Page, TiedBoundary, UntiedAt;
    if lists != [] {
      var k := |lists| - 1;
      JoinedPrefix(lists[..k], board, es, ascending, limit);
      CutUntied(board, limit, k);
      CutUntied(board, limit, k + 1);
      OnePageMore(lists[k], board, es, ascending, limit, k);
    } else {
      CutStart(|board|, limit);
    }
  }

  lemma OnePageMore(list: seq<Entry>, board: seq<Entry>, es: seq<Entry>, ascending: bool, limit: nat, k: nat)
    requires IsAnswer(list, es, ascending) && IsAnswer(board, es, ascending)
    requires UntiedAt(board, Cut(|board|, limit, k)) && UntiedAt(board, Cut(|board|, limit, k + 1))
    ensures multiset(board[..Cut(|board|, limit, k)]) + multiset(Page(list, k * limit, limit))
         == multiset(board[..Cut(|board|, limit, k + 1)])
  {
    hide IsAnswer, Cut, Page, UntiedAt;
    var from, to := Cut(|board|, limit, k), Cut(|board|, limit, k + 1);
    PrefixAgrees(list, board, es, ascending, from);
    PrefixAgrees(list, board, es, ascending, to);
    PageIsCut(list, limit, k);
    assert list[..to] == list[..from] + list[from..to];
  }

  // ----- a split tie can show -----

  function Swapped(board: seq<Entry>, p: nat): seq<Entry>
    requires 0 < p < |board|
  {
    board[..p - 1] + [board[p], board[p - 1]] + board[p + 1..]
  }

  lemma SwappedIsAnswer(board: seq<Entry>, es: seq<Entry>, ascending: bool, p: nat)
    requires IsAnswer(board, es, ascending) && 0 < p < |board| && Tied(board[p - 1], board[p])
    ensures IsAnswer(Swapped(board, p), es, ascending)
  {
    var swapped := Swapped(board, p);
    assert board == board[..p - 1] + [board[p - 1], board[p]] + board[p + 1..];
    forall i | 0 <= i < |board| ensures Tied(swapped[i], board[i]) {
    }
    forall i, j | 0 <= i < j < |board| ensures Precedes(swapped[i], swapped[j], ascending, true) {
      assert Precedes(board[i], board[j], ascending, true);
      assert Tied(swapped[i], board[i]) && Tied(swapped[j], board[j]);
    }
  }

  /** The first k pages from one answer, the others from another. */
  function Mixed(board: seq<Entry>, other: seq<Entry>, k: nat, count: nat): (r: seq<seq<Entry>>)
    ensures |r| == count && forall j :: 0 <= j < count ==> r[j] == if j < k then board else other
  {
    seq(count, j requires 0 <= j < count => if j < k then board else other)
  }

  lemma {:induction false} MixedPages(board: seq<Entry>, other: seq<Entry>, limit: nat, k: nat, count: nat)
    requires |other| == |board|
    ensures count <= k ==> JoinedPages(Mixed(board, other, k, count), limit) == Pages(board, limit, count)
    ensures count >= k ==>
              var from, to := Cut(|board|, limit, k), Cut(|board|, limit, count);
              from <= to && JoinedPages(Mixed(board, other, k, count), limit) == board[..from] + other[from..to]
    decreases count
  {
    hide Cut, Page;
    PagesJoin(board, limit, count);
    if count > 0 {
      assert Mixed(board, other, k, count)[..count - 1] == Mixed(board, other, k, count - 1);
      MixedPages(board, other, limit, k, count - 1);
      PageIsCut(other, limit, count - 1);
    } else {
      CutStart(|board|, limit);
    }
  }

  lemma {:induction false} OnceEach(es: seq<Entry>, x: Entry)
    requires Distinct(es)
    ensures multiset(es)[x] <= 1
  {
    if es != [] {
      OnceEach(es[1..], x);
      assert es == [es[0]] + es[1..];
      assert es[0] !in es[1..];
    }
  }

  /** One entry is shown twice when a tie is split between two queries that break it differently. */
  lemma SplitShowsTwice(board: seq<Entry>, es: seq<Entry>, ascending: bool, limit: nat, k: nat)
    returns (lists: seq<seq<Entry>>)
    requires Distinct(es) && IsAnswer(board, es, ascending) && TiedBoundary(board, limit, k)
    ensures AreAnswers(lists, es, ascending) && |lists| * limit >= |es|
    ensures multiset(JoinedPages(lists, limit)) != multiset(es)
  {
    hide IsAnswer, Distinct, JoinedPages, Mixed, Swapped;
    var p := k * limit;
    var other := Swapped(board, p);
    lists := Mixed(board, other, k, |board|);
    SwappedIsAnswer(board, es, ascending, p);
    SameLength(board, es, ascending);
    Enough(|board|, limit, k);
    CutEnd(|board|, limit, |board|);
    ShownTwice(board, p);
    MixedPages(board, other, limit, k, |board|);
    assert other[p..|board|] == other[p..];
    OnceEach(es, board[p - 1]);
  }

  lemma SameLength(list: seq<Entry>, es: seq<Entry>, ascending: bool)
    requires IsAnswer(list, es, ascending)
    ensures |list| == |es|
  {
    assert |multiset(list)| == |multiset(es)|;
  }

  lemma ShownTwice(board: seq<Entry>, p: nat)
    requires 0 < p < |board|
    ensures |Swapped(board, p)| == |board|
    ensures multiset(board[..p] + Swapped(board, p)[p..])[board[p - 1]] >= 2
  {
    var x := board[p - 1];
    assert board[..p] + Swapped(board, p)[p..] == board[..p - 1] + [x] + [x] + board[p + 1..];
  }

  lemma Enough(n: nat, limit: nat, k: nat)
    requires 0 < k * limit < n
    ensures n * limit >= n && k <= n
  {
    assert limit > 0 && k > 0;
    assert n * limit >= n * 1;
    assert k * limit >= k * 1;
  }

  /** Scrolling with a page size is complete, whatever order each query gives to ties, exactly when no page
      boundary splits a tie. */
  lemma PagingCompleteIff(es: seq<Entry>, ascending: bool, limit: nat)
    requires Distinct(es) && limit > 0
    ensures AlwaysComplete(es, ascending, limit) <==> !SplitsTie(es, ascending, limit)
  {
    hide IsAnswer, Sorted, TiedBoundary, Distinct;
    var board := Sorted(es, ascending, true);
    BoardIsAnswer(es, ascending);
    if SplitsTie(es, ascending, limit) {
      var k :| TiedBoundary(board, limit, k);
      var lists := SplitShowsTwice(board, es, ascending, limit, k);
    } else {
      forall lists | AreAnswers(lists, es, ascending) && |lists| * limit >= |es|
        ensures multiset(JoinedPages(lists, limit)) == multiset(es)
      {
        JoinedPrefix(lists, board, es, ascending, limit);
        CutEnd(|board|, limit, |lists|);
        assert board[..|board|] == board;
      }
    }
  }

  lemma BoardIsAnswer(es: seq<Entry>, ascending: bool)
    ensures IsAnswer(Sorted(es, ascending, true), es, ascending) && |Sorted(es, ascending, true)| == |es|
    ensures multiset(Sorted(es, ascending, true)) == multiset(es)
  {
    SortedKeeps(es, ascending, true);
    assert |multiset(Sorted(es, ascending, true))| == |multiset(es)|;
  }

  /** The order of the board: by score, highest first unless it ascends, and then by name. */
  lemma BoardOrder(list: seq<Entry>, es: seq<Entry>, ascending: bool)
    requires IsAnswer(list, es, ascending)
    ensures forall i, j :: 0 <= i < j < |list| ==>
              && (ascending ==> list[i].score <= list[j].score) && (!ascending ==> list[i].score >= list[j].score)
              && (list[i].score == list[j].score ==> list[i].name <= list[j].name)
  {
    forall i, j | 0 <= i < j < |list|
      ensures (ascending ==> list[i].score <= list[j].score) && (!ascending ==> list[i].score >= list[j].score)
      ensures list[i].score == list[j].score ==> list[i].name <= list[j].name
    {
      assert Precedes(list[i], list[j], ascending, true);
    }
  }

  /** In an ordered list ties are adjacent. */
  lemma AdjacentTie(board: seq<Entry>, ascending: bool, i: nat, j: nat)
    requires InOrder(board, ascending, true) && i < j < |board| && Tied(board[i], board[j])
    ensures Tied(board[i], board[i + 1])
  {
    assert Precedes(board[i], board[i + 1], ascending, true);
    assert j == i + 1 || Precedes(board[i + 1], board[j], ascending, true);
  }

  /** Having no ties is a property of the entries, not of their order. */
  lemma {:induction false} NoTiesCount(es: seq<Entry>)
    ensures NoTies(es) <==> Distinct(es) && forall x, y :: x in es && y in es && Tied(x, y) ==> x == y
  {
    if Distinct(es) && forall x, y :: x in es && y in es && Tied(x, y) ==> x == y {
      forall i, j | 0 <= i < j < |es| ensures !Tied(es[i], es[j]) {
        assert es[i] in es && es[j] in es && es[i] != es[j];
      }
    }
  }

  lemma {:induction false} DistinctCount(es: seq<Entry>)
    ensures Distinct(es) <==> forall x :: multiset(es)[x] <= 1
  {
    if Distinct(es) {
      forall x ensures multiset(es)[x] <= 1 {
        OnceEach(es, x);
      }
    } else {
      var i, j :| 0 <= i < j < |es| && es[i] == es[j];
      assert es == es[..i] + [es[i]] + es[i + 1..j] + [es[j]] + es[j + 1..];
      assert multiset(es)[es[i]] >= 2;
    }
  }

  lemma NoTiesPermutes(es: seq<Entry>, es': seq<Entry>)
    requires multiset(es) == multiset(es') && NoTies(es)
    ensures NoTies(es')
  {
    NoTiesCount(es);
    NoTiesCount(es');
    DistinctCount(es);
    DistinctCount(es');
    forall x ensures x in es' <==> x in es {
      assert x in multiset(es') <==> x in multiset(es);
    }
  }

  /** It is complete for every page size exactly when no two ranked teams share score and name. */
  lemma EveryPagingCompleteIff(es: seq<Entry>, ascending: bool)
    requires Distinct(es)
    ensures (forall limit: nat :: limit > 0 ==> AlwaysComplete(es, ascending, limit)) <==> NoTies(es)
  {
    hide AlwaysComplete, Sorted, IsAnswer;
    var board := Sorted(es, ascending, true);
    SortedKeeps(es, ascending, true);
    if NoTies(es) {
      NoTiesPermutes(es, board);
      forall limit: nat | limit > 0 ensures AlwaysComplete(es, ascending, limit) {
        PagingCompleteIff(es, ascending, limit);
      }
    } else {
      if NoTies(board) {
        NoTiesPermutes(board, es);
      }
      var i, j :| 0 <= i < j < |board| && Tied(board[i], board[j]);
      AdjacentTie(board, ascending, i, j);
      assert TiedBoundary(board, i + 1, 1);
      PagingCompleteIff(es, ascending, i + 1);
    }
  }

  /** Without ties there is one answer. */
  lemma {:induction false} OneAnswer(list: seq<Entry>, board: seq<Entry>, es: seq<Entry>, ascending: bool)
    requires NoTies(board) && IsAnswer(list, es, ascending) && IsAnswer(board, es, ascending)
    ensures list == board
  {
    hide IsAnswer, NoTies;
    SameLength(list, es, ascending);
    SameLength(board, es, ascending);
    forall p | 0 <= p < |board| ensures list[p] == board[p] {
      Untied(board, p);
      Untied(board, p + 1);
      PrefixAgrees(list, board, es, ascending, p);
      PrefixAgrees(list, board, es, ascending, p + 1);
      LastOfPrefix(list, board, p);
    }
  }

  lemma Untied(board: seq<Entry>, p: nat)
    requires NoTies(board)
    ensures UntiedAt(board, p)
  {
  }

  lemma LastOfPrefix(a: seq<Entry>, b: seq<Entry>, p: nat)
    requires p < |a| == |b| && multiset(a[..p]) == multiset(b[..p]) && multiset(a[..p + 1]) == multiset(b[..p + 1])
    ensures a[p] == b[p]
  {
    assert a[..p + 1] == a[..p] + [a[p]] && b[..p + 1] == b[..p] + [b[p]];
    assert multiset(a[..p + 1])[a[p]] == multiset(a[..p])[a[p]] + 1;
  }

  function JoinedAnswers(answers: seq<(seq<Entry>, nat)>): seq<Entry> {
    if answers == [] then [] else JoinedAnswers(answers[..|answers| - 1]) + answers[|answers| - 1].0
  }

  lemma {:induction false} AnswersArePages(answers: seq<(seq<Entry>, nat)>, board: seq<Entry>, limit: nat)
    requires forall k :: 0 <= k < |answers| ==> answers[k].0 == Page(board, k * limit, limit)
    ensures JoinedAnswers(answers) == Pages(board, limit, |answers|)
  {
    if answers != [] {
      AnswersArePages(answers[..|answers| - 1], board, limit);
    }
  }

  /** When no two ranked teams share score and name, page after page, as many as the total count asks for,
      is the leaderboard: in order, with every ranked team exactly once and no other. */
  lemma ScrollingIsComplete(answers: seq<(seq<Entry>, nat)>, teams: seq<Team>, rows: seq<Progress>, leaderOnly: bool,
                            ascending: bool, limit: nat)
    requires forall k :: 0 <= k < |answers| ==>
               IsRankedTeams(answers[k], teams, rows, leaderOnly, ascending, k * limit, limit)
    requires answers != [] && |answers| * limit >= answers[0].1 && NoTies(Entries(teams, rows, leaderOnly))
    ensures var all := JoinedAnswers(answers);
            && all == Sorted(Entries(teams, rows, leaderOnly), ascending, true)
            && InOrder(all, ascending, true)
            && multiset(all) == multiset(Entries(teams, rows, leaderOnly))
            && |all| == answers[0].1
  {
    hide Sorted, Entries, InOrder, NoTies, Page, Cut, IsAnswer, JoinedAnswers;
    var es := Entries(teams, rows, leaderOnly);
    var board := Sorted(es, ascending, true);
    BoardIsAnswer(es, ascending);
    AnswerOrdered(board, es, ascending);
    NoTiesPermutes(es, board);
    forall k | 0 <= k < |answers| ensures answers[k].0 == Page(board, k * limit, limit) && answers[k].1 == |es| {
      assert IsRankedTeams(answers[k], teams, rows, leaderOnly, ascending, k * limit, limit);
      var list :| IsAnswer(list, es, ascending) && answers[k].0 == Page(list, k * limit, limit);
      OneAnswer(list, board, es, ascending);
    }
    AnswersArePages(answers, board, limit);
    PagesJoin(board, limit, |answers|);
    CutEnd(|board|, limit, |answers|);
    assert board[..|board|] == board;
  }

  lemma AnswerOrdered(list: seq<Entry>, es: seq<Entry>, ascending: bool)
    requires IsAnswer(list, es, ascending)
    ensures InOrder(list, ascending, true) && multiset(list) == multiset(es)
  {
  }

  /** Teams have ids, so no entry occurs twice: the condition above applies to every leaderboard. */
  lemma {:induction false} EntriesDistinct(teams: seq<Team>, rows: seq<Progress>, leaderOnly: bool)
    requires forall j, k :: 0 <= j < k < |teams| ==> teams[j].id != teams[k].id
    ensures Distinct(Entries(teams, rows, leaderOnly))
  {
    if teams != [] {
      var n := |teams| - 1;
      EntriesDistinct(teams[..n], rows, leaderOnly);
      EntriesAre(teams[..n], rows, leaderOnly);
      forall e | e in Entries(teams[..n], rows, leaderOnly) ensures e.id != teams[n].id {
      }
    }
  }

  /** Every leaderboard: scrolling through it is complete for every page size and however the queries break
      ties exactly when no two ranked teams share score and name. */
  lemma LeaderboardPagingIff(teams: seq<Team>, rows: seq<Progress>, leaderOnly: bool, ascending: bool)
    requires forall j, k :: 0 <= j < k < |teams| ==> teams[j].id != teams[k].id
    ensures var es := Entries(teams, rows, leaderOnly);
            (forall limit: nat :: limit > 0 ==> AlwaysComplete(es, ascending, limit)) <==> NoTies(es)
  {
    EntriesDistinct(teams, rows, leaderOnly);
    EveryPagingCompleteIff(Entries(teams, rows, leaderOnly), ascending);
  }
}
