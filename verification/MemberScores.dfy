/** Contest scores: the live recompute of one member, the contest-wide one, and the progress rows. */
module MemberScores {
  import opened Collections
  import opened QuestionOrder

  datatype MemberId = MemberId(id: nat)
  datatype TeamId = TeamId(id: nat)

  /** A contest submission; scores count once it is evaluated. */
  datatype Scored = Scored(member: MemberId, question: QuestionId, score: int, evaluated: bool)

  /** A ContestTeamProgress row; member is None in the one team-level row of a LEADER_ONLY team. */
  datatype Progress = Progress(team: TeamId, member: Option<MemberId>, score: int)

  // ----- totals -----

  predicate Counts(s: Scored, m: MemberId, q: QuestionId) {
    s.evaluated && s.member == m && s.question == q
  }

  /** max(score) over the evaluated submissions of m for q. */
  function BestOf(subs: seq<Scored>, m: MemberId, q: QuestionId): Option<int> {
    if subs == [] then None
    else
      var best := BestOf(subs[..|subs| - 1], m, q);
      var last := subs[|subs| - 1];
      if !Counts(last, m, q) then best
      else if best.None? || last.score > best.value then Some(last.score)
      else best
  }

  function Best(subs: seq<Scored>, m: MemberId, q: QuestionId): int {
    var best := BestOf(subs, m, q);
    if best.Some? then best.value else 0
  }

  function SumBest(subs: seq<Scored>, m: MemberId, qs: seq<QuestionId>): int {
    if qs == [] then 0 else SumBest(subs, m, qs[..|qs| - 1]) + Best(subs, m, qs[|qs| - 1])
  }

  /** The groups of GROUP BY question_id: each question m has an evaluated submission for. */
  function Groups(subs: seq<Scored>, m: MemberId): seq<QuestionId> {
    if subs == [] then []
    else
      var before := Groups(subs[..|subs| - 1], m);
      var last := subs[|subs| - 1];
      if last.evaluated && last.member == m && last.question !in before then before + [last.question] else before
  }

  /** The scalar subquery of recompute_member_score. */
  function Total(subs: seq<Scored>, m: MemberId): int {
    SumBest(subs, m, Groups(subs, m))
  }

  /** The loops of the contest-wide recompute over the contest's questions. */
  function ContestTotal(subs: seq<Scored>, m: MemberId, questions: seq<QuestionId>): int {
    SumBest(subs, m, questions)
  }

  /** BestOf is what max promises. */
  lemma {:induction false} BestIsGreatest(subs: seq<Scored>, m: MemberId, q: QuestionId)
    ensures BestOf(subs, m, q) == None
            <==> forall s :: s in subs ==> !(s.evaluated && s.member == m && s.question == q)
    ensures BestOf(subs, m, q).Some? ==>
              exists s :: s in subs && s.evaluated && s.member == m && s.question == q
                          && s.score == BestOf(subs, m, q).value
    ensures forall s :: s in subs && s.evaluated && s.member == m && s.question == q ==>
              BestOf(subs, m, q).Some? && s.score <= BestOf(subs, m, q).value
  {
    if subs != [] {
      var init, last := subs[..|subs| - 1], subs[|subs| - 1];
      BestIsGreatest(init, m, q);
      assert subs == init + [last];
      assert last in subs;
      if BestOf(init, m, q).Some? {
        var s :| s in init && Counts(s, m, q) && s.score == BestOf(init, m, q).value;
        assert s in subs;
      }
    }
  }

  lemma {:induction false} GroupsAre(subs: seq<Scored>, m: MemberId)
    ensures Distinct(Groups(subs, m))
    ensures forall q :: q in Groups(subs, m) <==> BestOf(subs, m, q).Some?
  {
    if subs != [] {
      GroupsAre(subs[..|subs| - 1], m);
    }
  }

  lemma {:induction false} SumWithout(subs: seq<Scored>, m: MemberId, qs: seq<QuestionId>, i: nat)
    requires i < |qs|
    ensures SumBest(subs, m, qs) == SumBest(subs, m, qs[..i] + qs[i + 1..]) + Best(subs, m, qs[i])
    decreases |qs|
  {
    var n := |qs| - 1;
    if i == n {
      assert qs[..i] + qs[i + 1..] == qs[..n];
    } else {
      SumWithout(subs, m, qs[..n], i);
      var rest := qs[..i] + qs[i + 1..];
      assert qs[..n][..i] == qs[..i] && rest[..|rest| - 1] == qs[..n][..i] + qs[..n][i + 1..];
    }
  }

  lemma DroppedMembers(qs: seq<QuestionId>, i: nat)
    requires Distinct(qs) && i < |qs|
    ensures Distinct(qs[..i] + qs[i + 1..])
    ensures forall q :: q in qs[..i] + qs[i + 1..] <==> q in qs && q != qs[i]
  {
    var rest := qs[..i] + qs[i + 1..];
    forall q | q in qs && q != qs[i] ensures q in rest {
      var k :| 0 <= k < |qs| && qs[k] == q;
      assert rest[if k < i then k else k - 1] == q;
    }
  }

  /** A sum over more questions adds nothing when the extra ones have no score. */
  lemma {:induction false} SumCovers(subs: seq<Scored>, m: MemberId, qs: seq<QuestionId>, all: seq<QuestionId>)
    requires Distinct(qs) && Distinct(all) && forall q :: q in qs ==> q in all
    requires forall q :: q in all && q !in qs ==> Best(subs, m, q) == 0
    ensures SumBest(subs, m, all) == SumBest(subs, m, qs)
    decreases |all|
  {
    hide Best;
    if qs != [] {
      assert qs[0] in qs;
    }
    if all != [] {
      var n := |all| - 1;
      var last := all[n];
      var rest := all[..n];
      assert all == rest + [last];
      if last in qs {
        var i :| 0 <= i < |qs| && qs[i] == last;
        var qs' := qs[..i] + qs[i + 1..];
        SumWithout(subs, m, qs, i);
        DroppedMembers(qs, i);
        assert forall q :: q in qs' ==> q in all && q != last;
        SumCovers(subs, m, qs', rest);
      } else {
        SumCovers(subs, m, qs, rest);
      }
    }
  }

  /** The questions of a list that are, or are not, among others. */
  function Filter(qs: seq<QuestionId>, others: seq<QuestionId>, keep: bool): seq<QuestionId> {
    if qs == [] then []
    else
      var init := Filter(qs[..|qs| - 1], others, keep);
      if (qs[|qs| - 1] in others) == keep then init + [qs[|qs| - 1]] else init
  }

  lemma {:induction false} FilterSplits(subs: seq<Scored>, m: MemberId, qs: seq<QuestionId>, others: seq<QuestionId>)
    ensures SumBest(subs, m, qs)
         == SumBest(subs, m, Filter(qs, others, true)) + SumBest(subs, m, Filter(qs, others, false))
  {
    hide Best;
    if qs != [] {
      FilterSplits(subs, m, qs[..|qs| - 1], others);
      SumAppend(subs, m, Filter(qs[..|qs| - 1], others, true), qs[|qs| - 1]);
      SumAppend(subs, m, Filter(qs[..|qs| - 1], others, false), qs[|qs| - 1]);
    }
  }

  lemma SumAppend(subs: seq<Scored>, m: MemberId, qs: seq<QuestionId>, q: QuestionId)
    ensures SumBest(subs, m, qs + [q]) == SumBest(subs, m, qs) + Best(subs, m, q)
  {
    assert (qs + [q])[..|qs|] == qs;
  }

  lemma {:induction false} FilterMembers(qs: seq<QuestionId>, others: seq<QuestionId>, keep: bool)
    requires Distinct(qs)
    ensures Distinct(Filter(qs, others, keep))
    ensures forall q :: q in Filter(qs, others, keep) <==> q in qs && (q in others) == keep
  {
    if qs != [] {
      var n := |qs| - 1;
      FilterMembers(qs[..n], others, keep);
      assert qs == qs[..n] + [qs[n]];
      assert qs[n] !in qs[..n];
    }
  }

  /** The two recomputes differ by exactly what the member scored on questions that are no longer
      in the contest, so they agree if and only if that is nothing. */
  lemma RecomputesAgreeIff(subs: seq<Scored>, m: MemberId, questions: seq<QuestionId>)
    requires Distinct(questions)
    ensures var removed := Filter(Groups(subs, m), questions, false);
            Total(subs, m) == ContestTotal(subs, m, questions) + SumBest(subs, m, removed)
            && (Total(subs, m) == ContestTotal(subs, m, questions) <==> SumBest(subs, m, removed) == 0)
  {
    GroupsAre(subs, m);
    FilterSplits(subs, m, Groups(subs, m), questions);
    FilterMembers(Groups(subs, m), questions, true);
    SumCovers(subs, m, Filter(Groups(subs, m), questions, true), questions);
  }

  // ----- progress rows -----

  /** The two partial unique indexes together: one row per team and member, one team-level row. */
  ghost predicate OneRowEach(rows: seq<Progress>) {
    forall i, j :: 0 <= i < j < |rows| ==> !(rows[i].team == rows[j].team && rows[i].member == rows[j].member)
  }

  predicate HasRow(rows: seq<Progress>, team: TeamId, member: Option<MemberId>) {
    exists i :: 0 <= i < |rows| && rows[i].team == team && rows[i].member == member
  }

  /** INSERT ... ON CONFLICT DO NOTHING, row by row. */
  function Ensured(rows: seq<Progress>, team: TeamId, members: seq<Option<MemberId>>): seq<Progress> {
    if members == [] then rows
    else
      var before := Ensured(rows, team, members[..|members| - 1]);
      var member := members[|members| - 1];
      if HasRow(before, team, member) then before else before + [Progress(team, member, 0)]
  }

  /** The UPDATE of recompute_member_score: by member whatever the team, or the team-level row. */
  predicate Matches(row: Progress, team: TeamId, m: MemberId, leaderOnly: bool) {
    if leaderOnly then row.team == team && row.member == None else row.member == Some(m)
  }

  function Rescored(rows: seq<Progress>, team: TeamId, m: MemberId, leaderOnly: bool, score: int): (r: seq<Progress>)
    ensures |r| == |rows|
    ensures forall i :: 0 <= i < |r| ==>
              r[i] == if Matches(rows[i], team, m, leaderOnly) then rows[i].(score := score) else rows[i]
  {
    seq(|rows|, i requires 0 <= i < |rows| =>
          if Matches(rows[i], team, m, leaderOnly) then rows[i].(score := score) else rows[i])
  }

  /** The rows recompute_member_score makes sure of: every accepted member and the submitting one,
      or the team-level row. */
  function NeededRows(m: MemberId, accepted: seq<MemberId>, leaderOnly: bool): seq<Option<MemberId>> {
    if leaderOnly then [None]
    else seq(|accepted| + 1, i requires 0 <= i < |accepted| + 1 =>
               if i < |accepted| then Some(accepted[i]) else Some(m))
  }

  function Recomputed(rows: seq<Progress>, subs: seq<Scored>, team: TeamId, m: MemberId, accepted: seq<MemberId>,
                      leaderOnly: bool): seq<Progress>
  {
    Rescored(Ensured(rows, team, NeededRows(m, accepted, leaderOnly)), team, m, leaderOnly, Total(subs, m))
  }

  lemma {:induction false} EnsuredFacts(rows: seq<Progress>, team: TeamId, members: seq<Option<MemberId>>)
    ensures OneRowEach(rows) ==> OneRowEach(Ensured(rows, team, members))
    ensures rows <= Ensured(rows, team, members)
    ensures forall x :: x in members ==> HasRow(Ensured(rows, team, members), team, x)
    ensures forall i :: |rows| <= i < |Ensured(rows, team, members)| ==>
              Ensured(rows, team, members)[i].team == team && Ensured(rows, team, members)[i].member in members
              && Ensured(rows, team, members)[i].score == 0
  {
    if members != [] {
      var n := |members| - 1;
      var before := Ensured(rows, team, members[..n]);
      var after := Ensured(rows, team, members);
      EnsuredFacts(rows, team, members[..n]);
      assert members == members[..n] + [members[n]];
      forall x | x in members ensures HasRow(after, team, x) {
        if x in members[..n] {
          var i :| 0 <= i < |before| && before[i].team == team && before[i].member == x;
          assert after[i] == before[i];
        } else if !HasRow(before, team, x) {
          assert after[|before|] == Progress(team, x, 0);
        }
      }
    }
  }

  lemma {:induction false} EnsuredAlready(rows: seq<Progress>, team: TeamId, members: seq<Option<MemberId>>)
    requires forall x :: x in members ==> HasRow(rows, team, x)
    ensures Ensured(rows, team, members) == rows
  {
    if members != [] {
      assert members == members[..|members| - 1] + [members[|members| - 1]];
      EnsuredAlready(rows, team, members[..|members| - 1]);
    }
  }

  lemma RescoredHasRow(rows: seq<Progress>, team: TeamId, m: MemberId, leaderOnly: bool, score: int, t: TeamId,
                       x: Option<MemberId>)
    ensures HasRow(Rescored(rows, team, m, leaderOnly, score), t, x) <==> HasRow(rows, t, x)
  {
    var r := Rescored(rows, team, m, leaderOnly, score);
    if i :| 0 <= i < |rows| && rows[i].team == t && rows[i].member == x {
      assert r[i].team == t && r[i].member == x;
    }
    if i :| 0 <= i < |r| && r[i].team == t && r[i].member == x {
      assert rows[i].team == t && rows[i].member == x;
    }
  }

  /** After a recompute the table still has one row each, every accepted member of the team has one,
      the member's rows hold the total, and no other row that was there has changed. */
  lemma RecomputeFacts(rows: seq<Progress>, subs: seq<Scored>, team: TeamId, m: MemberId, accepted: seq<MemberId>,
                       leaderOnly: bool)
    requires OneRowEach(rows)
    ensures var rows' := Recomputed(rows, subs, team, m, accepted, leaderOnly);
            && OneRowEach(rows')
            && (leaderOnly ==> HasRow(rows', team, None))
            && (!leaderOnly ==> HasRow(rows', team, Some(m)))
            && (!leaderOnly ==> forall a :: a in accepted ==> HasRow(rows', team, Some(a)))
            && (forall i :: 0 <= i < |rows'| && Matches(rows'[i], team, m, leaderOnly) ==>
                  rows'[i].score == Total(subs, m))
            && |rows| <= |rows'|
            && (forall i :: 0 <= i < |rows| && !Matches(rows[i], team, m, leaderOnly) ==> rows'[i] == rows[i])
  {
    hide Total, Ensured;
    var needed := NeededRows(m, accepted, leaderOnly);
    var ensured := Ensured(rows, team, needed);
    EnsuredFacts(rows, team, needed);
    forall x | x in needed ensures HasRow(Recomputed(rows, subs, team, m, accepted, leaderOnly), team, x) {
      RescoredHasRow(ensured, team, m, leaderOnly, Total(subs, m), team, x);
    }
    if !leaderOnly {
      assert needed[|accepted|] == Some(m);
      forall a | a in accepted ensures Some(a) in needed {
        var i :| 0 <= i < |accepted| && accepted[i] == a;
        assert needed[i] == Some(a);
      }
    } else {
      assert needed[0] == None;
    }
  }

  /** Recomputing again changes nothing. */
  lemma RecomputeIdempotent(rows: seq<Progress>, subs: seq<Scored>, team: TeamId, m: MemberId, accepted: seq<MemberId>,
                            leaderOnly: bool)
    requires OneRowEach(rows)
    ensures var rows' := Recomputed(rows, subs, team, m, accepted, leaderOnly);
            Recomputed(rows', subs, team, m, accepted, leaderOnly) == rows'
  {
    hide Total, Ensured;
    var rows' := Recomputed(rows, subs, team, m, accepted, leaderOnly);
    var needed := NeededRows(m, accepted, leaderOnly);
    EnsuredFacts(rows, team, needed);
    forall x | x in needed ensures HasRow(rows', team, x) {
      RescoredHasRow(Ensured(rows, team, needed), team, m, leaderOnly, Total(subs, m), team, x);
    }
    EnsuredAlready(rows', team, needed);
  }

  /** The LEADER_ONLY recompute: the one row of the team without a member is there and holds the total of m, and
      every other row is as it was. */
  lemma LeaderOnlyRecompute(rows: seq<Progress>, subs: seq<Scored>, team: TeamId, m: MemberId, accepted: seq<MemberId>)
    requires OneRowEach(rows)
    ensures var rows', total := Recomputed(rows, subs, team, m, accepted, true), Total(subs, m);
            && |rows| <= |rows'|
            && (exists i :: 0 <= i < |rows'| && rows'[i] == Progress(team, None, total))
            && (forall i :: |rows| <= i < |rows'| ==> rows'[i] == Progress(team, None, total))
            && (forall i :: 0 <= i < |rows| && rows[i].team == team && rows[i].member == None ==>
                  rows'[i] == Progress(team, None, total))
            && (forall i :: 0 <= i < |rows| && !(rows[i].team == team && rows[i].member == None) ==>
                  rows'[i] == rows[i])
  {
    hide Total, Ensured;
    var needed := NeededRows(m, accepted, true);
    var ensured := Ensured(rows, team, needed);
    EnsuredFacts(rows, team, needed);
    assert needed[0] == None && HasRow(ensured, team, None);
    var i :| 0 <= i < |ensured| && ensured[i].team == team && ensured[i].member == None;
    assert Recomputed(rows, subs, team, m, accepted, true)[i] == Progress(team, None, Total(subs, m));
  }

  /** The INDIVIDUAL_WORKSPACE recompute: m has a row under the team, every accepted member has one, all rows of m
      hold its total, a new row of anybody else holds 0, and every other row is as it was. */
  lemma MemberRecompute(rows: seq<Progress>, subs: seq<Scored>, team: TeamId, m: MemberId, accepted: seq<MemberId>)
    requires OneRowEach(rows)
    ensures var rows', total := Recomputed(rows, subs, team, m, accepted, false), Total(subs, m);
            && |rows| <= |rows'|
            && (exists i :: 0 <= i < |rows'| && rows'[i] == Progress(team, Some(m), total))
            && (forall a :: a in accepted ==>
                  exists i :: 0 <= i < |rows'| && rows'[i].team == team && rows'[i].member == Some(a))
            && (forall i :: |rows| <= i < |rows'| ==>
                  rows'[i] == Progress(team, Some(m), total)
                  || exists a :: a in accepted && rows'[i] == Progress(team, Some(a), 0))
            && (forall i :: 0 <= i < |rows| && rows[i].member == Some(m) ==> rows'[i] == rows[i].(score := total))
            && (forall i :: 0 <= i < |rows| && rows[i].member != Some(m) ==> rows'[i] == rows[i])
  {
    hide Total, Ensured, NeededRows, OneRowEach;
    var needed := NeededRows(m, accepted, false);
    var ensured := Ensured(rows, team, needed);
    var rows' := Recomputed(rows, subs, team, m, accepted, false);
    NeededAre(m, accepted);
    EnsuredFacts(rows, team, needed);
    forall x | x in needed
      ensures exists i :: 0 <= i < |rows'| && rows'[i].team == team && rows'[i].member == x
                          && (x == Some(m) ==> rows'[i].score == Total(subs, m))
    {
      var i :| 0 <= i < |ensured| && ensured[i].team == team && ensured[i].member == x;
      assert rows'[i].member == x;
    }
    assert Some(m) in needed;
    var own :| 0 <= own < |rows'| && rows'[own].team == team && rows'[own].member == Some(m)
               && rows'[own].score == Total(subs, m);
    assert rows'[own] == Progress(team, Some(m), Total(subs, m));
    forall i | |rows| <= i < |rows'|
      ensures rows'[i] == Progress(team, Some(m), Total(subs, m))
              || exists a :: a in accepted && rows'[i] == Progress(team, Some(a), 0)
    {
      assert ensured[i].member in needed;
    }
  }

  lemma NeededAre(m: MemberId, accepted: seq<MemberId>)
    ensures forall x :: x in NeededRows(m, accepted, false) <==> x == Some(m) || (x.Some? && x.value in accepted)
  {
    var needed := NeededRows(m, accepted, false);
    assert needed[|accepted|] == Some(m);
    forall a | a in accepted ensures Some(a) in needed {
      var k :| 0 <= k < |accepted| && accepted[k] == a;
      assert needed[k] == Some(a);
    }
  }

  class ContestScores {
    var subs: seq<Scored>
    var rows: seq<Progress>
    const leaderOnly: bool

    /** ensure_team_member_progress_rows and ensure_team_level_progress_rows */
    method EnsureRows(team: TeamId, members: seq<Option<MemberId>>)
      modifies this`rows
      ensures rows == Ensured(old(rows), team, members)
    {
      for i := 0 to |members|
        invariant rows == Ensured(old(rows), team, members[..i])
      {
        assert members[..i + 1][..i] == members[..i];
        if !HasRow(rows, team, members[i]) {
          rows := rows + [Progress(team, members[i], 0)];
        }
      }
      assert members[..|members|] == members;
    }

    method RecomputeMemberScore(team: TeamId, m: MemberId, accepted: seq<MemberId>)
      modifies this`rows
      ensures rows == Recomputed(old(rows), subs, team, m, accepted, leaderOnly)
    {
      EnsureRows(team, NeededRows(m, accepted, leaderOnly));
      var total := Total(subs, m);
      ghost var ensured := rows;
      for i := 0 to |rows|
        invariant |rows| == |ensured|
        invariant forall j :: 0 <= j < |rows| ==>
                    rows[j] == if j < i && Matches(ensured[j], team, m, leaderOnly)
                               then ensured[j].(score := total) else ensured[j]
      {
        if Matches(rows[i], team, m, leaderOnly) {
          rows := rows[i := rows[i].(score := total)];
        }
      }
      assert rows == Rescored(ensured, team, m, leaderOnly, total);
    }
  }

  // ----- any interleaving of scoring and recomputing (INDIVIDUAL_WORKSPACE) -----

  /** due lists the recomputes that scoring steps still owe; silent holds the members whose submissions
      have since been changed by a step that owes none. */
  datatype Board = Board(subs: seq<Scored>, rows: seq<Progress>, due: seq<MemberId>, silent: set<MemberId>)

  /** Override is a manual score, Reopen the clean-up or reset before a re-evaluation, and Fail an early
      exit, which judges with score 0. */
  datatype Move =
    | Hand(member: MemberId, question: QuestionId)
    | Score(i: nat, score: int)
    | Override(i: nat, score: int)
    | Reopen(i: nat)
    | Fail(i: nat)
    | Recompute(at: nat, accepted: seq<MemberId>)
    | Extra(member: MemberId, accepted: seq<MemberId>)

  /** Each contest team member belongs to one team, whose accepted members a recompute looks up. */
  type Teams = MemberId -> TeamId

  ghost predicate Possible(b: Board, move: Move, teamOf: Teams) {
    match move
    case Hand(_, _) => true
    case Score(i, _) => i < |b.subs|
    case Override(i, _) => i < |b.subs|
    case Reopen(i) => i < |b.subs|
    case Fail(i) => i < |b.subs|
    case Recompute(at, accepted) => at < |b.due| && forall a :: a in accepted ==> teamOf(a) == teamOf(b.due[at])
    case Extra(member, accepted) => forall a :: a in accepted ==> teamOf(a) == teamOf(member)
  }

  ghost function Play(b: Board, move: Move, teamOf: Teams): Board
    requires Possible(b, move, teamOf)
  {
    match move
    case Hand(member, question) => b.(subs := b.subs + [Scored(member, question, 0, false)])
    case Score(i, score) =>
      b.(subs := b.subs[i := b.subs[i].(score := score, evaluated := true)], due := b.due + [b.subs[i].member])
    case Override(i, score) =>
      b.(subs := b.subs[i := b.subs[i].(score := score)], due := b.due + [b.subs[i].member])
    case Reopen(i) => b.(subs := WithoutScore(b.subs, i), silent := b.silent + {b.subs[i].member})
    case Fail(i) => b.(subs := ZeroedSilently(b.subs, i), silent := b.silent + {b.subs[i].member})
    case Recompute(at, accepted) =>
      b.(rows := Recomputed(b.rows, b.subs, teamOf(b.due[at]), b.due[at], accepted, false),
         due := b.due[..at] + b.due[at + 1..], silent := b.silent - {b.due[at]})
    case Extra(member, accepted) =>
      b.(rows := Recomputed(b.rows, b.subs, teamOf(member), member, accepted, false), silent := b.silent - {member})
  }

  /** When each move is possible, and what it does. A manual score leaves open whether the submission is
      evaluated, a reopening leaves its score, and an early exit judges it with 0. */
  lemma MovesMean(b: Board, move: Move, teamOf: Teams)
    requires match move
             case Hand(_, _) => true
             case Recompute(at, accepted) =>
               at < |b.due| && forall a :: a in accepted ==> teamOf(a) == teamOf(b.due[at])
             case Extra(member, accepted) => forall a :: a in accepted ==> teamOf(a) == teamOf(member)
             case _ => move.i < |b.subs|
    ensures Possible(b, move, teamOf)
    ensures var b' := Play(b, move, teamOf);
            match move
            case Hand(member, question) => b' == b.(subs := b.subs + [Scored(member, question, 0, false)])
            case Recompute(at, accepted) =>
              var m := b.due[at];
              && b'.subs == b.subs && b'.silent == b.silent - {m} && b'.due == b.due[..at] + b.due[at + 1..]
              && b'.rows == Recomputed(b.rows, b.subs, teamOf(m), m, accepted, false)
            case Extra(m, accepted) =>
              && b'.subs == b.subs && b'.silent == b.silent - {m} && b'.due == b.due
              && b'.rows == Recomputed(b.rows, b.subs, teamOf(m), m, accepted, false)
            case _ =>
              var s := b.subs[move.i];
              && b'.rows == b.rows && |b'.subs| == |b.subs|
              && (forall j :: 0 <= j < |b.subs| && j != move.i ==> b'.subs[j] == b.subs[j])
              && b'.subs[move.i] == (match move
                                     case Score(_, score) => Scored(s.member, s.question, score, true)
                                     case Override(_, score) => Scored(s.member, s.question, score, s.evaluated)
                                     case Reopen(_) => Scored(s.member, s.question, s.score, false)
                                     case _ => Scored(s.member, s.question, 0, true))
              && (if move.Score? || move.Override? then b'.due == b.due + [s.member] && b'.silent == b.silent
                  else b'.due == b.due && b'.silent == b.silent + {s.member})
  {
    hide Recomputed;
  }

  ghost predicate Playable(b: Board, moves: seq<Move>, teamOf: Teams)
    decreases |moves|
  {
    moves == [] || (Possible(b, moves[0], teamOf) && Playable(Play(b, moves[0], teamOf), moves[1..], teamOf))
  }

  ghost function Result(b: Board, moves: seq<Move>, teamOf: Teams): Board
    requires Playable(b, moves, teamOf)
    decreases |moves|
  {
    if moves == [] then b else Result(Play(b, moves[0], teamOf), moves[1..], teamOf)
  }

  ghost predicate HasScore(subs: seq<Scored>, m: MemberId) {
    exists i :: 0 <= i < |subs| && subs[i].evaluated && subs[i].member == m
  }

  /** m has a row if it has a score, and its rows hold the total. */
  ghost predicate InSync(b: Board, m: MemberId) {
    && (HasScore(b.subs, m) ==> exists i :: 0 <= i < |b.rows| && b.rows[i].member == Some(m))
    && (forall i :: 0 <= i < |b.rows| && b.rows[i].member == Some(m) ==> b.rows[i].score == Total(b.subs, m))
  }

  /** Rows are unique and under their member's team, and whoever has no recompute due and no silent
      change is in sync. */
  ghost predicate SyncedOrDue(b: Board, teamOf: Teams) {
    && OneRowEach(b.rows)
    && (forall i :: 0 <= i < |b.rows| && b.rows[i].member.Some? ==> b.rows[i].team == teamOf(b.rows[i].member.value))
    && (forall m :: m !in b.due && m !in b.silent ==> InSync(b, m))
  }

  lemma {:induction false} NoScoreNoGroups(subs: seq<Scored>, m: MemberId)
    requires forall i :: 0 <= i < |subs| ==> !(subs[i].evaluated && subs[i].member == m)
    ensures Groups(subs, m) == []
  {
    if subs != [] {
      NoScoreNoGroups(subs[..|subs| - 1], m);
    }
  }

  lemma NoScoreNoTotal(subs: seq<Scored>, m: MemberId)
    requires !HasScore(subs, m)
    ensures Total(subs, m) == 0
  {
    NoScoreNoGroups(subs, m);
  }

  lemma {:induction false} OthersTotal(subs: seq<Scored>, subs': seq<Scored>, m: MemberId)
    requires |subs| <= |subs'|
    requires forall i :: 0 <= i < |subs| ==> subs[i] == subs'[i] || (subs[i].member != m && subs'[i].member != m)
    requires forall i :: |subs| <= i < |subs'| ==> !subs'[i].evaluated || subs'[i].member != m
    ensures Groups(subs', m) == Groups(subs, m) && forall q :: BestOf(subs', m, q) == BestOf(subs, m, q)
    decreases |subs'|
  {
    if |subs| < |subs'| {
      OthersTotal(subs, subs'[..|subs'| - 1], m);
    } else if subs != [] {
      OthersTotal(subs[..|subs| - 1], subs'[..|subs'| - 1], m);
    }
  }

  lemma {:induction false} SameSum(subs: seq<Scored>, subs': seq<Scored>, m: MemberId, qs: seq<QuestionId>)
    requires forall q :: q in qs ==> Best(subs', m, q) == Best(subs, m, q)
    ensures SumBest(subs', m, qs) == SumBest(subs, m, qs)
  {
    if qs != [] {
      assert qs == qs[..|qs| - 1] + [qs[|qs| - 1]];
      SameSum(subs, subs', m, qs[..|qs| - 1]);
    }
  }

  lemma SubsChange(b: Board, subs': seq<Scored>, m: MemberId)
    requires |b.subs| <= |subs'|
    requires forall i :: 0 <= i < |b.subs| ==> b.subs[i] == subs'[i] || (b.subs[i].member != m && subs'[i].member != m)
    requires forall i :: |b.subs| <= i < |subs'| ==> !subs'[i].evaluated || subs'[i].member != m
    ensures HasScore(subs', m) ==> HasScore(b.subs, m)
    ensures InSync(b, m) ==> InSync(b.(subs := subs'), m)
  {
    OthersTotal(b.subs, subs', m);
    SameSum(b.subs, subs', m, Groups(b.subs, m));
  }

  lemma RowsChange(b: Board, member: MemberId, accepted: seq<MemberId>, m: MemberId, teamOf: Teams)
    requires OneRowEach(b.rows) && forall a :: a in accepted ==> teamOf(a) == teamOf(member)
    requires forall i :: 0 <= i < |b.rows| && b.rows[i].member.Some? ==>
               b.rows[i].team == teamOf(b.rows[i].member.value)
    ensures var rows' := Recomputed(b.rows, b.subs, teamOf(member), member, accepted, false);
            && OneRowEach(rows')
            && (forall i :: 0 <= i < |rows'| && rows'[i].member.Some? ==>
                  rows'[i].team == teamOf(rows'[i].member.value))
            && (m == member || InSync(b, m) ==> InSync(b.(rows := rows'), m))
  {
    hide Total, Ensured, HasScore;
    var team := teamOf(member);
    var needed := NeededRows(member, accepted, false);
    var ensured := Ensured(b.rows, team, needed);
    var rows' := Recomputed(b.rows, b.subs, team, member, accepted, false);
    EnsuredFacts(b.rows, team, needed);
    RecomputeFacts(b.rows, b.subs, team, member, accepted, false);
    forall i | 0 <= i < |rows'| && rows'[i].member.Some? ensures rows'[i].team == teamOf(rows'[i].member.value) {
      if i >= |b.rows| {
        assert ensured[i].member in needed;
      } else {
        assert ensured[i] == b.rows[i];
      }
    }
    if m == member {
      assert HasRow(rows', team, Some(m));
    } else if InSync(b, m) {
      OtherInSync(b, rows', m, teamOf);
    }
  }

  /** Rows kept as they were and new rows with score 0 leave an in-sync member in sync. */
  lemma OtherInSync(b: Board, rows': seq<Progress>, m: MemberId, teamOf: Teams)
    requires InSync(b, m) && OneRowEach(rows') && |b.rows| <= |rows'|
    requires forall i :: 0 <= i < |b.rows| && b.rows[i].member == Some(m) ==> rows'[i] == b.rows[i]
    requires forall i :: 0 <= i < |b.rows| ==> rows'[i].member == b.rows[i].member
    requires forall i :: |b.rows| <= i < |rows'| && rows'[i].member == Some(m) ==> rows'[i].score == 0
    requires forall i :: 0 <= i < |rows'| && rows'[i].member.Some? ==> rows'[i].team == teamOf(rows'[i].member.value)
    ensures InSync(b.(rows := rows'), m)
  {
    hide HasScore, Total;
    if k :| 0 <= k < |b.rows| && b.rows[k].member == Some(m) {
      assert rows'[k] == b.rows[k];
      forall i | 0 <= i < |rows'| && rows'[i].member == Some(m) ensures rows'[i].score == Total(b.subs, m) {
        assert rows'[i].team == teamOf(m) == rows'[k].team;
        assert i == k;
      }
    } else {
      NoScoreNoTotal(b.subs, m);
    }
  }

  lemma SubsMove(b: Board, b': Board, i: nat, teamOf: Teams)
    requires SyncedOrDue(b, teamOf) && i < |b.subs| && b'.rows == b.rows
    requires |b'.subs| == |b.subs| && b'.subs[i].member == b.subs[i].member
    requires forall k :: 0 <= k < |b.subs| && k != i ==> b'.subs[k] == b.subs[k]
    requires forall m :: m !in b'.due && m !in b'.silent ==> m !in b.due && m !in b.silent && m != b.subs[i].member
    ensures SyncedOrDue(b', teamOf)
  {
    hide InSync;
    forall m | m !in b'.due && m !in b'.silent ensures InSync(b', m) {
      SubsChange(b, b'.subs, m);
      OwedIgnored(b.(subs := b'.subs), b', m);
    }
  }

  lemma OwedIgnored(b: Board, b': Board, m: MemberId)
    requires b'.subs == b.subs && b'.rows == b.rows
    ensures InSync(b', m) <==> InSync(b, m)
  {
  }

  lemma RowsMove(b: Board, b': Board, member: MemberId, accepted: seq<MemberId>, teamOf: Teams)
    requires SyncedOrDue(b, teamOf) && forall a :: a in accepted ==> teamOf(a) == teamOf(member)
    requires b'.subs == b.subs && b'.rows == Recomputed(b.rows, b.subs, teamOf(member), member, accepted, false)
    requires forall m :: m !in b'.due && m !in b'.silent && m != member ==> m !in b.due && m !in b.silent
    ensures SyncedOrDue(b', teamOf)
  {
    hide InSync, Recomputed;
    RowsChange(b, member, accepted, member, teamOf);
    forall m | m !in b'.due && m !in b'.silent ensures InSync(b', m) {
      RowsChange(b, member, accepted, m, teamOf);
      OwedIgnored(b.(rows := b'.rows), b', m);
    }
  }

  lemma StepSynced(b: Board, move: Move, teamOf: Teams)
    requires SyncedOrDue(b, teamOf) && Possible(b, move, teamOf)
    ensures SyncedOrDue(Play(b, move, teamOf), teamOf)
  {
    hide InSync, HasScore, Recomputed, OneRowEach;
    var b' := Play(b, move, teamOf);
    match move {
      case Hand(_, _) =>
        forall m | m !in b'.due && m !in b'.silent ensures InSync(b', m) {
          SubsChange(b, b'.subs, m);
        }
      case Score(i, _) =>
        assert b'.due[|b.due|] == b.subs[i].member;
        SubsMove(b, b', i, teamOf);
      case Override(i, _) =>
        assert b'.due[|b.due|] == b.subs[i].member;
        SubsMove(b, b', i, teamOf);
      case Reopen(i) => SubsMove(b, b', i, teamOf);
      case Fail(i) => SubsMove(b, b', i, teamOf);
      case Recompute(at, accepted) =>
        assert forall m :: m in b.due && m != b.due[at] ==> m in b'.due;
        RowsMove(b, b', b.due[at], accepted, teamOf);
      case Extra(member, accepted) => RowsMove(b, b', member, accepted, teamOf);
    }
  }

  /** For any interleaving of scoring steps, manual scores, reopenings, early exits and recomputes: a
      member with no recompute due and no silent change has a row if it has a score, and its one row holds
      the sum over questions of its best evaluated score. */
  lemma {:induction false} LatestScores(b: Board, moves: seq<Move>, teamOf: Teams)
    requires SyncedOrDue(b, teamOf) && Playable(b, moves, teamOf)
    ensures var end := Result(b, moves, teamOf);
            && SyncedOrDue(end, teamOf)
            && (forall m :: m !in end.due && m !in end.silent ==> InSync(end, m))
            && (forall i, j :: 0 <= i < j < |end.rows| && end.rows[i].member.Some? ==>
                  end.rows[i].member != end.rows[j].member)
    decreases |moves|
  {
    hide InSync, HasScore, Possible, Play;
    if moves != [] {
      StepSynced(b, moves[0], teamOf);
      LatestScores(Play(b, moves[0], teamOf), moves[1..], teamOf);
    }
  }

  // ----- where the live score can go stale -----

  /** A re-evaluation that ends in a terminal exit: the row is judged again, with score 0, and no
      recompute follows. */
  function ZeroedSilently(subs: seq<Scored>, i: nat): seq<Scored>
    requires i < |subs|
  {
    subs[i := subs[i].(score := 0, evaluated := true)]
  }

  function WithoutScore(subs: seq<Scored>, i: nat): seq<Scored>
    requires i < |subs|
  {
    subs[i := subs[i].(evaluated := false)]
  }

  /** The best score with one submission given a score, from the best score without it. */
  lemma {:induction false} BestWith(subs: seq<Scored>, i: nat, score: int, m: MemberId, q: QuestionId)
    requires i < |subs|
    ensures var with := subs[i := subs[i].(score := score, evaluated := true)];
            var rest := BestOf(WithoutScore(subs, i), m, q);
            BestOf(with, m, q) == if !(subs[i].member == m && subs[i].question == q) then rest
                                  else if rest.None? || score > rest.value then Some(score) else rest
  {
    var n := |subs| - 1;
    var with := subs[i := subs[i].(score := score, evaluated := true)];
    if i < n {
      BestWith(subs[..n], i, score, m, q);
      assert with[..n] == subs[..n][i := subs[i].(score := score, evaluated := true)];
      assert WithoutScore(subs, i)[..n] == WithoutScore(subs[..n], i);
    } else {
      assert with[..n] == subs[..n] && WithoutScore(subs, i)[..n] == subs[..n];
    }
  }

  lemma {:induction false} SameGroups(subs: seq<Scored>, subs': seq<Scored>, m: MemberId)
    requires |subs| == |subs'|
    requires forall i :: 0 <= i < |subs| ==>
               subs[i].member == subs'[i].member && subs[i].question == subs'[i].question
               && subs[i].evaluated == subs'[i].evaluated
    ensures Groups(subs, m) == Groups(subs', m)
  {
    if subs != [] {
      SameGroups(subs[..|subs| - 1], subs'[..|subs| - 1], m);
    }
  }

  lemma {:induction false} SumDiffers(subs: seq<Scored>, subs': seq<Scored>, m: MemberId, qs: seq<QuestionId>,
                                      q: QuestionId)
    requires Distinct(qs) && q in qs && forall x :: x != q ==> Best(subs', m, x) == Best(subs, m, x)
    ensures SumBest(subs', m, qs) - SumBest(subs, m, qs) == Best(subs', m, q) - Best(subs, m, q)
  {
    var n := |qs| - 1;
    assert qs == qs[..n] + [qs[n]];
    if qs[n] == q {
      SameSum(subs, subs', m, qs[..n]);
    } else {
      SumDiffers(subs, subs', m, qs[..n], q);
    }
  }

  /** After such a re-evaluation the stored total, in sync before, is still right exactly when the
      zeroed submission was not the member's only best one on its question. */
  lemma SilentZeroStaleIff(subs: seq<Scored>, i: nat)
    requires i < |subs| && subs[i].evaluated && forall k :: 0 <= k < |subs| ==> subs[k].score >= 0
    ensures var m, q := subs[i].member, subs[i].question;
            Total(ZeroedSilently(subs, i), m) == Total(subs, m)
            <==> subs[i].score <= Best(WithoutScore(subs, i), m, q)
  {
    hide Total, BestOf, Groups;
    var m, q := subs[i].member, subs[i].question;
    var zeroed := ZeroedSilently(subs, i);
    assert subs[i := subs[i].(score := subs[i].score, evaluated := true)] == subs;
    forall x ensures x != q ==> Best(zeroed, m, x) == Best(subs, m, x) {
      BestWith(subs, i, 0, m, x);
      BestWith(subs, i, subs[i].score, m, x);
    }
    BestWith(subs, i, 0, m, q);
    BestWith(subs, i, subs[i].score, m, q);
    NonNegativeBest(WithoutScore(subs, i), m, q);
    SameGroups(subs, zeroed, m);
    GroupsAre(subs, m);
    TotalIs(subs, m);
    TotalIs(zeroed, m);
    SumDiffers(subs, zeroed, m, Groups(subs, m), q);
  }

  /** What one score adds to a member's total: all of it when it is the first on its question, what it exceeds
      the best of the others by when it does, and otherwise nothing. With no score the total is 0. */
  lemma TotalStep(subs: seq<Scored>, i: nat, score: int)
    requires i < |subs|
    ensures var m := subs[i].member;
            var best := BestOf(WithoutScore(subs, i), m, subs[i].question);
            Total(subs[i := subs[i].(score := score, evaluated := true)], m)
            == Total(WithoutScore(subs, i), m)
               + if best.None? then score else if score > best.value then score - best.value else 0
    ensures forall m :: !HasScore(subs, m) ==> Total(subs, m) == 0
  {
    hide Total, BestOf, Groups;
    var m, q := subs[i].member, subs[i].question;
    var with := subs[i := subs[i].(score := score, evaluated := true)];
    var without := WithoutScore(subs, i);
    forall x ensures x != q ==> BestOf(with, m, x) == BestOf(without, m, x) {
      BestWith(subs, i, score, m, x);
    }
    BestWith(subs, i, score, m, q);
    GroupsAre(with, m);
    GroupsAre(without, m);
    SumCovers(without, m, Groups(without, m), Groups(with, m));
    TotalIs(with, m);
    TotalIs(without, m);
    SumDiffers(without, with, m, Groups(with, m), q);
    forall m | !HasScore(subs, m) ensures Total(subs, m) == 0 {
      NoScoreNoTotal(subs, m);
    }
  }

  /** Reopening an evaluated submission, which no recompute follows, leaves the stored total right under
      the same condition. */
  lemma ReopenStaleIff(subs: seq<Scored>, i: nat)
    requires i < |subs| && subs[i].evaluated && forall k :: 0 <= k < |subs| ==> subs[k].score >= 0
    ensures var m, q := subs[i].member, subs[i].question;
            Total(WithoutScore(subs, i), m) == Total(subs, m)
            <==> subs[i].score <= Best(WithoutScore(subs, i), m, q)
  {
    hide Total, BestOf, Groups;
    var m, q := subs[i].member, subs[i].question;
    var reopened := WithoutScore(subs, i);
    assert subs[i := subs[i].(score := subs[i].score, evaluated := true)] == subs;
    forall x ensures x != q ==> BestOf(reopened, m, x) == BestOf(subs, m, x) {
      BestWith(subs, i, subs[i].score, m, x);
    }
    BestWith(subs, i, subs[i].score, m, q);
    NonNegativeBest(reopened, m, q);
    GroupsAre(subs, m);
    GroupsAre(reopened, m);
    SumCovers(reopened, m, Groups(reopened, m), Groups(subs, m));
    TotalIs(subs, m);
    TotalIs(reopened, m);
    SumDiffers(subs, reopened, m, Groups(subs, m), q);
  }

  lemma TotalIs(subs: seq<Scored>, m: MemberId)
    ensures Total(subs, m) == SumBest(subs, m, Groups(subs, m))
  {
  }

  lemma NonNegativeBest(subs: seq<Scored>, m: MemberId, q: QuestionId)
    requires forall k :: 0 <= k < |subs| ==> subs[k].score >= 0
    ensures Best(subs, m, q) >= 0
  {
    BestIsGreatest(subs, m, q);
  }
}
