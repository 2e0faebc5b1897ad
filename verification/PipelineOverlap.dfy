/** Two owners of one submission: runs in which a bulk run stalls, and in which a live submission is left
    without a verdict. */
module PipelineOverlap {
  import opened Collections
  import opened Judge0Repository
  import opened Evaluation
  import opened Attribution
  import opened PipelineState
  import opened PipelineRuns
  import opened PipelineProgress
  import opened PipelineNoLoss
  import opened PipelineClaims
  import opened PipelineStanding
  import PipelineRedelivery

  // ----- the states the two runs go through -----

  /** One unjudged submission; its context and whether it is scheduled; the slots taken; the contest's record;
      the runs created so far. */
  function Stage(s: SubmissionId, context: Option<Context>, scheduled: bool, active: map<EvalRef, int>,
                 records: map<ContestId, Record>, processed: map<EvalRef, int>): World
  {
    World(
      if scheduled then map[s := 0] else map[],
      if context.Some? then map[s := context.value] else map[],
      if context.Some? then 1 else 0,
      active, records, processed, map[], map[s := Submission(false, 0, [])])
  }

  function Live(s: SubmissionId): SubmitMessage { SubmitMessage(s, false, None, 0) }

  function Bulk(s: SubmissionId, ref: EvalRef): SubmitMessage { SubmitMessage(s, true, Some(ref), 0) }

  function Good(tc: Testcase): SubmitEnv { SubmitEnv(Loaded([tc]), Ok([Some("token")]), 0) }

  function Handed(tc: Testcase, owner: Option<EvalRef>): Context {
    Context(owner, TokenMap([tc], [Some("token")]))
  }

  lemma Accepting(s: SubmissionId, limits: Limits)
    ensures Enabled(Initial(map[]), Accept(s), limits)
    ensures Apply(Initial(map[]), Accept(s), limits)
         == System(Stage(s, None, false, map[], map[], map[]), [Live(s)], [])
  {
    assert map[][s := Submission(false, 0, [])] == map[s := Submission(false, 0, [])];
  }

  /** A run over s starts. */
  lemma Starting(s: SubmissionId, context: Option<Context>, scheduled: bool, ref: EvalRef, q: seq<SubmitMessage>,
                 limits: Limits)
    requires context.None? || context.value.ref == None
    requires forall i :: 0 <= i < |q| ==> q[i].ref == None
    ensures var sys := System(Stage(s, context, scheduled, map[], map[], map[]), q, []);
            && Enabled(sys, StartRun(ref, [s]), limits)
            && Apply(sys, StartRun(ref, [s]), limits)
               == System(Stage(s, context, scheduled, map[ref := 0], map[ref.contest := Record(ref.run, 1)],
                               map[ref := 0]), q + [Bulk(s, ref)], [])
  {
    var w := Stage(s, context, scheduled, map[], map[], map[]);
    assert RunMessages([s], ref) == [Bulk(s, ref)];
    assert Reset(w.db, [s]) == w.db;
    assert RunCreated(w, ref, [s]) == Stage(s, context, scheduled, map[ref := 0],
                                            map[ref.contest := Record(ref.run, 1)], map[ref := 0]);
  }

  /** A live SUBMIT registers. */
  lemma LiveRegisters(s: SubmissionId, tc: Testcase, limits: Limits)
    requires limits.maxInflight > 0
    ensures var w := Stage(s, None, false, map[], map[], map[]);
            && ExitOf(w, Live(s), Good(tc), limits) == Registered
            && AfterSubmit(w, Live(s), Good(tc), limits) == Stage(s, Some(Handed(tc, None)), true, map[], map[], map[])
  {
    hide TokenMap;
    assert [Some("token")][0].Some?;
  }

  /** The run's SUBMIT registers. */
  lemma BulkRegisters(s: SubmissionId, tc: Testcase, ref: EvalRef, limits: Limits)
    requires limits.maxInflight > 0 && limits.maxActive > 0
    ensures var records := map[ref.contest := Record(ref.run, 1)];
            var w := Stage(s, None, false, map[ref := 0], records, map[ref := 0]);
            && ExitOf(w, Bulk(s, ref), Good(tc), limits) == Registered
            && AfterSubmit(w, Bulk(s, ref), Good(tc), limits)
               == Stage(s, Some(Handed(tc, Some(ref))), true, map[ref := 1], records, map[ref := 0])
  {
    hide TokenMap;
    var w := Stage(s, None, false, map[ref := 0], map[ref.contest := Record(ref.run, 1)], map[ref := 0]);
    assert [Some("token")][0].Some?;
    assert Cleaned(w, Bulk(s, ref), Good(tc)) == w.db;
  }

  /** A SUBMIT that finds s pending changes nothing. */
  lemma FoundPending(w: World, m: SubmitMessage, env: SubmitEnv, limits: Limits)
    requires m.sub in w.pending && !Skips(w, m.ref)
    ensures ExitOf(w, m, env, limits) == AlreadyPending && AfterSubmit(w, m, env, limits) == w
  {
  }

  /** The contest's next run, over nothing that concerns s, supersedes. */
  lemma Superseding(s: SubmissionId, context: Context, ref: EvalRef, next: EvalRef, limits: Limits)
    requires next.contest == ref.contest && next.run != ref.run && context.ref == Some(ref)
    ensures var sys := System(Stage(s, Some(context), true, map[ref := 1], map[ref.contest := Record(ref.run, 1)],
                                    map[ref := 0]), [], []);
            && Enabled(sys, StartRun(next, []), limits)
            && Apply(sys, StartRun(next, []), limits)
               == System(Stage(s, Some(context), true, map[ref := 1, next := 0],
                               map[ref.contest := Record(next.run, 0)], map[ref := 0, next := 0]), [], [])
  {
    var w := Stage(s, Some(context), true, map[ref := 1], map[ref.contest := Record(ref.run, 1)], map[ref := 0]);
    assert RunMessages([], next) == [];
    assert Reset(w.db, []) == w.db;
  }

  /** A poll pass past the deadline dispatches s. */
  lemma Polling(w: World, s: SubmissionId, context: Context, active: map<EvalRef, int>, records: map<ContestId, Record>,
                processed: map<EvalRef, int>)
    requires w == Stage(s, Some(context), true, active, records, processed)
    ensures var env := PollEnv(1, Some(map[]), {});
            && IsOrderOf([s], w, env)
            && Polled(w, env) == Stage(s, Some(context), false, active, records, processed)
            && PersistMessages([s], w, env) == [PersistMessage(s, true)]
  {
    hide AsksJudge0;
    var env := PollEnv(1, Some(map[]), {});
    PipelineRedelivery.NotDone(context.entries);
    assert Decision(w, s, ResultsOf(w, env), 1) == Some(true);
    assert forall x :: Dispatches(w, x, env) <==> x == s;
    assert Polled(w, env).pending == map[];
    assert PersistMessages([s], w, env)[0] == MessageFor(w, s, env);
  }

  /** The superseded run's PERSIST drops the context. */
  lemma Dropping(s: SubmissionId, context: Context, ref: EvalRef, next: EvalRef, env: PersistEnv)
    requires next.contest == ref.contest && next.run != ref.run && context.ref == Some(ref)
    ensures var records, processed := map[ref.contest := Record(next.run, 0)], map[ref := 0, next := 0];
            Persisted(Stage(s, Some(context), false, map[ref := 1, next := 0], records, processed),
                      PersistMessage(s, true), env)
            == Stage(s, None, false, map[ref := 0, next := 0], records, processed)
  {
    var w := Stage(s, Some(context), false, map[ref := 1, next := 0], map[ref.contest := Record(next.run, 0)],
                   map[ref := 0, next := 0]);
    assert Skips(w, Some(ref));
    assert w.contexts - {s} == map[] && w.pending - {s} == map[];
    assert w.active[ref := 0] == map[ref := 0, next := 0];
  }

  // ----- the runs -----

  /** A live submission is pending when a bulk run takes it up: the run's SUBMIT is dropped, and with
      nothing queued the run, still current, can never complete. */
  lemma RunStalls(s: SubmissionId, tc: Testcase, ref: EvalRef, limits: Limits) returns (es: seq<Event>)
    requires limits.maxInflight > 0
    ensures Runnable(Initial(map[]), es, limits) && |es| == 4
    ensures var end := After(Initial(map[]), es, limits);
            && IsCurrent(end.w, ref) && StatusOf(end.w, ref) != Completed
            && end.submits == [] && Unclaimed(end, ref, s)
  {
    hide Stage, AfterSubmit, ExitOf, TokenMap;
    var c := Some(Handed(tc, None));
    var records := map[ref.contest := Record(ref.run, 1)];
    var e1, e2, e3, e4 := Accept(s), Submit(0, Good(tc), true), StartRun(ref, [s]), Submit(0, Good(tc), true);
    var sys1 := System(Stage(s, None, false, map[], map[], map[]), [Live(s)], []);
    var sys2 := System(Stage(s, c, true, map[], map[], map[]), [], []);
    var sys3 := System(Stage(s, c, true, map[ref := 0], records, map[ref := 0]), [Bulk(s, ref)], []);
    var sys4 := System(Stage(s, c, true, map[ref := 0], records, map[ref := 0]), [], []);
    Stalled(s, tc, ref);
    FoundPending(sys3.w, Bulk(s, ref), Good(tc), limits);
    assert Without([Bulk(s, ref)], 0) + [] == [];
    PipelineRedelivery.Before(sys3, e4, sys4, [], limits);
    Starting(s, c, true, ref, [], limits);
    assert [] + [Bulk(s, ref)] == [Bulk(s, ref)];
    PipelineRedelivery.Before(sys2, e3, sys3, [e4] + [], limits);
    LiveRegisters(s, tc, limits);
    assert Without([Live(s)], 0) + [] == [];
    PipelineRedelivery.Before(sys1, e2, sys2, [e3] + ([e4] + []), limits);
    Accepting(s, limits);
    PipelineRedelivery.Before(Initial(map[]), e1, sys1, [e2] + ([e3] + ([e4] + [])), limits);
    es := [e1] + ([e2] + ([e3] + ([e4] + [])));
  }

  lemma Stalled(s: SubmissionId, tc: Testcase, ref: EvalRef)
    ensures var records := map[ref.contest := Record(ref.run, 1)];
            var w := Stage(s, Some(Handed(tc, None)), true, map[ref := 0], records, map[ref := 0]);
            && IsCurrent(w, ref) && StatusOf(w, ref) == RunStatus.Pending && s in w.pending && !Skips(w, Some(ref))
            && Unclaimed(System(w, [], []), ref, s)
  {
  }

  /** A bulk run registers a live submission first: the live SUBMIT is dropped, the run is superseded by one
      that does not list it, and PERSIST drops the context. The submission is unjudged and nothing is left
      that would judge it. */
  lemma LiveStranded(s: SubmissionId, tc: Testcase, ref: EvalRef, next: EvalRef, limits: Limits)
    returns (es: seq<Event>)
    requires limits.maxInflight > 0 && limits.maxActive > 0 && next.contest == ref.contest && next.run != ref.run
    ensures Runnable(Initial(map[]), es, limits) && |es| == 7
    ensures var end := After(Initial(map[]), es, limits);
            StandingOf(end, s) == Stranded && s in end.w.db && end.submits == [] && end.persists == []
  {
    hide Stage;
    var r1, r2 := map[ref.contest := Record(ref.run, 1)], map[ref.contest := Record(next.run, 0)];
    var sys1 := System(Stage(s, None, false, map[], map[], map[]), [Live(s)], []);
    var sys2 := System(Stage(s, None, false, map[ref := 0], r1, map[ref := 0]), [Live(s), Bulk(s, ref)], []);
    LeftBehind(s, map[ref := 0, next := 0], r2, map[ref := 0, next := 0]);
    var tail := LiveDropped(s, tc, ref, next, limits);
    Starting(s, None, false, ref, [Live(s)], limits);
    assert [Live(s)] + [Bulk(s, ref)] == [Live(s), Bulk(s, ref)];
    PipelineRedelivery.Before(sys1, StartRun(ref, [s]), sys2, tail, limits);
    tail := [StartRun(ref, [s])] + tail;
    Accepting(s, limits);
    PipelineRedelivery.Before(Initial(map[]), Accept(s), sys1, tail, limits);
    es := [Accept(s)] + tail;
  }

  /** From the two queued messages on: the run's registers, and the live one is dropped. */
  lemma LiveDropped(s: SubmissionId, tc: Testcase, ref: EvalRef, next: EvalRef, limits: Limits) returns (es: seq<Event>)
    requires limits.maxInflight > 0 && limits.maxActive > 0 && next.contest == ref.contest && next.run != ref.run
    ensures var sys := System(Stage(s, None, false, map[ref := 0], map[ref.contest := Record(ref.run, 1)],
                                    map[ref := 0]), [Live(s), Bulk(s, ref)], []);
            && Runnable(sys, es, limits) && |es| == 5
            && After(sys, es, limits) == System(Stage(s, None, false, map[ref := 0, next := 0],
                                                      map[ref.contest := Record(next.run, 0)],
                                                      map[ref := 0, next := 0]), [], [])
  {
    hide Stage, AfterSubmit, ExitOf, TokenMap;
    var c := Handed(tc, Some(ref));
    var r1 := map[ref.contest := Record(ref.run, 1)];
    var e3, e4 := Submit(1, Good(tc), true), Submit(0, Good(tc), true);
    var sys2 := System(Stage(s, None, false, map[ref := 0], r1, map[ref := 0]), [Live(s), Bulk(s, ref)], []);
    var sys3 := System(Stage(s, Some(c), true, map[ref := 1], r1, map[ref := 0]), [Live(s)], []);
    var sys4 := System(Stage(s, Some(c), true, map[ref := 1], r1, map[ref := 0]), [], []);
    var tail := Abandoned(s, c, ref, next, limits);
    StillPending(s, c, map[ref := 1], r1, map[ref := 0]);
    FoundPending(sys3.w, Live(s), Good(tc), limits);
    assert Without([Live(s)], 0) + [] == [];
    PipelineRedelivery.Before(sys3, e4, sys4, tail, limits);
    BulkRegisters(s, tc, ref, limits);
    assert Without([Live(s), Bulk(s, ref)], 1) + [] == [Live(s)];
    PipelineRedelivery.Before(sys2, e3, sys3, [e4] + tail, limits);
    es := [e3] + ([e4] + tail);
  }

  /** The last three events: the run is superseded, s is polled, and its PERSIST finds the run gone. */
  lemma Abandoned(s: SubmissionId, c: Context, ref: EvalRef, next: EvalRef, limits: Limits) returns (es: seq<Event>)
    requires next.contest == ref.contest && next.run != ref.run && c.ref == Some(ref)
    ensures var sys := System(Stage(s, Some(c), true, map[ref := 1], map[ref.contest := Record(ref.run, 1)],
                                    map[ref := 0]), [], []);
            && Runnable(sys, es, limits) && |es| == 3
            && After(sys, es, limits) == System(Stage(s, None, false, map[ref := 0, next := 0],
                                                      map[ref.contest := Record(next.run, 0)],
                                                      map[ref := 0, next := 0]), [], [])
  {
    hide Stage, Persisted, Polled, IsOrderOf, PersistMessages;
    var r1, r2 := map[ref.contest := Record(ref.run, 1)], map[ref.contest := Record(next.run, 0)];
    var a2, p2 := map[ref := 1, next := 0], map[ref := 0, next := 0];
    var e5, e6, e7 := StartRun(next, []), Poll(PollEnv(1, Some(map[]), {}), [s]), Persist(0, CollectFails(false), true);
    var sys4 := System(Stage(s, Some(c), true, map[ref := 1], r1, map[ref := 0]), [], []);
    var sys5 := System(Stage(s, Some(c), true, a2, r2, p2), [], []);
    var sys6 := System(Stage(s, Some(c), false, a2, r2, p2), [], [PersistMessage(s, true)]);
    var sys7 := System(Stage(s, None, false, map[ref := 0, next := 0], r2, p2), [], []);
    Dropping(s, c, ref, next, CollectFails(false));
    assert Without([PersistMessage(s, true)], 0) == [];
    PipelineRedelivery.Before(sys6, e7, sys7, [], limits);
    Polling(sys5.w, s, c, a2, r2, p2);
    assert [] + [PersistMessage(s, true)] == [PersistMessage(s, true)];
    PipelineRedelivery.Before(sys5, e6, sys6, [e7] + [], limits);
    Superseding(s, c, ref, next, limits);
    PipelineRedelivery.Before(sys4, e5, sys5, [e6] + ([e7] + []), limits);
    es := [e5] + ([e6] + ([e7] + []));
  }

  lemma StillPending(s: SubmissionId, c: Context, active: map<EvalRef, int>, records: map<ContestId, Record>,
                     processed: map<EvalRef, int>)
    ensures s in Stage(s, Some(c), true, active, records, processed).pending
  {
  }

  lemma LeftBehind(s: SubmissionId, active: map<EvalRef, int>, records: map<ContestId, Record>,
                   processed: map<EvalRef, int>)
    ensures var w := Stage(s, None, false, active, records, processed);
            StandingOf(System(w, [], []), s) == Stranded && s in w.db
  {
  }
}
