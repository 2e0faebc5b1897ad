/** Why single delivery is asked for: one redelivered bulk SUBMIT can cost a submission its verdict. */
module PipelineRedelivery {
  import opened Collections
  import opened Judge0Repository
  import opened Evaluation
  import opened Attribution
  import opened PipelineState
  import opened PipelineRuns
  import opened PipelineProgress

  /** The states the run goes through: a run of two submissions, of which those in C are counted. */
  function Mid(ref: EvalRef, s: SubmissionId, t: SubmissionId, judgedS: bool, judgedT: bool, C: set<SubmissionId>,
               context: Option<Context>, scheduled: bool): World
  {
    World(
      if scheduled then map[s := 0] else map[],
      if context.Some? then map[s := context.value] else map[],
      if context.Some? then 1 else 0,
      map[ref := if context.Some? then 1 else 0],
      map[ref.contest := Record(ref.run, 2)],
      map[ref := |C|],
      if C == {} then map[] else map[ref := C],
      map[s := Submission(judgedS, 0, []), t := Submission(judgedT, 0, [])])
  }

  function Bulk(s: SubmissionId, ref: EvalRef): SubmitMessage {
    SubmitMessage(s, true, Some(ref), 0)
  }

  lemma Started(s: SubmissionId, t: SubmissionId, ref: EvalRef, limits: Limits)
    requires s != t
    ensures var sys := Initial(map[s := Submission(false, 0, []), t := Submission(false, 0, [])]);
            && Enabled(sys, StartRun(ref, [s, t]), limits)
            && Apply(sys, StartRun(ref, [s, t]), limits)
               == System(Mid(ref, s, t, false, false, {}, None, false), [Bulk(s, ref), Bulk(t, ref)], [])
  {
    var db := map[s := Submission(false, 0, []), t := Submission(false, 0, [])];
    var sys := Initial(db);
    assert Reset(db, [s, t]) == db;
    assert RunMessages([s, t], ref) == [Bulk(s, ref), Bulk(t, ref)];
    assert RunCreated(sys.w, ref, [s, t]) == Mid(ref, s, t, false, false, {}, None, false);
  }

  /** A counted failure at Judge0. */
  lemma RejectedS(s: SubmissionId, t: SubmissionId, ref: EvalRef, tc: Testcase, limits: Limits)
    requires s != t && limits.maxInflight > 0 && limits.maxActive > 0
    ensures var w := Mid(ref, s, t, false, false, {}, None, false);
            var env := SubmitEnv(Loaded([tc]), Rejected, 0);
            && AfterSubmit(w, Bulk(s, ref), env, limits) == Mid(ref, s, t, true, false, {s}, None, false)
            && ExitOf(w, Bulk(s, ref), env, limits) == Finished
  {
    hide TokenMap, SomeToken, WithRegistered;
    var w := Mid(ref, s, t, false, false, {}, None, false);
    var env := SubmitEnv(Loaded([tc]), Rejected, 0);
    var cleaned := Cleaned(w, Bulk(s, ref), env);
    assert cleaned == map[s := Submission(false, 0, []), t := Submission(false, 0, [])];
    var db := Finalised(cleaned, s, 0, []);
    assert db[s].rows == [];
    assert db == map[s := Submission(true, 0, []), t := Submission(false, 0, [])];
    assert {} + {s} == {s};
  }

  /** The second delivery wipes the verdict and registers. */
  lemma RegisteredS(s: SubmissionId, t: SubmissionId, ref: EvalRef, tc: Testcase, limits: Limits)
    requires s != t && limits.maxInflight > 0 && limits.maxActive > 0
    ensures var env := SubmitEnv(Loaded([tc]), Ok([Some("token")]), 0);
            var c := Context(Some(ref), TokenMap([tc], [Some("token")]));
            && ExitOf(Mid(ref, s, t, true, false, {s}, None, false), Bulk(s, ref), env, limits) == Registered
            && AfterSubmit(Mid(ref, s, t, true, false, {s}, None, false), Bulk(s, ref), env, limits)
               == Mid(ref, s, t, false, false, {s}, Some(c), true)
  {
    hide TokenMap;
    var w := Mid(ref, s, t, true, false, {s}, None, false);
    var env := SubmitEnv(Loaded([tc]), Ok([Some("token")]), 0);
    assert [Some("token")][0].Some?;
    assert Cleaned(w, Bulk(s, ref), env) == map[s := Submission(false, 0, []), t := Submission(false, 0, [])];
  }

  /** The other submission concludes the run. */
  lemma RejectedT(s: SubmissionId, t: SubmissionId, ref: EvalRef, tc: Testcase, c: Context, limits: Limits)
    requires s != t && limits.maxInflight > 0 && limits.maxActive > 0
    ensures var env := SubmitEnv(LoadFails(false), Rejected, 0);
            && ExitOf(Mid(ref, s, t, false, false, {s}, Some(c), true), Bulk(t, ref), env, limits) == Finished
            && AfterSubmit(Mid(ref, s, t, false, false, {s}, Some(c), true), Bulk(t, ref), env, limits)
               == Mid(ref, s, t, false, true, {s, t}, Some(c), true)
  {
    hide TokenMap, SomeToken, WithRegistered;
    var w := Mid(ref, s, t, false, false, {s}, Some(c), true);
    var env := SubmitEnv(LoadFails(false), Rejected, 0);
    var cleaned := Cleaned(w, Bulk(t, ref), env);
    assert cleaned == map[s := Submission(false, 0, []), t := Submission(false, 0, [])];
    var db := Finalised(cleaned, t, 0, []);
    assert db[t].rows == [];
    assert db == map[s := Submission(false, 0, []), t := Submission(true, 0, [])];
    assert {s} + {t} == {s, t};
  }

  lemma NotDone(entries: seq<TokenEntry>)
    ensures !AllDone(entries, map[])
  {
    hide ValidTokens;
    if |ValidTokens(entries)| > 0 {
      var nothing: map<Token, Judge0Result> := map[];
      assert ValidTokens(entries)[0] !in nothing;
    }
  }

  /** A poll pass past the deadline dispatches s. */
  lemma PolledS(s: SubmissionId, t: SubmissionId, ref: EvalRef, c: Context, limits: Limits)
    requires s != t
    ensures var w := Mid(ref, s, t, false, true, {s, t}, Some(c), true);
            var env := PollEnv(1, Some(map[]), {});
            && IsOrderOf([s], w, env)
            && Polled(w, env) == Mid(ref, s, t, false, true, {s, t}, Some(c), false)
            && PersistMessages([s], w, env) == [PersistMessage(s, true)]
  {
    hide AsksJudge0;
    var w := Mid(ref, s, t, false, true, {s, t}, Some(c), true);
    var env := PollEnv(1, Some(map[]), {});
    NotDone(c.entries);
    assert Decision(w, s, ResultsOf(w, env), 1) == Some(true);
    assert forall x :: Dispatches(w, x, env) <==> x == s;
    assert Polled(w, env).pending == map[];
    assert PersistMessages([s], w, env)[0] == MessageFor(w, s, env);
  }

  /** The complete run turns the PERSIST away. */
  lemma DroppedS(s: SubmissionId, t: SubmissionId, ref: EvalRef, c: Context, env: PersistEnv)
    requires s != t && c.ref == Some(ref)
    ensures Persisted(Mid(ref, s, t, false, true, {s, t}, Some(c), false), PersistMessage(s, true), env)
         == Mid(ref, s, t, false, true, {s, t}, None, false)
  {
    var w := Mid(ref, s, t, false, true, {s, t}, Some(c), false);
    assert |{s, t}| == 2;
    assert Skips(w, Some(ref));
    assert w.contexts - {s} == map[] && w.pending - {s} == map[];
  }

  /** One more event in front of a run. */
  lemma Before(sys: System, e: Event, next: System, es: seq<Event>, limits: Limits)
    requires Enabled(sys, e, limits) && Apply(sys, e, limits) == next && Runnable(next, es, limits)
    ensures Runnable(sys, [e] + es, limits) && After(sys, [e] + es, limits) == After(next, es, limits)
  {
    hide Enabled, Apply;
    assert ([e] + es)[1..] == es;
  }

  /** The last three events: the run completes, s is polled, and its PERSIST finds the run complete. */
  lemma LateEnd(s: SubmissionId, t: SubmissionId, ref: EvalRef, tc: Testcase, c: Context, limits: Limits)
    returns (es: seq<Event>)
    requires s != t && limits.maxInflight > 0 && limits.maxActive > 0 && c.ref == Some(ref)
    ensures var sys := System(Mid(ref, s, t, false, false, {s}, Some(c), true), [Bulk(t, ref)], []);
            && Runnable(sys, es, limits)
            && After(sys, es, limits) == System(Mid(ref, s, t, false, true, {s, t}, None, false), [], [])
  {
    hide Mid, AfterSubmit, ExitOf, Persisted, Polled, IsOrderOf, PersistMessages;
    var p := PersistMessage(s, true);
    var sys3 := System(Mid(ref, s, t, false, false, {s}, Some(c), true), [Bulk(t, ref)], []);
    var sys4 := System(Mid(ref, s, t, false, true, {s, t}, Some(c), true), [], []);
    var sys5 := System(Mid(ref, s, t, false, true, {s, t}, Some(c), false), [], [p]);
    var sys6 := System(Mid(ref, s, t, false, true, {s, t}, None, false), [], []);
    var e := Submit(0, SubmitEnv(LoadFails(false), Rejected, 0), true);
    var f := Persist(0, CollectFails(false), true);
    var g := Poll(PollEnv(1, Some(map[]), {}), [s]);
    DroppedS(s, t, ref, c, CollectFails(false));
    assert Without([p], 0) == [];
    Before(sys5, f, sys6, [], limits);
    PolledS(s, t, ref, c, limits);
    assert [] + [p] == [p];
    Before(sys4, g, sys5, [f] + [], limits);
    RejectedT(s, t, ref, tc, c, limits);
    assert Without([Bulk(t, ref)], 0) + [] == [];
    Before(sys3, e, sys4, [g] + ([f] + []), limits);
    es := [e] + ([g] + ([f] + []));
  }

  /** A bulk SUBMIT that fails at Judge0 is recorded and counted; delivered once more it wipes that
      verdict, and once the rest of the run is counted its PERSIST is turned away. The run reads
      COMPLETED, and s has neither a verdict nor anything that would still produce one. */
  lemma RedeliveryLosesVerdict(s: SubmissionId, t: SubmissionId, ref: EvalRef, tc: Testcase, limits: Limits)
    returns (es: seq<Event>)
    requires s != t && limits.maxInflight > 0 && limits.maxActive > 0
    ensures var sys := Initial(map[s := Submission(false, 0, []), t := Submission(false, 0, [])]);
            && Runnable(sys, es, limits)
            && var end := After(sys, es, limits);
               IsCurrent(end.w, ref) && StatusOf(end.w, ref) == Completed && !Settled(end.w, s)
               && s !in end.w.contexts && end.submits == [] && end.persists == []
  {
    hide Mid, AfterSubmit, ExitOf, Persisted, TokenMap;
    var c := Context(Some(ref), TokenMap([tc], [Some("token")]));
    var both := [Bulk(s, ref), Bulk(t, ref)];
    var sys0 := Initial(map[s := Submission(false, 0, []), t := Submission(false, 0, [])]);
    var sys1 := System(Mid(ref, s, t, false, false, {}, None, false), both, []);
    var sys2 := System(Mid(ref, s, t, true, false, {s}, None, false), both, []);
    var sys3 := System(Mid(ref, s, t, false, false, {s}, Some(c), true), [Bulk(t, ref)], []);
    var e1 := Submit(0, SubmitEnv(Loaded([tc]), Rejected, 0), false);
    var e2 := Submit(0, SubmitEnv(Loaded([tc]), Ok([Some("token")]), 0), true);
    var end := LateEnd(s, t, ref, tc, c, limits);
    RegisteredS(s, t, ref, tc, limits);
    assert Without(both, 0) + [] == [Bulk(t, ref)];
    Before(sys2, e2, sys3, end, limits);
    RejectedS(s, t, ref, tc, limits);
    assert both + [] == both;
    Before(sys1, e1, sys2, [e2] + end, limits);
    Started(s, t, ref, limits);
    Before(sys0, StartRun(ref, [s, t]), sys1, [e1] + ([e2] + end), limits);
    es := [StartRun(ref, [s, t])] + ([e1] + ([e2] + end));
    EndOf(ref, s, t);
  }

  lemma EndOf(ref: EvalRef, s: SubmissionId, t: SubmissionId)
    requires s != t
    ensures var w := Mid(ref, s, t, false, true, {s, t}, None, false);
            IsCurrent(w, ref) && StatusOf(w, ref) == Completed && !Settled(w, s) && s !in w.contexts
  {
    assert |{s, t}| == 2;
  }
}
