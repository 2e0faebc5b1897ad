/** Bulk runs: the counted set stays inside the run, an uncounted submission never sees the run as
    completed, and the run can complete exactly as long as nothing of it has lost its claim. */
module PipelineProgress {
  import opened Collections
  import opened Judge0Repository
  import opened Attribution
  import opened PipelineState
  import opened PipelineRuns

  /** ref is the current run of its contest and S are its submissions. */
  ghost predicate Owns(sys: System, ref: EvalRef, S: set<SubmissionId>) {
    && IsCurrent(sys.w, ref) && sys.w.records[ref.contest].total == |S|
    && Counted(sys.w, ref) <= S && Processed(sys.w, ref) == |Counted(sys.w, ref)|
    && (forall i :: 0 <= i < |sys.submits| && sys.submits[i].ref == Some(ref) ==> sys.submits[i].sub in S)
    && (forall s :: s in sys.w.contexts && sys.w.contexts[s].ref == Some(ref) ==> s in S)
  }

  /** A new run of the same contest. */
  predicate Supersedes(e: Event, ref: EvalRef) {
    e.StartRun? && e.ref.contest == ref.contest
  }

  function StatusOf(w: World, ref: EvalRef): RunStatus
    requires IsCurrent(w, ref)
  {
    StatusFrom(w.records, Processed(w, ref), ref)
  }

  // ----- what counting does -----

  lemma AdvancedShape(w: World, k: Option<EvalRef>, x: SubmissionId)
    ensures var w' := Advanced(w, k, x);
            && w'.pending == w.pending && w'.contexts == w.contexts && w'.db == w.db && w'.records == w.records
            && (if k.None? || !IsCurrent(w, k.value) || x in Counted(w, k.value)
                then w'.counted == w.counted && w'.processed == w.processed
                else w'.counted == w.counted[k.value := Counted(w, k.value) + {x}]
                     && w'.processed == w.processed[k.value := Processed(w, k.value) + 1])
  {
    hide IsCurrent, Counted, Processed;
  }

  lemma AdvancedFacts(w: World, k: Option<EvalRef>, x: SubmissionId, ref: EvalRef)
    ensures var w' := Advanced(w, k, x);
            && w'.pending == w.pending && w'.contexts == w.contexts && w'.db == w.db && w'.records == w.records
            && Counted(w', ref) == Counted(w, ref) + (if k == Some(ref) && IsCurrent(w, ref) then {x} else {})
            && Processed(w', ref) == Processed(w, ref)
                 + (if k == Some(ref) && IsCurrent(w, ref) && x !in Counted(w, ref) then 1 else 0)
  {
    hide Advanced, IsCurrent;
    AdvancedShape(w, k, x);
  }

  lemma {:induction false} WithoutMembers<T>(q: seq<T>, at: nat)
    requires at < |q|
    ensures forall i :: 0 <= i < |Without(q, at)| ==> Without(q, at)[i] in q
    ensures forall i :: 0 <= i < |q| && i != at ==> q[i] in Without(q, at)
  {
    forall i | 0 <= i < |q| && i != at ensures q[i] in Without(q, at) {
      assert q[i] == Without(q, at)[if i < at then i else i - 1];
    }
  }

  // ----- the effect of the two stages, field by field -----

  /** The delivery ends in a verdict, so it counts for its run. */
  predicate Concludes(w: World, m: SubmitMessage, env: SubmitEnv, limits: Limits) {
    var exit := ExitOf(w, m, env, limits);
    exit == NothingToDo || exit == Finished || (exit == TransientFailure && m.retries >= limits.maxRetries)
  }

  lemma SubmitEffect(w: World, m: SubmitMessage, env: SubmitEnv, limits: Limits, ref: EvalRef)
    ensures var w' := AfterSubmit(w, m, env, limits);
            && w'.records == w.records
            && (if ExitOf(w, m, env, limits) == Registered
                then m.sub in w'.contexts && w'.contexts == w.contexts[m.sub := w'.contexts[m.sub]]
                     && w'.contexts[m.sub].ref == m.ref && w'.pending == w.pending[m.sub := env.deadline]
                else w'.contexts == w.contexts && w'.pending == w.pending)
            && Counted(w', ref) == Counted(w, ref)
                 + (if Concludes(w, m, env, limits) && m.ref == Some(ref) && IsCurrent(w, ref) then {m.sub} else {})
            && Processed(w', ref) == Processed(w, ref)
                 + (if Concludes(w, m, env, limits) && m.ref == Some(ref) && IsCurrent(w, ref)
                       && m.sub !in Counted(w, ref)
                    then 1 else 0)
  {
    hide AfterSubmit, Advanced, Concludes, ExitOf;
    var v := SubmitShape(w, m, env, limits);
    AdvancedFacts(v, m.ref, m.sub, ref);
  }

  /** SUBMIT and its retry policy change the schedule and the row, and then count if they conclude. */
  lemma SubmitShape(w: World, m: SubmitMessage, env: SubmitEnv, limits: Limits) returns (v: World)
    ensures v.records == w.records && v.counted == w.counted && v.processed == w.processed
    ensures if ExitOf(w, m, env, limits) == Registered
            then m.sub in v.contexts && v.contexts == w.contexts[m.sub := v.contexts[m.sub]]
                 && v.contexts[m.sub].ref == m.ref && v.pending == w.pending[m.sub := env.deadline]
            else v.contexts == w.contexts && v.pending == w.pending
    ensures AfterSubmit(w, m, env, limits) == if Concludes(w, m, env, limits) then Advanced(v, m.ref, m.sub) else v
  {
    hide Uncounted, Advanced, Finalised, ExitOf;
    UncountedShape(w, m, env, limits);
    v := Uncounted(w, m, env, limits);
    if ExitOf(w, m, env, limits) == TransientFailure && m.retries >= limits.maxRetries {
      v := v.(db := Finalised(v.db, m.sub, 0, []));
    }
  }

  lemma UncountedShape(w: World, m: SubmitMessage, env: SubmitEnv, limits: Limits)
    ensures var v := Uncounted(w, m, env, limits);
            && v.records == w.records && v.counted == w.counted && v.processed == w.processed
            && if ExitOf(w, m, env, limits) == Registered
               then m.sub in v.contexts && v.contexts == w.contexts[m.sub := v.contexts[m.sub]]
                    && v.contexts[m.sub].ref == m.ref && v.pending == w.pending[m.sub := env.deadline]
               else v.contexts == w.contexts && v.pending == w.pending
  {
    hide ExitOf, DbOf, TokenMap, Active;
  }

  /** What a delivery does to the database: nothing, a clean row, or a verdict on it. */
  function DbAfter(w: World, m: SubmitMessage, env: SubmitEnv, limits: Limits): map<SubmissionId, Submission> {
    var exit := ExitOf(w, m, env, limits);
    if exit == Superseded || exit == AlreadyPending || exit == NothingToDo then w.db
    else if Concludes(w, m, env, limits) then Finalised(Cleaned(w, m, env), m.sub, 0, [])
    else Cleaned(w, m, env)
  }

  lemma SubmitDb(w: World, m: SubmitMessage, env: SubmitEnv, limits: Limits)
    ensures AfterSubmit(w, m, env, limits).db == DbAfter(w, m, env, limits)
  {
    hide Advanced, Uncounted, ExitOf, Finalised, Cleaned;
    UncountedDb(w, m, env, limits);
    var w' := Uncounted(w, m, env, limits);
    var none := EvalRef(ContestId(0), RunId(0));
    AdvancedFacts(w', m.ref, m.sub, none);
    AdvancedFacts(w'.(db := Finalised(w'.db, m.sub, 0, [])), m.ref, m.sub, none);
  }

  lemma UncountedDb(w: World, m: SubmitMessage, env: SubmitEnv, limits: Limits)
    ensures Uncounted(w, m, env, limits).db == DbOf(w, m, env, ExitOf(w, m, env, limits))
  {
    hide ExitOf, DbOf, TokenMap;
  }

  /** The PERSIST finds a context whose run, if any, still wants the verdict. */
  predicate Concluding(w: World, p: PersistMessage) {
    p.sub in w.contexts && !Skips(w, w.contexts[p.sub].ref)
  }

  lemma PersistEffect(w: World, p: PersistMessage, env: PersistEnv, ref: EvalRef)
    ensures var w' := Persisted(w, p, env);
            && w'.records == w.records
            && w'.contexts == w.contexts - {p.sub}
            && w'.pending == (if p.sub in w.contexts then w.pending - {p.sub} else w.pending)
            && Counted(w', ref) == Counted(w, ref)
                 + (if Concluding(w, p) && w.contexts[p.sub].ref == Some(ref) && IsCurrent(w, ref) then {p.sub} else {})
            && Processed(w', ref) == Processed(w, ref)
                 + (if Concluding(w, p) && w.contexts[p.sub].ref == Some(ref) && IsCurrent(w, ref)
                       && p.sub !in Counted(w, ref) then 1 else 0)
  {
    hide Advanced, Written;
    if p.sub in w.contexts {
      AdvancedFacts(Dropped(w.(db := Written(w, p, env)), p.sub), w.contexts[p.sub].ref, p.sub, ref);
    } else {
      assert w.contexts - {p.sub} == w.contexts;
    }
  }

  /** A PERSIST cut short counts nothing; it drops the context, or leaves it and perhaps the schedule entry. */
  lemma CutEffect(w: World, p: PersistMessage, env: PersistEnv, cut: PersistCut)
    requires p.sub in w.contexts
    ensures var w' := CutShort(w, p, env, cut);
            && w'.records == w.records && w'.counted == w.counted && w'.processed == w.processed
            && w'.contexts == (if Forgets(cut) then w.contexts - {p.sub} else w.contexts)
            && w'.pending == (if cut == Wrote then w.pending else w.pending - {p.sub})
            && w'.db == if Concluding(w, p) then Written(w, p, env) else w.db
  {
    hide Written, Skips, Released, Active;
  }

  /** All but the last command of a whole PERSIST is its longest cut. */
  lemma CutIsPrefix(w: World, p: PersistMessage, env: PersistEnv)
    requires p.sub in w.contexts
    ensures var cut := CutShort(w, p, env, FreedBoth);
            var ref := w.contexts[p.sub].ref;
            Persisted(w, p, env) == if Skips(w, ref) then cut else Advanced(cut, ref, p.sub)
  {
    hide Written, Skips, Advanced, Released;
  }

  /** A SUBMIT cut short has at most cleaned its row and taken capacity. */
  lemma CrashEffect(w: World, m: SubmitMessage, env: SubmitEnv, stage: SubmitCut)
    ensures var w' := Crashed(w, m, env, stage);
            && w'.records == w.records && w'.counted == w.counted && w'.processed == w.processed
            && w'.contexts == w.contexts && w'.pending == w.pending && w'.db == Cleaned(w, m, env)
  {
    hide Cleaned;
  }

  /** ... and had been let through to its row. */
  lemma CrashReaches(w: World, m: SubmitMessage, env: SubmitEnv, stage: SubmitCut, limits: Limits)
    requires MayCrash(w, m, env, stage, limits)
    ensures ReachesRow(w, m, env)
  {
    hide Skips, Admits, SomeToken;
  }

  // ----- one step -----

  /** Counting x, once, keeps the count in step with the set. */
  lemma CountInStep(w: World, w': World, counts: bool, x: SubmissionId, ref: EvalRef, S: set<SubmissionId>)
    requires Counted(w, ref) <= S && Processed(w, ref) == |Counted(w, ref)| && (counts ==> x in S)
    requires Counted(w', ref) == Counted(w, ref) + if counts then {x} else {}
    requires Processed(w', ref) == Processed(w, ref) + if counts && x !in Counted(w, ref) then 1 else 0
    ensures Counted(w', ref) <= S && Processed(w', ref) == |Counted(w', ref)|
  {
    if counts && x in Counted(w, ref) {
      assert Counted(w, ref) + {x} == Counted(w, ref);
    }
  }

  lemma SubmitOwns(sys: System, at: nat, senv: SubmitEnv, acked: bool, limits: Limits, ref: EvalRef,
                   S: set<SubmissionId>)
    requires Owns(sys, ref, S) && at < |sys.submits|
    ensures Owns(Apply(sys, Submit(at, senv, acked), limits), ref, S)
  {
    hide ExitOf, AfterSubmit, Counted, Processed, Concludes;
    var m := sys.submits[at];
    var w' := AfterSubmit(sys.w, m, senv, limits);
    WithoutMembers(sys.submits, at);
    SubmitEffect(sys.w, m, senv, limits, ref);
    var counts := Concludes(sys.w, m, senv, limits) && m.ref == Some(ref) && IsCurrent(sys.w, ref);
    CountInStep(sys.w, w', counts, m.sub, ref, S);
  }

  lemma PersistOwns(sys: System, at: nat, penv: PersistEnv, acked: bool, limits: Limits, ref: EvalRef,
                    S: set<SubmissionId>)
    requires Owns(sys, ref, S) && at < |sys.persists|
    ensures Owns(Apply(sys, Persist(at, penv, acked), limits), ref, S)
  {
    hide Persisted, Counted, Processed, Skips;
    var p := sys.persists[at];
    var w' := Persisted(sys.w, p, penv);
    PersistEffect(sys.w, p, penv, ref);
    var counts := Concluding(sys.w, p) && sys.w.contexts[p.sub].ref == Some(ref) && IsCurrent(sys.w, ref);
    CountInStep(sys.w, w', counts, p.sub, ref, S);
  }

  lemma ConcludingHasContext(w: World, p: PersistMessage)
    requires Concluding(w, p)
    ensures p.sub in w.contexts
  {
  }

  lemma StepOwns(sys: System, e: Event, limits: Limits, ref: EvalRef, S: set<SubmissionId>)
    requires Owns(sys, ref, S) && Enabled(sys, e, limits) && !Supersedes(e, ref)
    ensures Owns(Apply(sys, e, limits), ref, S)
  {
    hide AfterSubmit, Persisted, CutShort, Dispatches, ExitOf, Crashed, MayCrash;
    match e {
      case Submit(at, senv, acked) => SubmitOwns(sys, at, senv, acked, limits, ref, S);
      case Persist(at, penv, acked) => PersistOwns(sys, at, penv, acked, limits, ref, S);
      case PersistCrash(at, penv, cut) => CutEffect(sys.w, sys.persists[at], penv, cut);
      case SubmitCrash(at, senv, stage) => CrashEffect(sys.w, sys.submits[at], senv, stage);
      case StartRun(_, _) =>
      case Poll(_, _) =>
      case Accept(_) =>
      case StrayPersist(_) =>
      case Expire(_) =>
      case Delete(_) =>
      case ReplaceTestcases(_) =>
      case OverrideScore(_, _) =>
    }
  }

  lemma {:induction false} RunOwns(sys: System, es: seq<Event>, limits: Limits, ref: EvalRef, S: set<SubmissionId>)
    requires Owns(sys, ref, S) && Runnable(sys, es, limits)
    requires forall i :: 0 <= i < |es| ==> !Supersedes(es[i], ref)
    ensures Owns(After(sys, es, limits), ref, S)
    decreases |es|
  {
    hide Owns, Apply, Enabled;
    if es != [] {
      StepOwns(sys, es[0], limits, ref, S);
      RunOwns(Apply(sys, es[0], limits), es[1..], limits, ref, S);
    }
  }

  /** Starting a run makes it the current one, with nothing counted. */
  lemma StartOwns(sys: System, ref: EvalRef, subs: seq<SubmissionId>, limits: Limits)
    requires Enabled(sys, StartRun(ref, subs), limits)
    ensures Owns(Apply(sys, StartRun(ref, subs), limits), ref, set s | s in subs)
  {
    DistinctSize(subs, set s | s in subs);
    var sys' := Apply(sys, StartRun(ref, subs), limits);
    forall i | 0 <= i < |sys'.submits| && sys'.submits[i].ref == Some(ref) ensures sys'.submits[i].sub in subs {
      if i >= |sys.submits| {
        assert sys'.submits[i] == RunMessages(subs, ref)[i - |sys.submits|];
      }
    }
  }

  // ----- completion -----

  /** The run reads COMPLETED exactly when every one of its submissions is counted. */
  lemma CompletedIff(sys: System, ref: EvalRef, S: set<SubmissionId>)
    requires Owns(sys, ref, S)
    ensures StatusOf(sys.w, ref) == Completed <==> Counted(sys.w, ref) == S
    ensures forall s :: s in S && s !in Counted(sys.w, ref) ==> RunValid(sys.w, ref)
  {
    SubsetSize(Counted(sys.w, ref), S);
  }

  /** The run reads PENDING until something is counted, RUNNING while something is missing, and COMPLETED then;
      over no submissions it is COMPLETED from the start. */
  lemma StatusIff(sys: System, ref: EvalRef, S: set<SubmissionId>)
    requires Owns(sys, ref, S)
    ensures StatusOf(sys.w, ref) == RunStatus.Pending <==> Counted(sys.w, ref) == {} && S != {}
    ensures StatusOf(sys.w, ref) == Running <==> Counted(sys.w, ref) != {} && Counted(sys.w, ref) != S
    ensures StatusOf(sys.w, ref) == Completed <==> Counted(sys.w, ref) == S
  {
    SubsetSize(Counted(sys.w, ref), S);
  }

  /** Nothing is left that could still count s for the run. */
  ghost predicate Unclaimed(sys: System, ref: EvalRef, s: SubmissionId) {
    && s !in Counted(sys.w, ref)
    && (forall i :: 0 <= i < |sys.submits| ==> !(sys.submits[i].sub == s && sys.submits[i].ref == Some(ref)))
    && !(s in sys.w.contexts && sys.w.contexts[s].ref == Some(ref))
  }

  lemma StepUnclaimed(sys: System, e: Event, limits: Limits, ref: EvalRef, s: SubmissionId)
    requires Unclaimed(sys, ref, s) && Enabled(sys, e, limits) && !Supersedes(e, ref)
    ensures Unclaimed(Apply(sys, e, limits), ref, s)
  {
    hide ExitOf, AfterSubmit, Persisted, CutShort, Concludes, Concluding, Dispatches, Crashed, MayCrash;
    match e {
      case Submit(at, senv, _) =>
        WithoutMembers(sys.submits, at);
        SubmitEffect(sys.w, sys.submits[at], senv, limits, ref);
      case Persist(at, penv, _) =>
        PersistEffect(sys.w, sys.persists[at], penv, ref);
        if Concluding(sys.w, sys.persists[at]) {
          ConcludingHasContext(sys.w, sys.persists[at]);
        }
      case PersistCrash(at, penv, cut) => CutEffect(sys.w, sys.persists[at], penv, cut);
      case SubmitCrash(at, senv, stage) => CrashEffect(sys.w, sys.submits[at], senv, stage);
      case StartRun(_, _) =>
      case Poll(_, _) =>
      case Accept(_) =>
      case StrayPersist(_) =>
      case Expire(_) =>
      case Delete(_) =>
      case ReplaceTestcases(_) =>
      case OverrideScore(_, _) =>
    }
  }

  /** Once a submission of the run is unclaimed the run never completes, whatever happens next. */
  lemma {:induction false} NeverCompletes(sys: System, es: seq<Event>, limits: Limits, ref: EvalRef,
                                          S: set<SubmissionId>, s: SubmissionId)
    requires Owns(sys, ref, S) && s in S && Unclaimed(sys, ref, s) && Runnable(sys, es, limits)
    requires forall i :: 0 <= i < |es| ==> !Supersedes(es[i], ref)
    ensures IsCurrent(After(sys, es, limits).w, ref) && StatusOf(After(sys, es, limits).w, ref) != Completed
    decreases |es|
  {
    hide Apply, Enabled, Unclaimed;
    if es == [] {
      StillUncounted(sys, ref, s);
      CompletedIff(sys, ref, S);
    } else {
      StepOwns(sys, es[0], limits, ref, S);
      StepUnclaimed(sys, es[0], limits, ref, s);
      NeverCompletes(Apply(sys, es[0], limits), es[1..], limits, ref, S, s);
    }
  }

  lemma StillUncounted(sys: System, ref: EvalRef, s: SubmissionId)
    requires Unclaimed(sys, ref, s)
    ensures s !in Counted(sys.w, ref)
  {
  }

  /** The step at which a claim is lost: a delivered SUBMIT of the run that was the last claim
      leaves s unclaimed exactly when s is already pending, which is then for another owner. */
  lemma ClaimLostIff(sys: System, at: nat, senv: SubmitEnv, limits: Limits, ref: EvalRef, S: set<SubmissionId>)
    requires Owns(sys, ref, S) && at < |sys.submits| && sys.submits[at].ref == Some(ref)
    requires Unclaimed(sys.(submits := Without(sys.submits, at)), ref, sys.submits[at].sub)
    ensures var s := sys.submits[at].sub;
            Unclaimed(Apply(sys, Submit(at, senv, true), limits), ref, s) <==> s in sys.w.pending
  {
    hide AfterSubmit, TokenMap;
    var m := sys.submits[at];
    var s := m.sub;
    var sys' := Apply(sys, Submit(at, senv, true), limits);
    CompletedIff(sys, ref, S);
    SubmitEffect(sys.w, m, senv, limits, ref);
    var retries := Retries(ExitOf(sys.w, m, senv, limits), m, limits);
    if retries != [] {
      assert sys'.submits[|Without(sys.submits, at)|] == retries[0];
    } else {
      assert sys'.submits == Without(sys.submits, at);
    }
  }
}
