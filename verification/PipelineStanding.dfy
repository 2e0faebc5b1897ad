/** Where every submission stands, whoever owns it: judged, under way, or stranded with neither a verdict
    nor anything that would still produce one; and exactly which events move it. */
module PipelineStanding {
  import opened Collections
  import opened Attribution
  import opened PipelineState
  import opened PipelineRuns
  import opened PipelineProgress
  import opened PipelineNoLoss
  import opened PipelineRows
  import opened PipelineClaims

  datatype Standing = Judged | Underway | Stranded

  /** A SUBMIT is queued for s or its context is in Redis, for any owner. */
  predicate Present(sys: System, s: SubmissionId) {
    Queued(sys.submits, s) > 0 || s in sys.w.contexts
  }

  /** A submission that is not in the database counts as judged: nothing is owed to it. */
  function StandingOf(sys: System, s: SubmissionId): Standing {
    if Settled(sys.w, s) then Judged else if Present(sys, s) then Underway else Stranded
  }

  // ----- the moves -----

  /** A judged submission loses its verdict: a re-evaluating SUBMIT cleans the row and does not
      conclude, a worker dies in such a SUBMIT, a run resets it, or it is new. */
  predicate Unsettles(sys: System, e: Event, limits: Limits, s: SubmissionId) {
    match e
    case Accept(x) => x == s
    case StartRun(_, subs) => s in subs
    case Submit(at, senv, _) =>
      at < |sys.submits| && sys.submits[at].sub == s && s in sys.w.db && Wipes(sys.w, sys.submits[at], senv, limits)
    case SubmitCrash(at, _, _) => at < |sys.submits| && sys.submits[at].sub == s && sys.submits[at].reevaluation
    case _ => false
  }

  /** The guards let a re-evaluation through to the row, and the delivery does not end in a verdict. */
  predicate Wipes(w: World, m: SubmitMessage, env: SubmitEnv, limits: Limits) {
    && m.reevaluation && !Skips(w, m.ref) && m.sub !in w.pending && env.load != LoadFails(true)
    && !Concludes(w, m, env, limits)
  }

  /** An unjudged submission gets its verdict, or is deleted. */
  predicate Settles(sys: System, e: Event, limits: Limits, s: SubmissionId) {
    match e
    case Submit(at, senv, _) =>
      at < |sys.submits| && sys.submits[at].sub == s && Concludes(sys.w, sys.submits[at], senv, limits)
    case Persist(at, penv, _) =>
      at < |sys.persists| && sys.persists[at].sub == s && Concluding(sys.w, sys.persists[at])
      && penv != CollectFails(true)
    case PersistCrash(at, penv, _) =>
      at < |sys.persists| && sys.persists[at].sub == s && Concluding(sys.w, sys.persists[at])
      && penv != CollectFails(true)
    case Delete(x) => x == s
    case _ => false
  }

  /** An unjudged submission loses the last thing that stands for it: its SUBMIT is acknowledged although
      it was turned away, PERSIST drops it without a verdict, completely or not, or its context expires. */
  predicate Strands(sys: System, e: Event, s: SubmissionId) {
    match e
    case Submit(at, _, acked) =>
      at < |sys.submits| && sys.submits[at].sub == s && acked && s !in sys.w.contexts
      && Queued(sys.submits, s) == 1 && (Skips(sys.w, sys.submits[at].ref) || s in sys.w.pending)
    case Persist(at, penv, _) =>
      at < |sys.persists| && sys.persists[at].sub == s && s in sys.w.contexts && Queued(sys.submits, s) == 0
      && (Skips(sys.w, sys.w.contexts[s].ref) || penv == CollectFails(true))
    case PersistCrash(at, penv, cut) =>
      at < |sys.persists| && sys.persists[at].sub == s && s in sys.w.contexts && Queued(sys.submits, s) == 0
      && Forgets(cut) && (Skips(sys.w, sys.w.contexts[s].ref) || penv == CollectFails(true))
    case Expire(x) => x == s && Queued(sys.submits, s) == 0
    case _ => false
  }

  /** A stranded submission is taken up by a new run, or deleted. */
  predicate Rescues(e: Event, s: SubmissionId) {
    e == Delete(s) || (e.StartRun? && s in e.subs)
  }

  /** The standing after an event, from the standing before it. */
  function Moved(sys: System, e: Event, limits: Limits, s: SubmissionId): Standing {
    match StandingOf(sys, s)
    case Judged => if Unsettles(sys, e, limits, s) then Underway else Judged
    case Underway => if Settles(sys, e, limits, s) then Judged else if Strands(sys, e, s) then Stranded else Underway
    case Stranded => if e == Delete(s) then Judged else if Rescues(e, s) then Underway else Stranded
  }

  // ----- SUBMIT -----

  /** A delivery takes a verdict away exactly when it wipes. */
  lemma SubmitUnsettlesIff(w: World, m: SubmitMessage, env: SubmitEnv, limits: Limits)
    requires m.sub in w.db && w.db[m.sub].evaluated
    ensures !Settled(AfterSubmit(w, m, env, limits), m.sub) <==> Wipes(w, m, env, limits)
  {
    hide AfterSubmit, Skips, Admits, SomeToken;
    SubmitDb(w, m, env, limits);
  }

  /** An unjudged submission is judged by a delivery exactly when that concludes. */
  lemma SubmitSettlesIff(w: World, m: SubmitMessage, env: SubmitEnv, limits: Limits)
    requires m.sub in w.db && !w.db[m.sub].evaluated
    ensures Settled(AfterSubmit(w, m, env, limits), m.sub) <==> Concludes(w, m, env, limits)
  {
    hide AfterSubmit, Skips, Admits, SomeToken;
    SubmitDb(w, m, env, limits);
  }

  lemma SubmitElsewhere(w: World, m: SubmitMessage, env: SubmitEnv, limits: Limits, s: SubmissionId)
    requires m.sub !in w.db || s != m.sub
    ensures Settled(AfterSubmit(w, m, env, limits), s) <==> Settled(w, s)
  {
    hide AfterSubmit, Skips, Admits, SomeToken;
    SubmitDb(w, m, env, limits);
  }

  /** What is left for s after a delivery that did not settle it. */
  lemma SubmitPresence(sys: System, at: nat, senv: SubmitEnv, acked: bool, limits: Limits, s: SubmissionId)
    requires at < |sys.submits|
    ensures var e := Submit(at, senv, acked);
            var sys' := Apply(sys, e, limits);
            && (sys.submits[at].sub != s ==> (Present(sys', s) <==> Present(sys, s)))
            && (sys.submits[at].sub == s && !Concludes(sys.w, sys.submits[at], senv, limits) ==>
                  (!Present(sys', s) <==> Strands(sys, e, s)))
  {
    hide AfterSubmit, ExitOf, Concludes, Skips, Processed, Counted;
    var m := sys.submits[at];
    var exit := ExitOf(sys.w, m, senv, limits);
    SubmitEffect(sys.w, m, senv, limits, EvalRef(ContestId(0), RunId(0)));
    QueuedWithout(sys.submits, at, s);
    QueuedAppend(if acked then Without(sys.submits, at) else sys.submits, Retries(exit, m, limits), s);
    if m.sub == s {
      RetriesQueued(exit, m, limits);
      if !Concludes(sys.w, m, senv, limits) {
        TurnedAway(sys.w, m, senv, limits);
      }
    } else {
      OthersQueued(exit, m, limits, s);
    }
  }

  /** A delivery that neither concludes, registers nor is queued again was turned away by a guard. */
  lemma TurnedAway(w: World, m: SubmitMessage, env: SubmitEnv, limits: Limits)
    requires !Concludes(w, m, env, limits)
    ensures var exit := ExitOf(w, m, env, limits);
            exit == Registered || exit == Backpressure || (exit == TransientFailure && m.retries < limits.maxRetries)
            <==> !Skips(w, m.ref) && m.sub !in w.pending
  {
    hide Skips, Admits, SomeToken;
  }

  lemma SubmitMoves(sys: System, at: nat, senv: SubmitEnv, acked: bool, limits: Limits, s: SubmissionId)
    requires at < |sys.submits|
    ensures var e := Submit(at, senv, acked);
            StandingOf(Apply(sys, e, limits), s) == Moved(sys, e, limits, s)
  {
    hide AfterSubmit, Concludes, Skips, Present;
    var m := sys.submits[at];
    SubmitPresence(sys, at, senv, acked, limits, s);
    if m.sub != s || s !in sys.w.db {
      SubmitElsewhere(sys.w, m, senv, limits, s);
    } else if sys.w.db[s].evaluated {
      SubmitUnsettlesIff(sys.w, m, senv, limits);
    } else {
      SubmitSettlesIff(sys.w, m, senv, limits);
    }
    StillThere(sys, Submit(at, senv, acked), s);
  }

  /** Something handled for s was there for s. */
  lemma StillThere(sys: System, e: Event, s: SubmissionId)
    ensures e.Submit? && e.at < |sys.submits| && sys.submits[e.at].sub == s ==> Present(sys, s)
    ensures e.SubmitCrash? && e.at < |sys.submits| && sys.submits[e.at].sub == s ==> Present(sys, s)
  {
    QueuedPositive(sys.submits, s);
  }

  // ----- the other events -----

  lemma PersistMoves(sys: System, at: nat, penv: PersistEnv, acked: bool, limits: Limits, s: SubmissionId)
    requires at < |sys.persists|
    ensures var e := Persist(at, penv, acked);
            StandingOf(Apply(sys, e, limits), s) == Moved(sys, e, limits, s)
  {
    hide Persisted, Skips, Processed, Counted;
    var p := sys.persists[at];
    PersistEffect(sys.w, p, penv, EvalRef(ContestId(0), RunId(0)));
    PersistSettles(sys.w, p, penv);
    if p.sub != s || s !in sys.w.contexts {
      PersistElsewhere(sys.w, p, penv, s);
    } else if !Settled(sys.w, s) {
      PersistDropsIff(sys.w, p, penv);
    }
  }

  lemma PersistElsewhere(w: World, p: PersistMessage, env: PersistEnv, s: SubmissionId)
    requires p.sub != s || s !in w.contexts
    ensures Settled(Persisted(w, p, env), s) <==> Settled(w, s)
  {
    hide PersistRows, Skips, Persisted;
    PersistDb(w, p, env);
  }

  lemma CutMoves(sys: System, at: nat, penv: PersistEnv, cut: PersistCut, limits: Limits, s: SubmissionId)
    requires Enabled(sys, PersistCrash(at, penv, cut), limits)
    ensures var e := PersistCrash(at, penv, cut);
            StandingOf(Apply(sys, e, limits), s) == Moved(sys, e, limits, s)
  {
    hide CutShort, Skips, Settled, Crashed, MayCrash;
    CutEffect(sys.w, sys.persists[at], penv, cut);
    CutSettles(sys.w, sys.persists[at], penv, cut);
    SameDbSettled(sys.w, CutShort(sys.w, sys.persists[at], penv, cut), s);
  }

  lemma SameDbSettled(w: World, w': World, s: SubmissionId)
    ensures w'.db == w.db ==> (Settled(w', s) <==> Settled(w, s))
  {
  }

  lemma CrashMoves(sys: System, at: nat, senv: SubmitEnv, stage: SubmitCut, limits: Limits, s: SubmissionId)
    requires Enabled(sys, SubmitCrash(at, senv, stage), limits)
    ensures var e := SubmitCrash(at, senv, stage);
            StandingOf(Apply(sys, e, limits), s) == Moved(sys, e, limits, s)
  {
    hide Skips, Admits;
    StillThere(sys, SubmitCrash(at, senv, stage), s);
  }

  lemma StartMoves(sys: System, ref: EvalRef, subs: seq<SubmissionId>, limits: Limits, s: SubmissionId)
    requires Enabled(sys, StartRun(ref, subs), limits)
    ensures var e := StartRun(ref, subs);
            StandingOf(Apply(sys, e, limits), s) == Moved(sys, e, limits, s)
  {
    var q := RunMessages(subs, ref);
    QueuedAppend(sys.submits, q, s);
    QueuedPositive(q, s);
    if i :| 0 <= i < |subs| && subs[i] == s {
      assert q[i].sub == s;
    }
  }

  lemma AcceptMoves(sys: System, x: SubmissionId, limits: Limits, s: SubmissionId)
    requires Enabled(sys, Accept(x), limits)
    ensures StandingOf(Apply(sys, Accept(x), limits), s) == Moved(sys, Accept(x), limits, s)
  {
    QueuedAppend(sys.submits, [SubmitMessage(x, false, None, 0)], s);
    QueuedOne(SubmitMessage(x, false, None, 0), s);
  }

  /** Every event moves every submission exactly as its guards say. */
  lemma StepMoves(sys: System, e: Event, limits: Limits, s: SubmissionId)
    requires Enabled(sys, e, limits)
    ensures StandingOf(Apply(sys, e, limits), s) == Moved(sys, e, limits, s)
  {
    hide AfterSubmit, Persisted, CutShort, Crashed, Dispatches, ExitOf, Concludes, MayCrash;
    match e {
      case Submit(at, senv, acked) => SubmitMoves(sys, at, senv, acked, limits, s);
      case Persist(at, penv, acked) => PersistMoves(sys, at, penv, acked, limits, s);
      case SubmitCrash(at, senv, stage) => CrashMoves(sys, at, senv, stage, limits, s);
      case PersistCrash(at, penv, cut) => CutMoves(sys, at, penv, cut, limits, s);
      case StartRun(ref, subs) => StartMoves(sys, ref, subs, limits, s);
      case Accept(x) => AcceptMoves(sys, x, limits, s);
      case Poll(_, _) =>
      case StrayPersist(_) =>
      case Expire(_) =>
      case Delete(_) =>
      case ReplaceTestcases(_) =>
      case OverrideScore(_, _) =>
    }
  }

  // ----- whole runs -----

  ghost predicate Unrescued(es: seq<Event>, s: SubmissionId) {
    forall i :: 0 <= i < |es| ==> !Rescues(es[i], s)
  }

  /** Some event strands s, and nothing after it takes s up again. */
  ghost predicate StrandedFor(sys: System, es: seq<Event>, limits: Limits, s: SubmissionId)
    requires Runnable(sys, es, limits)
    decreases |es|
  {
    && es != []
    && ((StandingOf(sys, s) == Underway && !Settles(sys, es[0], limits, s) && Strands(sys, es[0], s)
         && Unrescued(es[1..], s))
        || StrandedFor(Apply(sys, es[0], limits), es[1..], limits, s))
  }

  /** At the end of a run s is stranded exactly when it was and was not rescued, or was stranded for good. */
  lemma {:induction false} StrandedIff(sys: System, es: seq<Event>, limits: Limits, s: SubmissionId)
    requires Runnable(sys, es, limits)
    ensures StandingOf(After(sys, es, limits), s) == Stranded
            <==> (StandingOf(sys, s) == Stranded && Unrescued(es, s)) || StrandedFor(sys, es, limits, s)
    decreases |es|
  {
    hide StandingOf, Apply, Enabled, Strands, Settles, Unsettles, Rescues;
    if es != [] {
      StepMoves(sys, es[0], limits, s);
      StrandedIff(Apply(sys, es[0], limits), es[1..], limits, s);
      assert Unrescued(es, s) <==> !Rescues(es[0], s) && Unrescued(es[1..], s);
      DeletionRescues(es[0], s);
    }
  }

  lemma DeletionRescues(e: Event, s: SubmissionId)
    ensures e == Delete(s) ==> Rescues(e, s)
  {
  }

  /** A verdict is wiped, and what the wiping left is then stranded for good. */
  ghost predicate WipedAndStranded(sys: System, es: seq<Event>, limits: Limits, s: SubmissionId)
    requires Runnable(sys, es, limits)
    decreases |es|
  {
    && es != []
    && ((StandingOf(sys, s) == Judged && Unsettles(sys, es[0], limits, s)
         && StrandedFor(Apply(sys, es[0], limits), es[1..], limits, s))
        || WipedAndStranded(Apply(sys, es[0], limits), es[1..], limits, s))
  }

  /** A judged submission ends up stranded exactly when its verdict is wiped first. */
  lemma {:induction false} JudgedLostIff(sys: System, es: seq<Event>, limits: Limits, s: SubmissionId)
    requires StandingOf(sys, s) == Judged && Runnable(sys, es, limits)
    ensures StandingOf(After(sys, es, limits), s) == Stranded <==> WipedAndStranded(sys, es, limits, s)
    decreases |es|
  {
    hide StandingOf, Apply, Enabled, Strands, Settles, Unsettles, Rescues;
    if es != [] {
      var sys1 := Apply(sys, es[0], limits);
      StepMoves(sys, es[0], limits, s);
      if Unsettles(sys, es[0], limits, s) {
        StrandedIff(sys1, es[1..], limits, s);
        WipedIsStranded(sys1, es[1..], limits, s);
      } else {
        JudgedLostIff(sys1, es[1..], limits, s);
      }
    }
  }

  lemma {:induction false} WipedIsStranded(sys: System, es: seq<Event>, limits: Limits, s: SubmissionId)
    requires Runnable(sys, es, limits)
    ensures WipedAndStranded(sys, es, limits, s) ==> StrandedFor(sys, es, limits, s)
    decreases |es|
  {
    hide StandingOf, Apply, Enabled, Strands, Settles, Unsettles, Rescues, Unrescued;
    if es != [] {
      WipedIsStranded(Apply(sys, es[0], limits), es[1..], limits, s);
    }
  }

  /** A live submission, from its acceptance on and whoever else takes it up: at any time it is judged,
      queued or registered, unless some event has stranded it for good; a registered one is scheduled or
      has its PERSIST queued; and when nothing else takes it up and its SUBMIT is delivered once it is in
      exactly one place. */
  lemma LiveNotLost(sys: System, s: SubmissionId, es: seq<Event>, limits: Limits)
    requires Enabled(sys, Accept(s), limits) && Runnable(Apply(sys, Accept(s), limits), es, limits)
    ensures var sys1 := Apply(sys, Accept(s), limits);
            var sys2 := After(sys1, es, limits);
            && (Settled(sys2.w, s) || Present(sys2, s) <==> !StrandedFor(sys1, es, limits, s))
            && Collectable(sys2, s)
            && (CalmRun(sys1, es, limits, None, s, true) ==> InOnePlace(sys2, None, s))
  {
    hide StrandedFor, Runnable, After, Collectable, CalmRun, InOnePlace, Settled, Present;
    var sys1 := Apply(sys, Accept(s), limits);
    Accepted(sys, s, limits);
    StrandedIff(sys1, es, limits, s);
    RunCollectable(sys1, es, limits, s);
    if CalmRun(sys1, es, limits, None, s, true) {
      LiveOnePlace(sys, s, es, limits);
    }
  }

  lemma Accepted(sys: System, s: SubmissionId, limits: Limits)
    requires Enabled(sys, Accept(s), limits)
    ensures var sys1 := Apply(sys, Accept(s), limits);
            StandingOf(sys1, s) == Underway && Collectable(sys1, s)
  {
    AcceptMoves(sys, s, limits, s);
  }

  /** A submission of a bulk run started in any state, once nothing is queued or registered for it: it has
      its verdict exactly when no event of the run stranded it for good, whether or not the run completed.
      Single delivery of a submission that nothing else takes up rules that out. */
  lemma BulkJudgedIff(sys: System, ref: EvalRef, subs: seq<SubmissionId>, es: seq<Event>, limits: Limits,
                      s: SubmissionId)
    requires Enabled(sys, StartRun(ref, subs), limits) && s in subs
    requires Runnable(Apply(sys, StartRun(ref, subs), limits), es, limits)
    requires !Present(After(Apply(sys, StartRun(ref, subs), limits), es, limits), s)
    ensures var sys1 := Apply(sys, StartRun(ref, subs), limits);
            && (Settled(After(sys1, es, limits).w, s) <==> !StrandedFor(sys1, es, limits, s))
            && (Idle(sys, s) && CalmRun(sys1, es, limits, Some(ref), s, true) ==> Settled(After(sys1, es, limits).w, s))
  {
    hide StrandedFor, Runnable, After, Settled, Present, Idle, CalmRun, InOnePlace;
    var sys1 := Apply(sys, StartRun(ref, subs), limits);
    StepMoves(sys, StartRun(ref, subs), limits, s);
    StrandedIff(sys1, es, limits, s);
    if Idle(sys, s) && CalmRun(sys1, es, limits, Some(ref), s, true) {
      BulkOnePlace(sys, ref, subs, es, limits, s, true);
      PlacedAndGone(After(sys1, es, limits), Some(ref), s);
    }
  }

  lemma PlacedAndGone(sys: System, k: Owner, s: SubmissionId)
    requires InOnePlace(sys, k, s) && !Present(sys, s)
    ensures Settled(sys.w, s)
  {
    var place :| At(sys, k, s, place);
  }

  lemma StepCounted(sys: System, e: Event, limits: Limits, ref: EvalRef, s: SubmissionId)
    requires IsCurrent(sys.w, ref) && s in Counted(sys.w, ref) && Enabled(sys, e, limits) && !Supersedes(e, ref)
    ensures s in Counted(Apply(sys, e, limits).w, ref)
  {
    hide AfterSubmit, Persisted, CutShort, Dispatches, ExitOf, Concludes, Processed, Crashed, MayCrash;
    match e {
      case Submit(at, senv, _) => SubmitEffect(sys.w, sys.submits[at], senv, limits, ref);
      case Persist(at, penv, _) => PersistEffect(sys.w, sys.persists[at], penv, ref);
      case PersistCrash(at, penv, cut) => CutEffect(sys.w, sys.persists[at], penv, cut);
      case SubmitCrash(at, senv, stage) => CrashEffect(sys.w, sys.submits[at], senv, stage);
      case _ =>
    }
  }

  /** A submission counted with its verdict stays counted for as long as the run is current, which can
      read COMPLETED all the while; it ends with neither a verdict nor anything queued or registered
      exactly when an event wipes the verdict and a later one strands what that left. */
  lemma {:induction false} CountedLostIff(sys: System, es: seq<Event>, limits: Limits, ref: EvalRef,
                                          S: set<SubmissionId>, s: SubmissionId)
    requires Owns(sys, ref, S) && s in Counted(sys.w, ref) && Settled(sys.w, s)
    requires Runnable(sys, es, limits) && StaysCurrent(es, ref)
    ensures var end := After(sys, es, limits);
            && IsCurrent(end.w, ref) && s in Counted(end.w, ref)
            && (!Settled(end.w, s) && !Present(end, s) <==> WipedAndStranded(sys, es, limits, s))
  {
    hide WipedAndStranded, Runnable, After, Settled, Present, Counted, Owns;
    CountedStays(sys, es, limits, ref, S, s);
    JudgedLostIff(sys, es, limits, s);
  }

  lemma {:induction false} CountedStays(sys: System, es: seq<Event>, limits: Limits, ref: EvalRef, S: set<SubmissionId>,
                                        s: SubmissionId)
    requires Owns(sys, ref, S) && s in Counted(sys.w, ref) && Runnable(sys, es, limits) && StaysCurrent(es, ref)
    ensures IsCurrent(After(sys, es, limits).w, ref) && s in Counted(After(sys, es, limits).w, ref)
    decreases |es|
  {
    hide Apply, Enabled, Counted, Owns;
    OwnsCurrent(sys, ref, S);
    if es != [] {
      StepOwns(sys, es[0], limits, ref, S);
      StepCounted(sys, es[0], limits, ref, s);
      CountedStays(Apply(sys, es[0], limits), es[1..], limits, ref, S, s);
    }
  }
}
