/** Which bulk runs complete: for a run started in any state, over submissions that may be queued or
    registered for other owners, exactly the events that rob a submission of its last claim keep the
    run from completing. */
module PipelineClaims {
  import opened Collections
  import opened PipelineState
  import opened PipelineRuns
  import opened PipelineProgress
  import opened PipelineNoLoss

  // ----- claims -----

  predicate IsClaim(m: SubmitMessage, ref: EvalRef, s: SubmissionId) {
    m.sub == s && m.ref == Some(ref)
  }

  ghost predicate QueuedFor(q: seq<SubmitMessage>, ref: EvalRef, s: SubmissionId) {
    exists i :: 0 <= i < |q| && IsClaim(q[i], ref, s)
  }

  predicate RegisteredFor(w: World, ref: EvalRef, s: SubmissionId) {
    s in w.contexts && w.contexts[s].ref == Some(ref)
  }

  lemma UnclaimedMeans(sys: System, ref: EvalRef, s: SubmissionId)
    ensures Unclaimed(sys, ref, s)
            <==> s !in Counted(sys.w, ref) && !QueuedFor(sys.submits, ref, s) && !RegisteredFor(sys.w, ref, s)
  {
  }

  lemma QueuedForAppend(q: seq<SubmitMessage>, r: seq<SubmitMessage>, ref: EvalRef, s: SubmissionId)
    ensures QueuedFor(q + r, ref, s) <==> QueuedFor(q, ref, s) || QueuedFor(r, ref, s)
  {
    if i :| 0 <= i < |q| && IsClaim(q[i], ref, s) {
      assert IsClaim((q + r)[i], ref, s);
    }
    if i :| 0 <= i < |r| && IsClaim(r[i], ref, s) {
      assert IsClaim((q + r)[|q| + i], ref, s);
    }
  }

  lemma QueuedForWithout(q: seq<SubmitMessage>, at: nat, ref: EvalRef, s: SubmissionId)
    requires at < |q|
    ensures QueuedFor(q, ref, s) <==> QueuedFor(Without(q, at), ref, s) || IsClaim(q[at], ref, s)
  {
    assert q == q[..at] + [q[at]] + q[at + 1..];
    QueuedForAppend(q[..at], q[at + 1..], ref, s);
    QueuedForAppend(q[..at] + [q[at]], q[at + 1..], ref, s);
    QueuedForAppend(q[..at], [q[at]], ref, s);
    if IsClaim(q[at], ref, s) {
      assert IsClaim([q[at]][0], ref, s);
    }
  }

  // ----- robbing -----

  /** The event takes a claim of s away: the run's SUBMIT finds s pending for another owner and is
      acknowledged, another owner's SUBMIT registers over the run's context, a PERSIST dies after deleting
      that context, or the context expires. */
  ghost predicate Robs(sys: System, e: Event, limits: Limits, ref: EvalRef, s: SubmissionId)
    requires Enabled(sys, e, limits)
  {
    match e
    case Submit(at, senv, acked) =>
      var m := sys.submits[at];
      m.sub == s
      && (if m.ref == Some(ref) then acked && s in sys.w.pending && !RegisteredFor(sys.w, ref, s)
          else RegisteredFor(sys.w, ref, s) && ExitOf(sys.w, m, senv, limits) == Registered)
    case PersistCrash(at, _, cut) => sys.persists[at].sub == s && Forgets(cut) && RegisteredFor(sys.w, ref, s)
    case Expire(x) => x == s && RegisteredFor(sys.w, ref, s)
    case _ => false
  }

  /** ... and it was the last one of a submission not yet counted. */
  ghost predicate RobsLast(sys: System, e: Event, limits: Limits, ref: EvalRef, s: SubmissionId)
    requires Enabled(sys, e, limits)
  {
    && s !in Counted(sys.w, ref) && Robs(sys, e, limits, ref, s)
    && !QueuedFor(if e.Submit? then Without(sys.submits, e.at) else sys.submits, ref, s)
  }

  /** A delivery that the guards let through registers, concludes, or is queued again. */
  lemma LetThrough(w: World, m: SubmitMessage, env: SubmitEnv, limits: Limits)
    requires !Skips(w, m.ref)
    ensures ExitOf(w, m, env, limits) == AlreadyPending <==> m.sub in w.pending
    ensures m.sub !in w.pending ==>
              var exit := ExitOf(w, m, env, limits);
              exit == Registered || Concludes(w, m, env, limits) || Retries(exit, m, limits) != []
  {
    ExitCases(w, m, env, limits);
  }

  lemma RetriesAre(exit: SubmitExit, m: SubmitMessage, limits: Limits, ref: EvalRef, s: SubmissionId)
    ensures QueuedFor(Retries(exit, m, limits), ref, s) <==> Retries(exit, m, limits) != [] && IsClaim(m, ref, s)
  {
    var r := Retries(exit, m, limits);
    if r != [] {
      assert IsClaim(r[0], ref, s) == IsClaim(m, ref, s);
    }
  }

  /** The run's messages for s after a delivery. */
  lemma QueueAfter(sys: System, at: nat, senv: SubmitEnv, acked: bool, limits: Limits, ref: EvalRef, s: SubmissionId)
    requires at < |sys.submits|
    ensures var m := sys.submits[at];
            QueuedFor(Apply(sys, Submit(at, senv, acked), limits).submits, ref, s)
            <==> QueuedFor(Without(sys.submits, at), ref, s)
                 || (IsClaim(m, ref, s) && (!acked || Retries(ExitOf(sys.w, m, senv, limits), m, limits) != []))
  {
    hide AfterSubmit, ExitOf, Retries, QueuedFor, Without;
    var m := sys.submits[at];
    var exit := ExitOf(sys.w, m, senv, limits);
    QueuedForWithout(sys.submits, at, ref, s);
    QueuedForAppend(if acked then Without(sys.submits, at) else sys.submits, Retries(exit, m, limits), ref, s);
    RetriesAre(exit, m, limits, ref, s);
  }

  lemma SubmitRobbedIff(sys: System, at: nat, senv: SubmitEnv, acked: bool, limits: Limits, ref: EvalRef,
                        S: set<SubmissionId>, s: SubmissionId)
    requires Owns(sys, ref, S) && s in S && !Unclaimed(sys, ref, s) && at < |sys.submits|
    ensures var e := Submit(at, senv, acked);
            Unclaimed(Apply(sys, e, limits), ref, s) <==> RobsLast(sys, e, limits, ref, s)
  {
    hide AfterSubmit, ExitOf, Concludes, Retries, QueuedFor, Unclaimed, Skips, Processed, Counted, Without, Owns;
    var m := sys.submits[at];
    OwnsCurrent(sys, ref, S);
    UnclaimedMeans(sys, ref, s);
    UnclaimedMeans(Apply(sys, Submit(at, senv, acked), limits), ref, s);
    SubmitEffect(sys.w, m, senv, limits, ref);
    QueuedForWithout(sys.submits, at, ref, s);
    QueueAfter(sys, at, senv, acked, limits, ref, s);
    if s !in Counted(sys.w, ref) {
      NotSkipped(sys, Some(ref), s, S);
      if m.ref == Some(ref) {
        LetThrough(sys.w, m, senv, limits);
        if m.sub in sys.w.pending {
          PendingLeaves(sys.w, m, senv, limits);
        }
      }
    }
  }

  lemma PendingLeaves(w: World, m: SubmitMessage, env: SubmitEnv, limits: Limits)
    requires ExitOf(w, m, env, limits) == AlreadyPending
    ensures !Concludes(w, m, env, limits) && Retries(ExitOf(w, m, env, limits), m, limits) == []
  {
    hide ExitOf;
  }

  lemma PersistKeepsClaim(sys: System, at: nat, penv: PersistEnv, acked: bool, limits: Limits, ref: EvalRef,
                          S: set<SubmissionId>, s: SubmissionId)
    requires Owns(sys, ref, S) && s in S && !Unclaimed(sys, ref, s) && at < |sys.persists|
    ensures !Unclaimed(Apply(sys, Persist(at, penv, acked), limits), ref, s)
  {
    hide Persisted, Skips, Processed;
    PersistEffect(sys.w, sys.persists[at], penv, ref);
    if s !in Counted(sys.w, ref) {
      NotSkipped(sys, Some(ref), s, S);
    }
  }

  lemma CutRobbedIff(sys: System, at: nat, penv: PersistEnv, cut: PersistCut, limits: Limits, ref: EvalRef,
                     s: SubmissionId)
    requires !Unclaimed(sys, ref, s) && Enabled(sys, PersistCrash(at, penv, cut), limits)
    ensures var e := PersistCrash(at, penv, cut);
            Unclaimed(Apply(sys, e, limits), ref, s) <==> RobsLast(sys, e, limits, ref, s)
  {
    hide CutShort, QueuedFor, Unclaimed, Crashed, MayCrash;
    var e := PersistCrash(at, penv, cut);
    CutEffect(sys.w, sys.persists[at], penv, cut);
    UnclaimedMeans(sys, ref, s);
    UnclaimedMeans(Apply(sys, e, limits), ref, s);
  }

  /** An event of a current run leaves a submission unclaimed exactly when it robs its last claim. */
  lemma StepRobbedIff(sys: System, e: Event, limits: Limits, ref: EvalRef, S: set<SubmissionId>, s: SubmissionId)
    requires Owns(sys, ref, S) && s in S && !Unclaimed(sys, ref, s)
    requires Enabled(sys, e, limits) && !Supersedes(e, ref)
    ensures Unclaimed(Apply(sys, e, limits), ref, s) <==> RobsLast(sys, e, limits, ref, s)
  {
    hide AfterSubmit, Persisted, CutShort, Dispatches, ExitOf, Concludes, Processed, Crashed, MayCrash;
    match e {
      case Submit(at, senv, acked) => SubmitRobbedIff(sys, at, senv, acked, limits, ref, S, s);
      case Persist(at, penv, acked) => PersistKeepsClaim(sys, at, penv, acked, limits, ref, S, s);
      case PersistCrash(at, penv, cut) => CutRobbedIff(sys, at, penv, cut, limits, ref, s);
      case StartRun(r, subs) =>
        UnclaimedMeans(sys, ref, s);
        UnclaimedMeans(Apply(sys, e, limits), ref, s);
        QueuedForAppend(sys.submits, RunMessages(subs, r), ref, s);
      case Accept(x) =>
        UnclaimedMeans(sys, ref, s);
        UnclaimedMeans(Apply(sys, e, limits), ref, s);
        QueuedForAppend(sys.submits, [SubmitMessage(x, false, None, 0)], ref, s);
      case Expire(_) =>
      case SubmitCrash(at, senv, stage) => CrashEffect(sys.w, sys.submits[at], senv, stage);
      case Poll(_, _) =>
      case StrayPersist(_) =>
      case Delete(_) =>
      case ReplaceTestcases(_) =>
      case OverrideScore(_, _) =>
    }
  }

  // ----- whole runs -----

  /** Some event along the way robs s of its last claim. */
  ghost predicate Robbed(sys: System, es: seq<Event>, limits: Limits, ref: EvalRef, s: SubmissionId)
    requires Runnable(sys, es, limits)
    decreases |es|
  {
    es != [] && (RobsLast(sys, es[0], limits, ref, s) || Robbed(Apply(sys, es[0], limits), es[1..], limits, ref, s))
  }

  ghost predicate StaysCurrent(es: seq<Event>, ref: EvalRef) {
    forall i :: 0 <= i < |es| ==> !Supersedes(es[i], ref)
  }

  /** While the run stays current a claim is gone exactly when it was missing or has been robbed. */
  lemma {:induction false} UnclaimedIff(sys: System, es: seq<Event>, limits: Limits, ref: EvalRef, S: set<SubmissionId>,
                                        s: SubmissionId)
    requires Owns(sys, ref, S) && s in S && Runnable(sys, es, limits) && StaysCurrent(es, ref)
    ensures Unclaimed(After(sys, es, limits), ref, s) <==> Unclaimed(sys, ref, s) || Robbed(sys, es, limits, ref, s)
    decreases |es|
  {
    hide Apply, Enabled, Unclaimed, Owns, RobsLast;
    if es != [] {
      StepOwns(sys, es[0], limits, ref, S);
      if Unclaimed(sys, ref, s) {
        StepUnclaimed(sys, es[0], limits, ref, s);
      } else {
        StepRobbedIff(sys, es[0], limits, ref, S, s);
      }
      UnclaimedIff(Apply(sys, es[0], limits), es[1..], limits, ref, S, s);
    }
  }

  /** Nothing of the run is queued or registered. */
  ghost predicate Drained(sys: System, ref: EvalRef) {
    && (forall i :: 0 <= i < |sys.submits| ==> sys.submits[i].ref != Some(ref))
    && (forall s :: s in sys.w.contexts ==> sys.w.contexts[s].ref != Some(ref))
  }

  /** A run that stays current and drains is completed exactly when, along the way, no submission of
      it was robbed of its last claim; and robbing one keeps it from completing, drained or not. */
  lemma DrainedIff(sys: System, es: seq<Event>, limits: Limits, ref: EvalRef, S: set<SubmissionId>)
    requires Owns(sys, ref, S) && forall s :: s in S ==> !Unclaimed(sys, ref, s)
    requires Runnable(sys, es, limits) && StaysCurrent(es, ref)
    ensures var sys' := After(sys, es, limits);
            && IsCurrent(sys'.w, ref)
            && (Drained(sys', ref) ==>
                  (StatusOf(sys'.w, ref) == Completed <==> forall s :: s in S ==> !Robbed(sys, es, limits, ref, s)))
            && ((exists s :: s in S && Robbed(sys, es, limits, ref, s)) ==> StatusOf(sys'.w, ref) != Completed)
  {
    hide Robbed, Runnable, After, Unclaimed, StatusOf, Owns;
    var sys' := After(sys, es, limits);
    RunOwns(sys, es, limits, ref, S);
    OwnsCurrent(sys', ref, S);
    CompletedIff(sys', ref, S);
    forall s | s in S
      ensures Robbed(sys, es, limits, ref, s) <==> Unclaimed(sys', ref, s)
      ensures Unclaimed(sys', ref, s) ==> s !in Counted(sys'.w, ref)
      ensures Drained(sys', ref) && s !in Counted(sys'.w, ref) ==> Unclaimed(sys', ref, s)
    {
      UnclaimedIff(sys, es, limits, ref, S, s);
      UnclaimedMeans(sys', ref, s);
    }
  }

  lemma OwnsCurrent(sys: System, ref: EvalRef, S: set<SubmissionId>)
    requires Owns(sys, ref, S)
    ensures Counted(sys.w, ref) <= S && IsCurrent(sys.w, ref)
  {
  }

  /** Every submission of a new run has a claim: its message. */
  lemma StartedClaimed(sys: System, ref: EvalRef, subs: seq<SubmissionId>, limits: Limits, s: SubmissionId)
    requires Enabled(sys, StartRun(ref, subs), limits) && s in subs
    ensures !Unclaimed(Apply(sys, StartRun(ref, subs), limits), ref, s)
  {
    var q := RunMessages(subs, ref);
    var i :| 0 <= i < |subs| && subs[i] == s;
    assert IsClaim(q[i], ref, s);
    QueuedForAppend(sys.submits, q, ref, s);
    UnclaimedMeans(Apply(sys, StartRun(ref, subs), limits), ref, s);
  }

  /** From any state whatever, superseding an unfinished run or taking up submissions that are queued
      or registered for another owner: a run that stays current and drains reads COMPLETED, with its
      counted set exactly its submissions, if and only if none of them was robbed. */
  lemma BulkCompletes(sys: System, ref: EvalRef, subs: seq<SubmissionId>, es: seq<Event>, limits: Limits)
    requires Enabled(sys, StartRun(ref, subs), limits)
    requires Runnable(Apply(sys, StartRun(ref, subs), limits), es, limits) && StaysCurrent(es, ref)
    ensures var sys1 := Apply(sys, StartRun(ref, subs), limits);
            var sys2 := After(sys1, es, limits);
            && IsCurrent(sys2.w, ref)
            && (StatusOf(sys2.w, ref) == Completed <==> Counted(sys2.w, ref) == set s | s in subs)
            && (Drained(sys2, ref) ==>
                  (StatusOf(sys2.w, ref) == Completed <==> forall s :: s in subs ==> !Robbed(sys1, es, limits, ref, s)))
            && ((exists s :: s in subs && Robbed(sys1, es, limits, ref, s)) ==> StatusOf(sys2.w, ref) != Completed)
  {
    hide Robbed, Runnable, After, Unclaimed, StatusOf, Owns, Drained, Apply, Enabled;
    var S := set s | s in subs;
    var sys1 := Apply(sys, StartRun(ref, subs), limits);
    StartOwns(sys, ref, subs, limits);
    forall s | s in S ensures !Unclaimed(sys1, ref, s) {
      StartedClaimed(sys, ref, subs, limits, s);
    }
    DrainedIff(sys1, es, limits, ref, S);
    RunOwns(sys1, es, limits, ref, S);
    CompletedIff(After(sys1, es, limits), ref, S);
  }

  /** Each submission of such a run: it stays queued or registered for the run, or counted, exactly
      as long as it is not robbed; and an uncounted one never sees the run as completed. Where nothing
      else takes it up and its SUBMIT is delivered once it is in exactly one place. */
  lemma BulkNotLost(sys: System, ref: EvalRef, subs: seq<SubmissionId>, es: seq<Event>, limits: Limits, s: SubmissionId)
    requires Enabled(sys, StartRun(ref, subs), limits) && s in subs
    requires Runnable(Apply(sys, StartRun(ref, subs), limits), es, limits) && StaysCurrent(es, ref)
    ensures var sys1 := Apply(sys, StartRun(ref, subs), limits);
            var sys2 := After(sys1, es, limits);
            && (s in Counted(sys2.w, ref) || QueuedFor(sys2.submits, ref, s) || RegisteredFor(sys2.w, ref, s)
                <==> !Robbed(sys1, es, limits, ref, s))
            && (s !in Counted(sys2.w, ref) ==> RunValid(sys2.w, ref))
            && (Collectable(sys, s) ==> Collectable(sys2, s))
            && (Idle(sys, s) && CalmRun(sys1, es, limits, Some(ref), s, true) ==> InOnePlace(sys2, Some(ref), s))
  {
    hide Robbed, Runnable, After, Unclaimed, Owns, Apply, Enabled, Idle, CalmRun, InOnePlace, Collectable;
    var S := set x | x in subs;
    var sys1 := Apply(sys, StartRun(ref, subs), limits);
    var sys2 := After(sys1, es, limits);
    StartOwns(sys, ref, subs, limits);
    StartedClaimed(sys, ref, subs, limits, s);
    UnclaimedIff(sys1, es, limits, ref, S, s);
    UnclaimedMeans(sys2, ref, s);
    RunOwns(sys1, es, limits, ref, S);
    CompletedIff(sys2, ref, S);
    if Collectable(sys, s) {
      StepCollectable(sys, StartRun(ref, subs), limits, s);
      RunCollectable(sys1, es, limits, s);
    }
    if Idle(sys, s) && CalmRun(sys1, es, limits, Some(ref), s, true) {
      BulkOnePlace(sys, ref, subs, es, limits, s, true);
    }
  }

  // ----- overlapping owners -----

  /** The message at the given place is the only claim of s. */
  ghost predicate OnlyClaim(sys: System, ref: EvalRef, s: SubmissionId, at: nat) {
    && at < |sys.submits| && IsClaim(sys.submits[at], ref, s)
    && (forall i :: 0 <= i < |sys.submits| && i != at ==> !IsClaim(sys.submits[i], ref, s))
    && s !in Counted(sys.w, ref) && !RegisteredFor(sys.w, ref, s)
  }

  ghost predicate StillWaiting(sys: System, ref: EvalRef, s: SubmissionId) {
    exists at :: OnlyClaim(sys, ref, s, at)
  }

  /** A SUBMIT of the run for s is delivered. */
  predicate Delivers(sys: System, e: Event, ref: EvalRef, s: SubmissionId) {
    e.Submit? && e.at < |sys.submits| && IsClaim(sys.submits[e.at], ref, s)
  }

  /** The first delivery of the run's SUBMIT for s along a run, with the state it finds. */
  ghost function FirstDelivery(sys: System, es: seq<Event>, limits: Limits, ref: EvalRef, s: SubmissionId)
    : (r: Option<(System, Event)>)
    requires Runnable(sys, es, limits)
    ensures r.Some? ==> Enabled(r.value.0, r.value.1, limits) && Delivers(r.value.0, r.value.1, ref, s)
    decreases |es|
  {
    if es == [] then None
    else if Delivers(sys, es[0], ref, s) then Some((sys, es[0]))
    else FirstDelivery(Apply(sys, es[0], limits), es[1..], limits, ref, s)
  }

  /** Starting a run gives each of its submissions one claim, whoever else holds it. */
  lemma StartedOnlyClaim(sys: System, ref: EvalRef, subs: seq<SubmissionId>, i: nat, limits: Limits)
    requires Enabled(sys, StartRun(ref, subs), limits) && i < |subs|
    ensures OnlyClaim(Apply(sys, StartRun(ref, subs), limits), ref, subs[i], |sys.submits| + i)
  {
    var sys1 := Apply(sys, StartRun(ref, subs), limits);
    var q := RunMessages(subs, ref);
    forall j | 0 <= j < |sys1.submits| ensures IsClaim(sys1.submits[j], ref, subs[i]) <==> j == |sys.submits| + i {
      if j >= |sys.submits| {
        assert sys1.submits[j] == q[j - |sys.submits|];
      }
    }
  }

  /** Where a message goes when another one is handled. */
  function Shifted(at: nat, e: Event): nat {
    if e.Submit? && e.acked && e.at < at then at - 1 else at
  }

  lemma SubmitOnlyClaim(sys: System, at: nat, senv: SubmitEnv, acked: bool, limits: Limits, ref: EvalRef,
                        s: SubmissionId, mine: nat)
    requires OnlyClaim(sys, ref, s, mine) && at < |sys.submits| && at != mine
    ensures OnlyClaim(Apply(sys, Submit(at, senv, acked), limits), ref, s, Shifted(mine, Submit(at, senv, acked)))
  {
    hide AfterSubmit, ExitOf, Concludes, Retries, Processed;
    var m := sys.submits[at];
    var e := Submit(at, senv, acked);
    var exit := ExitOf(sys.w, m, senv, limits);
    var left := if acked then Without(sys.submits, at) else sys.submits;
    var sys' := Apply(sys, e, limits);
    SubmitEffect(sys.w, m, senv, limits, ref);
    RetriesAre(exit, m, limits, ref, s);
    forall i | 0 <= i < |sys'.submits| ensures IsClaim(sys'.submits[i], ref, s) <==> i == Shifted(mine, e) {
      if i < |left| {
        assert left[i] == sys.submits[if acked && i >= at then i + 1 else i];
      } else {
        assert sys'.submits[i] == Retries(exit, m, limits)[i - |left|];
      }
    }
  }

  lemma StepOnlyClaim(sys: System, e: Event, limits: Limits, ref: EvalRef, s: SubmissionId, mine: nat)
    requires OnlyClaim(sys, ref, s, mine) && Enabled(sys, e, limits) && !Supersedes(e, ref)
    requires IsCurrent(sys.w, ref) && !Delivers(sys, e, ref, s)
    ensures OnlyClaim(Apply(sys, e, limits), ref, s, Shifted(mine, e))
  {
    hide AfterSubmit, Persisted, CutShort, Dispatches, ExitOf, Concludes, Processed, Crashed, MayCrash;
    match e {
      case Submit(at, senv, acked) => SubmitOnlyClaim(sys, at, senv, acked, limits, ref, s, mine);
      case Persist(at, penv, _) => PersistEffect(sys.w, sys.persists[at], penv, ref);
      case PersistCrash(at, penv, cut) => CutEffect(sys.w, sys.persists[at], penv, cut);
      case SubmitCrash(at, senv, stage) => CrashEffect(sys.w, sys.submits[at], senv, stage);
      case StartRun(_, _) =>
      case Poll(_, _) =>
      case Accept(_) =>
      case StrayPersist(_) =>
      case Expire(_) =>
      case Delete(_) =>
      case ReplaceTestcases(_) =>
      case OverrideScore(_, _) =>
    }
  }

  /** From a state in which one message is the run's only claim on s, as after the start of any run, that
      SUBMIT may wait for any number of events, and remains the only claim meanwhile. When it is delivered
      and acknowledged the run has lost s for good exactly when s is pending at that moment; and then it
      does not complete, whatever follows. */
  lemma {:induction false} OverlapStalls(sys: System, es: seq<Event>, limits: Limits, ref: EvalRef,
                                         S: set<SubmissionId>, s: SubmissionId, mine: nat)
    requires Owns(sys, ref, S) && s in S && OnlyClaim(sys, ref, s, mine)
    requires Runnable(sys, es, limits) && StaysCurrent(es, ref)
    ensures var end := After(sys, es, limits);
            match FirstDelivery(sys, es, limits, ref, s)
            case None => StillWaiting(end, ref, s)
            case Some((sys2, e)) =>
              e.acked ==>
                && (Unclaimed(Apply(sys2, e, limits), ref, s) <==> s in sys2.w.pending)
                && (s in sys2.w.pending ==> IsCurrent(end.w, ref) && StatusOf(end.w, ref) != Completed)
    decreases |es|
  {
    hide Apply, Enabled, OnlyClaim, Owns, StatusOf, Unclaimed;
    if es != [] {
      var sys1 := Apply(sys, es[0], limits);
      OwnsCurrent(sys, ref, S);
      StepOwns(sys, es[0], limits, ref, S);
      if !Delivers(sys, es[0], ref, s) {
        StepOnlyClaim(sys, es[0], limits, ref, s, mine);
        OverlapStalls(sys1, es[1..], limits, ref, S, s, Shifted(mine, es[0]));
      } else if es[0].acked {
        LastClaim(sys, ref, s, mine, es[0].at);
        ClaimLostIff(sys, es[0].at, es[0].senv, limits, ref, S);
        if s in sys.w.pending {
          NeverCompletes(sys1, es[1..], limits, ref, S, s);
        }
      }
    } else {
      assert OnlyClaim(After(sys, es, limits), ref, s, mine);
    }
  }

  lemma LastClaim(sys: System, ref: EvalRef, s: SubmissionId, mine: nat, at: nat)
    requires OnlyClaim(sys, ref, s, mine) && at < |sys.submits| && IsClaim(sys.submits[at], ref, s)
    ensures Unclaimed(sys.(submits := Without(sys.submits, at)), ref, s)
  {
    var left := Without(sys.submits, at);
    forall j | 0 <= j < |left| ensures !IsClaim(left[j], ref, s) {
      assert left[j] == sys.submits[if j < at then j else j + 1];
    }
  }
}
