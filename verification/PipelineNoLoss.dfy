/** No submission is lost: for one submission and its one owner (a bulk run, or None for a live
    submit) every run keeps it in the queue, in Redis, or concluded; and when each SUBMIT is
    delivered once it is in exactly one place, and concluded means judged. */
module PipelineNoLoss {
  import opened Collections
  import opened Judge0Repository
  import opened Attribution
  import opened PipelineState
  import opened PipelineRuns
  import opened PipelineProgress

  type Owner = Option<EvalRef>

  /** SUBMIT messages queued for s. */
  function Queued(q: seq<SubmitMessage>, s: SubmissionId): nat {
    if q == [] then 0 else Queued(q[..|q| - 1], s) + if q[|q| - 1].sub == s then 1 else 0
  }

  lemma {:induction false} QueuedAppend(q: seq<SubmitMessage>, r: seq<SubmitMessage>, s: SubmissionId)
    ensures Queued(q + r, s) == Queued(q, s) + Queued(r, s)
  {
    if r == [] {
      assert q + r == q;
    } else {
      QueuedAppend(q, r[..|r| - 1], s);
      assert (q + r)[..|q + r| - 1] == q + r[..|r| - 1];
    }
  }

  lemma QueuedOne(m: SubmitMessage, s: SubmissionId)
    ensures Queued([m], s) == if m.sub == s then 1 else 0
  {
    assert [m][..0] == [];
  }

  lemma QueuedWithout(q: seq<SubmitMessage>, at: nat, s: SubmissionId)
    requires at < |q|
    ensures Queued(Without(q, at), s) == Queued(q, s) - if q[at].sub == s then 1 else 0
  {
    assert q == q[..at] + [q[at]] + q[at + 1..];
    QueuedAppend(q[..at] + [q[at]], q[at + 1..], s);
    QueuedAppend(q[..at], [q[at]], s);
    QueuedAppend(q[..at], q[at + 1..], s);
    QueuedOne(q[at], s);
  }

  lemma {:induction false} QueuedPositive(q: seq<SubmitMessage>, s: SubmissionId)
    ensures Queued(q, s) > 0 <==> exists i :: 0 <= i < |q| && q[i].sub == s
  {
    if q != [] {
      var init := q[..|q| - 1];
      QueuedPositive(init, s);
      if i :| 0 <= i < |init| && init[i].sub == s {
        assert q[i].sub == s;
      }
      if i :| 0 <= i < |q| && q[i].sub == s && i < |q| - 1 {
        assert init[i].sub == s;
      }
    }
  }

  // ----- ownership -----

  /** Everything queued or registered for s belongs to k, and a scheduled s has its context. */
  ghost predicate OnlyOwner(sys: System, k: Owner, s: SubmissionId) {
    && (forall i :: 0 <= i < |sys.submits| && sys.submits[i].sub == s ==> sys.submits[i].ref == k)
    && (s in sys.w.contexts ==> sys.w.contexts[s].ref == k)
    && (s in sys.w.pending ==> s in sys.w.contexts)
  }

  /** Another owner takes up s, its context expires, or its run is replaced. */
  predicate Disturbs(e: Event, k: Owner, s: SubmissionId) {
    || e == Accept(s) || e == Expire(s)
    || (e.StartRun? && (s in e.subs || (k.Some? && e.ref.contest == k.value.contest)))
  }

  lemma StepOnlyOwner(sys: System, e: Event, limits: Limits, k: Owner, s: SubmissionId)
    requires OnlyOwner(sys, k, s) && Enabled(sys, e, limits) && !Disturbs(e, k, s)
    ensures OnlyOwner(Apply(sys, e, limits), k, s)
  {
    hide ExitOf, AfterSubmit, Crashed, MayCrash, Persisted, CutShort, Concludes, Concluding, Dispatches;
    match e {
      case Submit(at, senv, _) =>
        WithoutMembers(sys.submits, at);
        SubmitEffect(sys.w, sys.submits[at], senv, limits, EvalRef(ContestId(0), RunId(0)));
      case Persist(at, penv, _) =>
        PersistEffect(sys.w, sys.persists[at], penv, EvalRef(ContestId(0), RunId(0)));
      case PersistCrash(at, penv, cut) => CutEffect(sys.w, sys.persists[at], penv, cut);
      case SubmitCrash(at, senv, stage) => CrashEffect(sys.w, sys.submits[at], senv, stage);
      case StartRun(_, _) =>
      case Poll(_, _) =>
      case Accept(_) =>
      case StrayPersist(_) =>
      case Expire(_) =>
      case Delete(_) =>
      case ReplaceTestcases(_) =>
      case OverrideScore(_, _) =>
    }
  }

  // ----- never lost -----

  /** A run's submission is concluded when it is counted, a live one when its verdict is in. */
  ghost predicate Concluded(w: World, k: Owner, s: SubmissionId) {
    match k
    case Some(ref) => s in Counted(w, ref)
    case None => Settled(w, s)
  }

  ghost predicate PersistQueued(sys: System, s: SubmissionId) {
    exists i :: 0 <= i < |sys.persists| && sys.persists[i].sub == s
  }

  ghost predicate Held(sys: System, k: Owner, s: SubmissionId) {
    Queued(sys.submits, s) > 0 || s in sys.w.contexts || Concluded(sys.w, k, s)
  }

  /** A registered s is scheduled, or its PERSIST is queued. */
  ghost predicate Collectable(sys: System, s: SubmissionId) {
    s in sys.w.contexts && s !in sys.w.pending ==> PersistQueued(sys, s)
  }

  /** A failed PERSIST for s could not even write SYSTEM_ERROR. */
  predicate LosesWrite(sys: System, e: Event, s: SubmissionId) {
    e.Persist? && e.at < |sys.persists| && sys.persists[e.at].sub == s && e.penv == CollectFails(true)
  }

  /** A PERSIST for s dies after it has deleted the context. */
  predicate DiesForgetting(sys: System, e: Event, s: SubmissionId) {
    e.PersistCrash? && e.at < |sys.persists| && sys.persists[e.at].sub == s && Forgets(e.cut)
  }

  /** The owner, if it is a run, is current and s is one of its submissions. */
  ghost predicate OwnerOk(sys: System, k: Owner, s: SubmissionId, S: set<SubmissionId>) {
    k.Some? ==> Owns(sys, k.value, S) && s in S
  }

  lemma StepCollectable(sys: System, e: Event, limits: Limits, s: SubmissionId)
    requires Collectable(sys, s) && Enabled(sys, e, limits)
    ensures Collectable(Apply(sys, e, limits), s)
  {
    hide ExitOf, AfterSubmit, Persisted, CutShort, Concludes, Concluding, Crashed, MayCrash;
    var sys' := Apply(sys, e, limits);
    match e {
      case Submit(at, senv, _) =>
        SubmitEffect(sys.w, sys.submits[at], senv, limits, EvalRef(ContestId(0), RunId(0)));
      case Persist(at, penv, _) =>
        PersistEffect(sys.w, sys.persists[at], penv, EvalRef(ContestId(0), RunId(0)));
        WithoutMembers(sys.persists, at);
        if i :| 0 <= i < |sys.persists| && sys.persists[i].sub == s && i != at {
          if e.acked {
            assert sys.persists[i] in Without(sys.persists, at);
          } else {
            assert sys'.persists[i].sub == s;
          }
        }
      case Poll(env, order) => PollCollectable(sys, env, order, limits, s);
      case StrayPersist(p) => KeepsQueued(sys, sys', s);
      case PersistCrash(at, penv, cut) =>
        CutEffect(sys.w, sys.persists[at], penv, cut);
        assert sys.persists[at].sub == s ==> PersistQueued(sys', s) by {
          assert sys'.persists == sys.persists;
        }
        KeepsQueued(sys, sys', s);
      case SubmitCrash(at, senv, stage) => CrashEffect(sys.w, sys.submits[at], senv, stage);
      case StartRun(_, _) =>
      case Accept(_) =>
      case Expire(_) =>
      case Delete(_) =>
      case ReplaceTestcases(_) =>
      case OverrideScore(_, _) =>
    }
  }

  lemma KeepsQueued(sys: System, sys': System, s: SubmissionId)
    requires PersistQueued(sys, s) ==> sys.persists <= sys'.persists
    ensures PersistQueued(sys, s) ==> PersistQueued(sys', s)
  {
    if i :| 0 <= i < |sys.persists| && sys.persists[i].sub == s {
      assert sys'.persists[i] == sys.persists[i];
    }
  }

  lemma PollCollectable(sys: System, env: PollEnv, order: seq<SubmissionId>, limits: Limits, s: SubmissionId)
    requires Collectable(sys, s) && Enabled(sys, Poll(env, order), limits)
    ensures Collectable(Apply(sys, Poll(env, order), limits), s)
  {
    hide Dispatches;
    var sys' := Apply(sys, Poll(env, order), limits);
    KeepsQueued(sys, sys', s);
    if Dispatches(sys.w, s, env) {
      assert s in order;
      var i :| 0 <= i < |order| && order[i] == s;
      assert sys'.persists[|sys.persists| + i] == PersistMessages(order, sys.w, env)[i];
    }
  }

  /** While the owner is current and s is not counted, no stage turns s away. */
  lemma NotSkipped(sys: System, k: Owner, s: SubmissionId, S: set<SubmissionId>)
    requires OwnerOk(sys, k, s, S) && (k.Some? ==> s !in Counted(sys.w, k.value))
    ensures !Skips(sys.w, k)
  {
    if k.Some? {
      CompletedIff(sys, k.value, S);
    }
  }

  /** A verdict or a missing row settles s; nothing but a re-evaluation or a reset unsettles it. */
  lemma SubmitSettles(w: World, m: SubmitMessage, env: SubmitEnv, limits: Limits)
    ensures Concludes(w, m, env, limits) ==> Settled(AfterSubmit(w, m, env, limits), m.sub)
    ensures forall s :: s != m.sub ==> (Settled(AfterSubmit(w, m, env, limits), s) <==> Settled(w, s))
  {
    hide AfterSubmit, Skips, Admits, SomeToken;
    SubmitDb(w, m, env, limits);
  }

  lemma PersistSettles(w: World, p: PersistMessage, env: PersistEnv)
    ensures Concluding(w, p) && env != CollectFails(true) ==> Settled(Persisted(w, p, env), p.sub)
    ensures forall s :: Settled(w, s) ==> Settled(Persisted(w, p, env), s)
  {
    hide Counted, Processed, IsCurrent, Active, Skips, PersistRows;
  }

  lemma StepHeld(sys: System, e: Event, limits: Limits, k: Owner, s: SubmissionId, S: set<SubmissionId>)
    requires OnlyOwner(sys, k, s) && OwnerOk(sys, k, s, S) && Held(sys, k, s)
    requires Enabled(sys, e, limits) && !Disturbs(e, k, s) && (k.None? ==> !LosesWrite(sys, e, s))
    requires !DiesForgetting(sys, e, s)
    ensures Held(Apply(sys, e, limits), k, s)
  {
    hide Dispatches, AfterSubmit, Persisted, CutShort, Crashed, ExitOf, MayCrash;
    match e {
      case Submit(at, senv, acked) => SubmitHeld(sys, at, senv, acked, limits, k, s, S);
      case Persist(at, penv, acked) => PersistHeld(sys, at, penv, acked, limits, k, s, S);
      case StartRun(r, subs) => QueuedAppend(sys.submits, RunMessages(subs, r), s);
      case Accept(x) => QueuedAppend(sys.submits, [SubmitMessage(x, false, None, 0)], s);
      case SubmitCrash(at, senv, stage) => CrashHeld(sys, at, senv, stage, limits, k, s);
      case PersistCrash(at, penv, cut) =>
        CutEffect(sys.w, sys.persists[at], penv, cut);
        CutSettles(sys.w, sys.persists[at], penv, cut);
      case Poll(_, _) =>
      case StrayPersist(_) =>
      case Expire(_) =>
      case Delete(_) =>
      case ReplaceTestcases(_) =>
      case OverrideScore(_, _) =>
    }
  }

  /** A PERSIST cut short judges its own submission if it concludes, and unsettles none. */
  lemma CutSettles(w: World, p: PersistMessage, env: PersistEnv, cut: PersistCut)
    requires p.sub in w.contexts
    ensures Concluding(w, p) && env != CollectFails(true) ==> Settled(CutShort(w, p, env, cut), p.sub)
    ensures Concluding(w, p) && env == CollectFails(true) ==> CutShort(w, p, env, cut).db == w.db
    ensures forall s :: Settled(w, s) ==> Settled(CutShort(w, p, env, cut), s)
    ensures forall s :: s != p.sub || !Concluding(w, p) ==> (Settled(CutShort(w, p, env, cut), s) <==> Settled(w, s))
  {
    hide CutShort, PersistRows, Skips, Crashed, MayCrash;
    CutEffect(w, p, env, cut);
  }

  lemma CrashHeld(sys: System, at: nat, senv: SubmitEnv, stage: SubmitCut, limits: Limits, k: Owner, s: SubmissionId)
    requires Held(sys, k, s) && Enabled(sys, SubmitCrash(at, senv, stage), limits)
    ensures Held(Apply(sys, SubmitCrash(at, senv, stage), limits), k, s)
  {
    hide ExitOf, ReachesRow;
    if sys.submits[at].sub == s {
      QueuedPositive(sys.submits, s);
    }
  }

  lemma SubmitHeld(sys: System, at: nat, senv: SubmitEnv, acked: bool, limits: Limits, k: Owner, s: SubmissionId,
                   S: set<SubmissionId>)
    requires OnlyOwner(sys, k, s) && OwnerOk(sys, k, s, S) && Held(sys, k, s) && at < |sys.submits|
    ensures Held(Apply(sys, Submit(at, senv, acked), limits), k, s)
  {
    hide ExitOf, AfterSubmit;
    var m := sys.submits[at];
    var exit := ExitOf(sys.w, m, senv, limits);
    var ref := if k.Some? then k.value else EvalRef(ContestId(0), RunId(0));
    SubmitEffect(sys.w, m, senv, limits, ref);
    SubmitSettles(sys.w, m, senv, limits);
    QueuedWithout(sys.submits, at, s);
    QueuedAppend(if acked then Without(sys.submits, at) else sys.submits, Retries(exit, m, limits), s);
    if m.sub == s {
      assert m.ref == k;
      RetriesQueued(exit, m, limits);
      if k.None? || s !in Counted(sys.w, k.value) {
        NotSkipped(sys, k, s, S);
        ExitCases(sys.w, m, senv, limits);
      }
    }
  }

  lemma RetriesQueued(exit: SubmitExit, m: SubmitMessage, limits: Limits)
    ensures Queued(Retries(exit, m, limits), m.sub)
         == if exit == Backpressure || (exit == TransientFailure && m.retries < limits.maxRetries) then 1 else 0
  {
    QueuedOne(m, m.sub);
    QueuedOne(m.(retries := m.retries + 1), m.sub);
  }

  /** A delivery that is not turned away is already pending, is retried, concludes, or registers. */
  lemma ExitCases(w: World, m: SubmitMessage, env: SubmitEnv, limits: Limits)
    ensures var exit := ExitOf(w, m, env, limits);
            && (exit == Superseded <==> Skips(w, m.ref))
            && (exit == AlreadyPending ==> m.sub in w.pending)
            && (m.sub in w.pending && !Skips(w, m.ref) ==> exit == AlreadyPending)
  {
    hide Skips, Admits, SomeToken;
  }

  lemma PersistHeld(sys: System, at: nat, penv: PersistEnv, acked: bool, limits: Limits, k: Owner, s: SubmissionId,
                    S: set<SubmissionId>)
    requires OnlyOwner(sys, k, s) && OwnerOk(sys, k, s, S) && Held(sys, k, s) && at < |sys.persists|
    requires k.None? ==> !LosesWrite(sys, Persist(at, penv, acked), s)
    ensures Held(Apply(sys, Persist(at, penv, acked), limits), k, s)
  {
    hide Persisted;
    var p := sys.persists[at];
    var ref := if k.Some? then k.value else EvalRef(ContestId(0), RunId(0));
    PersistEffect(sys.w, p, penv, ref);
    PersistSettles(sys.w, p, penv);
    if p.sub == s && s in sys.w.contexts && (k.None? || s !in Counted(sys.w, k.value)) {
      NotSkipped(sys, k, s, S);
    }
  }

  // ----- exactly one place -----

  /** At most one SUBMIT or context stands for s, none once it is counted, and with neither the
      verdict is in. */
  ghost predicate Single(sys: System, k: Owner, s: SubmissionId) {
    var live := Queued(sys.submits, s) + if s in sys.w.contexts then 1 else 0;
    && live <= 1
    && (k.Some? && s in Counted(sys.w, k.value) ==> live == 0)
    && (live == 0 ==> Settled(sys.w, s))
  }

  /** A SUBMIT of s is acknowledged when it has been handled. */
  predicate DeliversOnce(sys: System, e: Event, s: SubmissionId) {
    e.Submit? && e.at < |sys.submits| && sys.submits[e.at].sub == s ==> e.acked
  }

  lemma OwnSubmitSingle(sys: System, at: nat, senv: SubmitEnv, limits: Limits, k: Owner, S: set<SubmissionId>)
    requires at < |sys.submits| && OnlyOwner(sys, k, sys.submits[at].sub) && OwnerOk(sys, k, sys.submits[at].sub, S)
    requires Single(sys, k, sys.submits[at].sub)
    ensures Single(Apply(sys, Submit(at, senv, true), limits), k, sys.submits[at].sub)
  {
    hide ExitOf, AfterSubmit, Counted, Settled, Skips;
    var m := sys.submits[at];
    var exit := ExitOf(sys.w, m, senv, limits);
    var ref := if k.Some? then k.value else EvalRef(ContestId(0), RunId(0));
    SubmitEffect(sys.w, m, senv, limits, ref);
    SubmitSettles(sys.w, m, senv, limits);
    QueuedWithout(sys.submits, at, m.sub);
    QueuedAppend(Without(sys.submits, at), Retries(exit, m, limits), m.sub);
    QueuedPositive(sys.submits, m.sub);
    RetriesQueued(exit, m, limits);
    NotSkipped(sys, k, m.sub, S);
    ExitCases(sys.w, m, senv, limits);
  }

  lemma OtherSubmitSingle(sys: System, at: nat, senv: SubmitEnv, acked: bool, limits: Limits, k: Owner, s: SubmissionId)
    requires at < |sys.submits| && sys.submits[at].sub != s && Single(sys, k, s)
    ensures Single(Apply(sys, Submit(at, senv, acked), limits), k, s)
  {
    hide ExitOf, AfterSubmit, Settled, Concludes;
    var m := sys.submits[at];
    var exit := ExitOf(sys.w, m, senv, limits);
    SubmitEffect(sys.w, m, senv, limits, if k.Some? then k.value else EvalRef(ContestId(0), RunId(0)));
    SubmitSettles(sys.w, m, senv, limits);
    QueuedWithout(sys.submits, at, s);
    QueuedAppend(if acked then Without(sys.submits, at) else sys.submits, Retries(exit, m, limits), s);
    OthersQueued(exit, m, limits, s);
  }

  lemma OthersQueued(exit: SubmitExit, m: SubmitMessage, limits: Limits, s: SubmissionId)
    requires m.sub != s
    ensures Queued(Retries(exit, m, limits), s) == 0
  {
    QueuedOne(m, s);
    QueuedOne(m.(retries := m.retries + 1), s);
  }

  lemma PersistSingle(sys: System, at: nat, penv: PersistEnv, acked: bool, limits: Limits, k: Owner, s: SubmissionId,
                      S: set<SubmissionId>)
    requires OnlyOwner(sys, k, s) && OwnerOk(sys, k, s, S) && Single(sys, k, s) && at < |sys.persists|
    requires !LosesWrite(sys, Persist(at, penv, acked), s)
    ensures Single(Apply(sys, Persist(at, penv, acked), limits), k, s)
  {
    hide Persisted;
    var p := sys.persists[at];
    var ref := if k.Some? then k.value else EvalRef(ContestId(0), RunId(0));
    PersistEffect(sys.w, p, penv, ref);
    PersistSettles(sys.w, p, penv);
    if p.sub == s && s in sys.w.contexts {
      NotSkipped(sys, k, s, S);
    }
  }

  lemma {:induction false} NotQueued(subs: seq<SubmissionId>, ref: EvalRef, s: SubmissionId)
    requires s !in subs
    ensures Queued(RunMessages(subs, ref), s) == 0
  {
    QueuedPositive(RunMessages(subs, ref), s);
  }

  lemma CrashSingle(sys: System, at: nat, senv: SubmitEnv, stage: SubmitCut, limits: Limits, k: Owner, s: SubmissionId)
    requires Single(sys, k, s) && Enabled(sys, SubmitCrash(at, senv, stage), limits)
    ensures Single(Apply(sys, SubmitCrash(at, senv, stage), limits), k, s)
  {
    hide ExitOf, ReachesRow;
    if sys.submits[at].sub == s {
      QueuedPositive(sys.submits, s);
    }
  }

  lemma StepSingle(sys: System, e: Event, limits: Limits, k: Owner, s: SubmissionId, S: set<SubmissionId>)
    requires OnlyOwner(sys, k, s) && OwnerOk(sys, k, s, S) && Single(sys, k, s)
    requires Enabled(sys, e, limits) && !Disturbs(e, k, s) && !LosesWrite(sys, e, s) && DeliversOnce(sys, e, s)
    requires !DiesForgetting(sys, e, s)
    ensures Single(Apply(sys, e, limits), k, s)
  {
    hide Dispatches, AfterSubmit, Persisted, CutShort, Crashed, ExitOf, MayCrash;
    match e {
      case Submit(at, senv, acked) =>
        if sys.submits[at].sub == s {
          OwnSubmitSingle(sys, at, senv, limits, k, S);
        } else {
          OtherSubmitSingle(sys, at, senv, acked, limits, k, s);
        }
      case Persist(at, penv, acked) => PersistSingle(sys, at, penv, acked, limits, k, s, S);
      case StartRun(r, subs) =>
        QueuedAppend(sys.submits, RunMessages(subs, r), s);
        NotQueued(subs, r, s);
      case Accept(x) =>
        QueuedAppend(sys.submits, [SubmitMessage(x, false, None, 0)], s);
        QueuedOne(SubmitMessage(x, false, None, 0), s);
      case SubmitCrash(at, senv, stage) => CrashSingle(sys, at, senv, stage, limits, k, s);
      case PersistCrash(at, penv, cut) =>
        CutEffect(sys.w, sys.persists[at], penv, cut);
        CutSettles(sys.w, sys.persists[at], penv, cut);
      case Poll(_, _) =>
      case StrayPersist(_) =>
      case Expire(_) =>
      case Delete(_) =>
      case ReplaceTestcases(_) =>
      case OverrideScore(_, _) =>
    }
  }

  datatype Place = AwaitingSubmit | Scheduled | Dispatched | Final

  ghost predicate At(sys: System, k: Owner, s: SubmissionId, place: Place) {
    match place
    case AwaitingSubmit => Queued(sys.submits, s) > 0
    case Scheduled => s in sys.w.contexts && s in sys.w.pending
    case Dispatched => s in sys.w.contexts && s !in sys.w.pending && PersistQueued(sys, s)
    case Final => Queued(sys.submits, s) == 0 && s !in sys.w.contexts && Settled(sys.w, s) && Concluded(sys.w, k, s)
  }

  ghost predicate InOnePlace(sys: System, k: Owner, s: SubmissionId) {
    exists place :: At(sys, k, s, place) && forall other :: At(sys, k, s, other) ==> other == place
  }

  lemma OnePlace(sys: System, k: Owner, s: SubmissionId)
    requires OnlyOwner(sys, k, s) && Held(sys, k, s) && Collectable(sys, s) && Single(sys, k, s)
    ensures InOnePlace(sys, k, s)
  {
    hide PersistQueued;
    var place := if Queued(sys.submits, s) > 0 then AwaitingSubmit
                 else if s !in sys.w.contexts then Final
                 else if s in sys.w.pending then Scheduled
                 else Dispatched;
    assert At(sys, k, s, place);
  }

  // ----- whole runs -----

  /** What the guarantees need of an event. Redelivery and crashes are allowed unless once is asked. */
  predicate Calm(sys: System, e: Event, k: Owner, s: SubmissionId, once: bool) {
    && !Disturbs(e, k, s) && !DiesForgetting(sys, e, s)
    && (once || k.None? ==> !LosesWrite(sys, e, s))
    && (once ==> DeliversOnce(sys, e, s))
  }

  ghost predicate CalmRun(sys: System, es: seq<Event>, limits: Limits, k: Owner, s: SubmissionId, once: bool)
    requires Runnable(sys, es, limits)
    decreases |es|
  {
    es == [] || (Calm(sys, es[0], k, s, once) && CalmRun(Apply(sys, es[0], limits), es[1..], limits, k, s, once))
  }

  /** The guarantee while the run goes on. */
  ghost predicate Kept(sys: System, k: Owner, s: SubmissionId, S: set<SubmissionId>, once: bool) {
    && OnlyOwner(sys, k, s) && OwnerOk(sys, k, s, S) && Held(sys, k, s) && Collectable(sys, s)
    && (once ==> Single(sys, k, s))
  }

  lemma StepKept(sys: System, e: Event, limits: Limits, k: Owner, s: SubmissionId, S: set<SubmissionId>, once: bool)
    requires Kept(sys, k, s, S, once) && Enabled(sys, e, limits) && Calm(sys, e, k, s, once)
    ensures Kept(Apply(sys, e, limits), k, s, S, once)
  {
    hide Apply, Enabled, OnlyOwner, Held, Collectable, Single;
    StepOnlyOwner(sys, e, limits, k, s);
    StepHeld(sys, e, limits, k, s, S);
    StepCollectable(sys, e, limits, s);
    if once {
      StepSingle(sys, e, limits, k, s, S);
    }
    if k.Some? {
      StepOwns(sys, e, limits, k.value, S);
    }
  }

  lemma {:induction false} RunKept(sys: System, es: seq<Event>, limits: Limits, k: Owner, s: SubmissionId,
                                   S: set<SubmissionId>, once: bool)
    requires Kept(sys, k, s, S, once) && Runnable(sys, es, limits) && CalmRun(sys, es, limits, k, s, once)
    ensures Kept(After(sys, es, limits), k, s, S, once)
    decreases |es|
  {
    hide Apply, Enabled, Kept, Calm;
    if es != [] {
      StepKept(sys, es[0], limits, k, s, S, once);
      RunKept(Apply(sys, es[0], limits), es[1..], limits, k, s, S, once);
    }
  }

  /** In every run from an empty pipeline a registered submission is scheduled or has its PERSIST
      queued, whatever is redelivered, superseded, lost or expires. */
  lemma {:induction false} RunCollectable(sys: System, es: seq<Event>, limits: Limits, s: SubmissionId)
    requires Collectable(sys, s) && Runnable(sys, es, limits)
    ensures Collectable(After(sys, es, limits), s)
    decreases |es|
  {
    hide Apply, Enabled, Collectable;
    if es != [] {
      StepCollectable(sys, es[0], limits, s);
      RunCollectable(Apply(sys, es[0], limits), es[1..], limits, s);
    }
  }

  /** A live submission that nothing else takes up is in exactly one place, finally with a verdict,
      when its SUBMIT is delivered once. */
  lemma LiveOnePlace(sys: System, s: SubmissionId, es: seq<Event>, limits: Limits)
    requires Enabled(sys, Accept(s), limits)
    requires var sys1 := Apply(sys, Accept(s), limits);
             Runnable(sys1, es, limits) && CalmRun(sys1, es, limits, None, s, true)
    ensures InOnePlace(After(Apply(sys, Accept(s), limits), es, limits), None, s)
  {
    hide Held, Collectable, Single, Runnable, CalmRun, After, InOnePlace;
    var sys1 := Apply(sys, Accept(s), limits);
    assert Kept(sys1, None, s, {}, true) by {
      AcceptKept(sys, s, limits);
    }
    RunKept(sys1, es, limits, None, s, {}, true);
    OnePlace(After(sys1, es, limits), None, s);
  }

  lemma AcceptKept(sys: System, s: SubmissionId, limits: Limits)
    requires Enabled(sys, Accept(s), limits)
    ensures Kept(Apply(sys, Accept(s), limits), None, s, {}, true)
  {
    QueuedAppend(sys.submits, [SubmitMessage(s, false, None, 0)], s);
    QueuedOne(SubmitMessage(s, false, None, 0), s);
    QueuedPositive(sys.submits, s);
  }

  /** Nothing is queued or registered for s. */
  ghost predicate Idle(sys: System, s: SubmissionId) {
    s !in sys.w.contexts && s !in sys.w.pending && forall i :: 0 <= i < |sys.submits| ==> sys.submits[i].sub != s
  }

  lemma {:induction false} QueuedOnce(subs: seq<SubmissionId>, ref: EvalRef, s: SubmissionId)
    requires Distinct(subs) && s in subs
    ensures Queued(RunMessages(subs, ref), s) == 1
  {
    hide Queued, Without;
    var q := RunMessages(subs, ref);
    var i :| 0 <= i < |subs| && subs[i] == s;
    QueuedWithout(q, i, s);
    QueuedPositive(Without(q, i), s);
    WithoutAvoids(q, i, s);
  }

  lemma WithoutAvoids(q: seq<SubmitMessage>, i: nat, s: SubmissionId)
    requires i < |q| && forall j :: 0 <= j < |q| && j != i ==> q[j].sub != s
    ensures forall j :: 0 <= j < |Without(q, i)| ==> Without(q, i)[j].sub != s
  {
  }

  lemma StartKept(sys: System, ref: EvalRef, subs: seq<SubmissionId>, limits: Limits, s: SubmissionId)
    requires Enabled(sys, StartRun(ref, subs), limits) && s in subs && Idle(sys, s)
    ensures Kept(Apply(sys, StartRun(ref, subs), limits), Some(ref), s, (set x | x in subs), true)
  {
    StartOwns(sys, ref, subs, limits);
    QueuedAppend(sys.submits, RunMessages(subs, ref), s);
    QueuedOnce(subs, ref, s);
    QueuedPositive(sys.submits, s);
  }

  /** A submission of a bulk run that was idle when the run started and that nothing else takes up
      keeps its claim, and is in exactly one place when its SUBMIT is delivered once. */
  lemma BulkOnePlace(sys: System, ref: EvalRef, subs: seq<SubmissionId>, es: seq<Event>, limits: Limits,
                     s: SubmissionId, once: bool)
    requires Enabled(sys, StartRun(ref, subs), limits) && s in subs && Idle(sys, s)
    requires var sys1 := Apply(sys, StartRun(ref, subs), limits);
             Runnable(sys1, es, limits) && CalmRun(sys1, es, limits, Some(ref), s, once)
    ensures var sys2 := After(Apply(sys, StartRun(ref, subs), limits), es, limits);
            Held(sys2, Some(ref), s) && Collectable(sys2, s) && (once ==> InOnePlace(sys2, Some(ref), s))
            && Owns(sys2, ref, set x | x in subs)
  {
    hide Held, Collectable, Single, Runnable, CalmRun, After, InOnePlace, Owns, Apply, Enabled;
    var sys1 := Apply(sys, StartRun(ref, subs), limits);
    StartKept(sys, ref, subs, limits, s);
    RunKept(sys1, es, limits, Some(ref), s, (set x | x in subs), once);
    if once {
      OnePlace(After(sys1, es, limits), Some(ref), s);
    }
  }

  // ----- where the guarantee ends -----

  /** PERSIST takes an unjudged submission off Redis without a verdict exactly when its run is
      superseded or already complete, or when even SYSTEM_ERROR cannot be written. */
  lemma PersistDropsIff(w: World, p: PersistMessage, env: PersistEnv)
    requires p.sub in w.contexts && !Settled(w, p.sub)
    ensures p.sub !in Persisted(w, p, env).contexts
    ensures !Settled(Persisted(w, p, env), p.sub) <==> Skips(w, w.contexts[p.sub].ref) || env == CollectFails(true)
  {
    hide PersistRows, Skips;
  }
}
