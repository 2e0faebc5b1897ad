/** Conservation of capacity: in every run each gate's counter is the number of live contexts plus
    the leaks, so both stay within their caps and the clamp at zero is never reached. */
module PipelineGates {
  import opened Collections
  import opened Judge0Repository
  import opened PipelineState
  import opened PipelineRuns
  import opened PipelineService

  /** The submissions that hold a slot of a run. */
  ghost function Holders(w: World, ref: EvalRef): set<SubmissionId> {
    set s | s in w.contexts && w.contexts[s].ref == Some(ref)
  }

  ghost function Excess(w: World): int { w.inflight - |w.contexts| }

  ghost function SlotExcess(w: World, ref: EvalRef): int { Active(w, ref) - |Holders(w, ref)| }

  ghost predicate Overwrites(sys: System, m: SubmitMessage, senv: SubmitEnv, limits: Limits) {
    ExitOf(sys.w, m, senv, limits) == Registered && m.sub in sys.w.contexts
  }

  /** The capacity an event loses for good: a SUBMIT redelivered after its PERSIST was dispatched
      registers over the live context, a worker dies holding the gates or before giving them back, or a
      context expires. */
  ghost function LeakOf(sys: System, e: Event, limits: Limits): int
    requires Enabled(sys, e, limits)
  {
    match e
    case Submit(at, senv, _) => if Overwrites(sys, sys.submits[at], senv, limits) then 1 else 0
    case SubmitCrash(_, _, stage) => if stage == Prepared then 0 else 1
    case PersistCrash(_, _, cut) => if cut == Forgot then 1 else 0
    case Expire(_) => 1
    case _ => 0
  }

  ghost function SlotLeakOf(sys: System, e: Event, ref: EvalRef, limits: Limits): int
    requires Enabled(sys, e, limits)
  {
    match e
    case Submit(at, senv, _) =>
      var m := sys.submits[at];
      if Overwrites(sys, m, senv, limits) && sys.w.contexts[m.sub].ref == Some(ref) then 1 else 0
    case SubmitCrash(at, _, stage) => if stage == HoldsBoth && sys.submits[at].ref == Some(ref) then 1 else 0
    case PersistCrash(at, _, cut) =>
      if (cut == Forgot || cut == FreedGlobal) && sys.w.contexts[sys.persists[at].sub].ref == Some(ref) then 1 else 0
    case Expire(s) => if sys.w.contexts[s].ref == Some(ref) then 1 else 0
    case _ => 0
  }

  ghost function Leaks(sys: System, es: seq<Event>, limits: Limits): int
    requires Runnable(sys, es, limits)
    decreases |es|
  {
    if es == [] then 0 else LeakOf(sys, es[0], limits) + Leaks(Apply(sys, es[0], limits), es[1..], limits)
  }

  ghost function SlotLeaks(sys: System, es: seq<Event>, ref: EvalRef, limits: Limits): int
    requires Runnable(sys, es, limits)
    decreases |es|
  {
    if es == [] then 0
    else SlotLeakOf(sys, es[0], ref, limits) + SlotLeaks(Apply(sys, es[0], limits), es[1..], ref, limits)
  }

  ghost predicate GatesOk(w: World, limits: Limits) {
    && Excess(w) >= 0 && w.inflight <= limits.maxInflight
    && (forall ref :: SlotExcess(w, ref) >= 0 && Active(w, ref) <= limits.maxActive)
    && (forall ref :: IsCurrent(w, ref) ==> ref in w.active)
  }

  // ----- contexts coming and going -----

  lemma HoldersPut(w: World, s: SubmissionId, c: Context, w': World, ref: EvalRef)
    requires w'.contexts == w.contexts[s := c]
    ensures |w'.contexts| == |w.contexts| + if s in w.contexts then 0 else 1
    ensures |Holders(w', ref)| == |Holders(w, ref)|
            + (if c.ref == Some(ref) then 1 else 0)
            - (if s in w.contexts && w.contexts[s].ref == Some(ref) then 1 else 0)
  {
    assert w'.contexts.Keys == w.contexts.Keys + {s};
    forall x ensures x in Holders(w', ref) <==> (x != s && x in Holders(w, ref)) || (x == s && c.ref == Some(ref)) {
    }
    ReplacedSize(Holders(w, ref), s, c.ref == Some(ref), Holders(w', ref));
  }

  lemma HoldersDrop(w: World, s: SubmissionId, w': World, ref: EvalRef)
    requires s in w.contexts && w'.contexts == w.contexts - {s}
    ensures |w'.contexts| == |w.contexts| - 1
    ensures |Holders(w', ref)| == |Holders(w, ref)| - if w.contexts[s].ref == Some(ref) then 1 else 0
  {
    assert w'.contexts.Keys == w.contexts.Keys - {s};
    assert Holders(w', ref) == Holders(w, ref) - {s};
  }

  /** A live context stands for one unit of each gate it was admitted by, so its release is never
      the one that would have to be clamped. */
  lemma NeverClamps(w: World, s: SubmissionId, limits: Limits)
    requires GatesOk(w, limits) && s in w.contexts
    ensures w.inflight >= 1 && Released(w.inflight) == w.inflight - 1
    ensures w.contexts[s].ref.Some? ==> Active(w, w.contexts[s].ref.value) >= 1
  {
    assert s in w.contexts.Keys && |w.contexts.Keys| >= 1;
    if w.contexts[s].ref.Some? {
      var ref := w.contexts[s].ref.value;
      assert s in Holders(w, ref) && SlotExcess(w, ref) >= 0;
    }
  }

  // ----- what each stage does to the ledger -----

  /** Nothing that the gates depend on differs. */
  ghost predicate SameGates(w: World, w': World) {
    w'.inflight == w.inflight && w'.active == w.active && w'.contexts == w.contexts && w'.records == w.records
  }

  lemma SameGatesKeep(w: World, w': World, limits: Limits)
    requires SameGates(w, w')
    ensures Excess(w') == Excess(w) && forall ref :: SlotExcess(w', ref) == SlotExcess(w, ref)
    ensures GatesOk(w, limits) ==> GatesOk(w', limits)
  {
    forall ref ensures SlotExcess(w', ref) == SlotExcess(w, ref) && Active(w', ref) == Active(w, ref) {
      assert Holders(w', ref) == Holders(w, ref);
    }
    assert forall ref :: IsCurrent(w', ref) == IsCurrent(w, ref);
  }

  lemma RegisterLedger(w: World, m: SubmitMessage, testcases: seq<Evaluation.Testcase>, env: SubmitEnv, limits: Limits,
                       w': World)
    requires GatesOk(w, limits) && Admits(w, m.ref, limits) && env.posted.Ok?
    requires w' == WithRegistered(w, m, testcases, env)
    ensures GatesOk(w', limits)
    ensures Excess(w') == Excess(w) + if m.sub in w.contexts then 1 else 0
    ensures forall ref :: SlotExcess(w', ref) == SlotExcess(w, ref)
                          + if m.sub in w.contexts && w.contexts[m.sub].ref == Some(ref) then 1 else 0
  {
    var c := w'.contexts[m.sub];
    assert c.ref == m.ref;
    forall ref
      ensures SlotExcess(w', ref) == SlotExcess(w, ref)
                + if m.sub in w.contexts && w.contexts[m.sub].ref == Some(ref) then 1 else 0
      ensures Active(w', ref) == Active(w, ref) + if m.ref == Some(ref) then 1 else 0
      ensures SlotExcess(w, ref) >= 0 && Active(w, ref) <= limits.maxActive
    {
      HoldersPut(w, m.sub, c, w', ref);
    }
    HoldersPut(w, m.sub, c, w', EvalRef(ContestId(0), RunId(0)));
    assert forall ref :: IsCurrent(w', ref) == IsCurrent(w, ref);
  }

  lemma AcquireLedger(w: World, owner: Option<EvalRef>, limits: Limits, w': World)
    requires GatesOk(w, limits) && Admits(w, owner, limits) && w' == Acquired(w, owner)
    ensures GatesOk(w', limits) && Excess(w') == Excess(w) + 1
    ensures forall ref :: SlotExcess(w', ref) == SlotExcess(w, ref) + if owner == Some(ref) then 1 else 0
  {
    forall ref
      ensures SlotExcess(w', ref) == SlotExcess(w, ref) + if owner == Some(ref) then 1 else 0
      ensures Active(w', ref) <= limits.maxActive && SlotExcess(w, ref) >= 0
    {
      assert Holders(w', ref) == Holders(w, ref);
      assert Active(w, ref) <= limits.maxActive;
    }
    assert forall ref :: IsCurrent(w', ref) == IsCurrent(w, ref);
  }

  lemma DropLedger(w: World, s: SubmissionId, limits: Limits, w': World)
    requires GatesOk(w, limits) && s in w.contexts && w' == Dropped(w, s)
    ensures GatesOk(w', limits) && Excess(w') == Excess(w)
    ensures forall ref :: SlotExcess(w', ref) == SlotExcess(w, ref)
  {
    NeverClamps(w, s, limits);
    var owner := w.contexts[s].ref;
    forall ref
      ensures SlotExcess(w', ref) == SlotExcess(w, ref) >= 0 && Active(w', ref) <= limits.maxActive
    {
      HoldersDrop(w, s, w', ref);
      assert SlotExcess(w, ref) >= 0 && Active(w, ref) <= limits.maxActive;
    }
    HoldersDrop(w, s, w', EvalRef(ContestId(0), RunId(0)));
    assert forall ref :: IsCurrent(w', ref) == IsCurrent(w, ref);
  }

  lemma ExpireLedger(w: World, s: SubmissionId, limits: Limits, w': World)
    requires GatesOk(w, limits) && s in w.contexts && w' == w.(contexts := w.contexts - {s})
    ensures GatesOk(w', limits) && Excess(w') == Excess(w) + 1
    ensures forall ref :: SlotExcess(w', ref) == SlotExcess(w, ref) + if w.contexts[s].ref == Some(ref) then 1 else 0
  {
    forall ref
      ensures SlotExcess(w', ref) == SlotExcess(w, ref) + if w.contexts[s].ref == Some(ref) then 1 else 0
      ensures Active(w', ref) <= limits.maxActive && SlotExcess(w, ref) >= 0
    {
      HoldersDrop(w, s, w', ref);
      assert Active(w, ref) <= limits.maxActive;
    }
    HoldersDrop(w, s, w', EvalRef(ContestId(0), RunId(0)));
    assert forall ref :: IsCurrent(w', ref) == IsCurrent(w, ref);
  }

  lemma StartRunLedger(sys: System, ref: EvalRef, subs: seq<SubmissionId>, limits: Limits, w': World)
    requires GatesOk(sys.w, limits) && FreshRun(sys, ref) && w' == RunCreated(sys.w, ref, subs)
    ensures GatesOk(w', limits) && Excess(w') == Excess(sys.w)
    ensures forall r :: SlotExcess(w', r) == SlotExcess(sys.w, r)
  {
    forall r
      ensures SlotExcess(w', r) == SlotExcess(sys.w, r) >= 0 && Active(w', r) <= limits.maxActive
    {
      assert Holders(w', r) == Holders(sys.w, r);
      assert SlotExcess(sys.w, r) >= 0 && Active(sys.w, r) <= limits.maxActive;
    }
    forall r | IsCurrent(w', r) ensures r in w'.active {
      assert r == ref || IsCurrent(sys.w, r);
    }
  }

  lemma SubmitLedger(sys: System, at: nat, senv: SubmitEnv, acked: bool, limits: Limits, w': World)
    requires GatesOk(sys.w, limits) && at < |sys.submits|
    requires w' == AfterSubmit(sys.w, sys.submits[at], senv, limits)
    ensures GatesOk(w', limits)
    ensures Excess(w') == Excess(sys.w) + LeakOf(sys, Submit(at, senv, acked), limits)
    ensures forall ref :: SlotExcess(w', ref)
                          == SlotExcess(sys.w, ref) + SlotLeakOf(sys, Submit(at, senv, acked), ref, limits)
  {
    hide GatesOk, SlotExcess, Excess, ExitOf, AfterSubmit, Cleaned;
    var m := sys.submits[at];
    var w := sys.w;
    SubmitGates(w, m, senv, limits);
    if ExitOf(w, m, senv, limits) == Registered {
      var base := w.(db := Cleaned(w, m, senv));
      SameGatesKeep(w, base, limits);
      RegisterLedger(base, m, senv.load.testcases, senv, limits, w');
    } else {
      SameGatesKeep(w, w', limits);
    }
  }

  /** A SUBMIT that does not register leaves both gates as it found them. */
  lemma SubmitGates(w: World, m: SubmitMessage, senv: SubmitEnv, limits: Limits)
    ensures var w' := AfterSubmit(w, m, senv, limits);
            if ExitOf(w, m, senv, limits) == Registered
            then senv.load.Loaded? && senv.posted.Ok? && Admits(w, m.ref, limits)
                 && w' == WithRegistered(w.(db := Cleaned(w, m, senv)), m, senv.load.testcases, senv)
            else SameGates(w, w')
  {
    hide Cleaned, Finalised, TokenMap, SomeToken, RunValid;
  }

  lemma CrashLedger(sys: System, at: nat, senv: SubmitEnv, stage: SubmitCut, limits: Limits, w': World)
    requires GatesOk(sys.w, limits) && Enabled(sys, SubmitCrash(at, senv, stage), limits)
    requires w' == Crashed(sys.w, sys.submits[at], senv, stage)
    ensures GatesOk(w', limits) && Excess(w') == Excess(sys.w) + LeakOf(sys, SubmitCrash(at, senv, stage), limits)
    ensures forall ref :: SlotExcess(w', ref)
                          == SlotExcess(sys.w, ref) + SlotLeakOf(sys, SubmitCrash(at, senv, stage), ref, limits)
  {
    hide GatesOk, SlotExcess, Excess;
    var m := sys.submits[at];
    var base := sys.w.(db := Cleaned(sys.w, m, senv));
    SameGatesKeep(sys.w, base, limits);
    match stage {
      case Prepared =>
      case HoldsGlobal =>
        assert w' == Acquired(base, None);
        AcquireLedger(base, None, limits, w');
      case HoldsBoth =>
        assert Admits(base, m.ref, limits);
        AcquireLedger(base, m.ref, limits, w');
    }
  }

  /** A context gone, and its global unit given back or not. */
  lemma HalfDropLedger(w: World, s: SubmissionId, freed: bool, limits: Limits, w': World)
    requires GatesOk(w, limits) && s in w.contexts
    requires w'.contexts == w.contexts - {s} && w'.active == w.active && w'.records == w.records
    requires w'.inflight == if freed then Released(w.inflight) else w.inflight
    ensures GatesOk(w', limits) && Excess(w') == Excess(w) + if freed then 0 else 1
    ensures forall ref :: SlotExcess(w', ref) == SlotExcess(w, ref) + if w.contexts[s].ref == Some(ref) then 1 else 0
  {
    NeverClamps(w, s, limits);
    forall ref
      ensures SlotExcess(w', ref) == SlotExcess(w, ref) + if w.contexts[s].ref == Some(ref) then 1 else 0
      ensures SlotExcess(w, ref) >= 0 && Active(w', ref) <= limits.maxActive
    {
      HoldersDrop(w, s, w', ref);
      assert Active(w', ref) == Active(w, ref);
    }
    HoldersDrop(w, s, w', EvalRef(ContestId(0), RunId(0)));
    assert forall ref :: IsCurrent(w', ref) == IsCurrent(w, ref);
  }

  lemma CutLedger(sys: System, at: nat, penv: PersistEnv, cut: PersistCut, limits: Limits, w': World)
    requires GatesOk(sys.w, limits) && Enabled(sys, PersistCrash(at, penv, cut), limits)
    requires w' == CutShort(sys.w, sys.persists[at], penv, cut)
    ensures GatesOk(w', limits) && Excess(w') == Excess(sys.w) + LeakOf(sys, PersistCrash(at, penv, cut), limits)
    ensures forall ref :: SlotExcess(w', ref)
                          == SlotExcess(sys.w, ref) + SlotLeakOf(sys, PersistCrash(at, penv, cut), ref, limits)
  {
    hide GatesOk, SlotExcess, Excess, Written, Skips, Released;
    var w := sys.w;
    var p := sys.persists[at];
    var base := if Skips(w, w.contexts[p.sub].ref) then w else w.(db := Written(w, p, penv));
    SameGatesKeep(w, base, limits);
    match cut {
      case Wrote =>
      case Unscheduled => SameGatesKeep(base, w', limits);
      case Forgot => HalfDropLedger(base, p.sub, false, limits, w');
      case FreedGlobal => HalfDropLedger(base, p.sub, true, limits, w');
      case FreedBoth => DropLedger(base, p.sub, limits, w');
    }
  }

  lemma PersistLedger(w: World, p: PersistMessage, env: PersistEnv, limits: Limits, w': World)
    requires GatesOk(w, limits) && w' == Persisted(w, p, env)
    ensures GatesOk(w', limits) && Excess(w') == Excess(w)
    ensures forall ref :: SlotExcess(w', ref) == SlotExcess(w, ref)
  {
    hide GatesOk, SlotExcess, Excess, Written;
    if p.sub in w.contexts {
      var ref := w.contexts[p.sub].ref;
      if Skips(w, ref) {
        DropLedger(w, p.sub, limits, w');
      } else {
        var base := w.(db := Written(w, p, env));
        SameGatesKeep(w, base, limits);
        DropLedger(base, p.sub, limits, Dropped(base, p.sub));
        SameGatesKeep(Dropped(base, p.sub), w', limits);
      }
    }
  }

  lemma StepLedger(sys: System, e: Event, limits: Limits)
    requires GatesOk(sys.w, limits) && Enabled(sys, e, limits)
    ensures GatesOk(Apply(sys, e, limits).w, limits)
    ensures Excess(Apply(sys, e, limits).w) == Excess(sys.w) + LeakOf(sys, e, limits)
    ensures forall ref :: SlotExcess(Apply(sys, e, limits).w, ref)
                          == SlotExcess(sys.w, ref) + SlotLeakOf(sys, e, ref, limits)
  {
    hide GatesOk, SlotExcess, Excess, AfterSubmit, Persisted, Crashed, CutShort, Polled, RunCreated;
    var w' := Apply(sys, e, limits).w;
    match e {
      case Submit(at, senv, acked) => SubmitLedger(sys, at, senv, acked, limits, w');
      case SubmitCrash(at, senv, stage) => CrashLedger(sys, at, senv, stage, limits, w');
      case PersistCrash(at, penv, cut) => CutLedger(sys, at, penv, cut, limits, w');
      case Persist(at, penv, _) => PersistLedger(sys.w, sys.persists[at], penv, limits, w');
      case Expire(s) => ExpireLedger(sys.w, s, limits, w');
      case StartRun(ref, subs) => StartRunLedger(sys, ref, subs, limits, w');
      case Poll(env, _) =>
        PollKeepsGates(sys.w, env);
        SameGatesKeep(sys.w, w', limits);
      case Accept(_) => SameGatesKeep(sys.w, w', limits);
      case StrayPersist(_) =>
      case Delete(_) => SameGatesKeep(sys.w, w', limits);
      case ReplaceTestcases(_) => SameGatesKeep(sys.w, w', limits);
      case OverrideScore(_, _) => SameGatesKeep(sys.w, w', limits);
    }
  }

  lemma PollKeepsGates(w: World, env: PollEnv)
    ensures SameGates(w, Polled(w, env))
  {
  }

  lemma {:induction false} RunLedger(sys: System, es: seq<Event>, limits: Limits)
    requires GatesOk(sys.w, limits) && Runnable(sys, es, limits)
    ensures GatesOk(After(sys, es, limits).w, limits)
    ensures Excess(After(sys, es, limits).w) == Excess(sys.w) + Leaks(sys, es, limits)
    ensures forall ref :: SlotExcess(After(sys, es, limits).w, ref)
                          == SlotExcess(sys.w, ref) + SlotLeaks(sys, es, ref, limits)
    decreases |es|
  {
    hide GatesOk, SlotExcess, Excess, Apply, LeakOf, SlotLeakOf;
    if es != [] {
      StepLedger(sys, es[0], limits);
      RunLedger(Apply(sys, es[0], limits), es[1..], limits);
    }
  }

  /** In every run from an empty pipeline. */
  lemma GatesBalance(db: map<SubmissionId, Submission>, es: seq<Event>, limits: Limits)
    requires Runnable(Initial(db), es, limits)
    ensures var w := After(Initial(db), es, limits).w;
            && w.inflight == |w.contexts| + Leaks(Initial(db), es, limits)
            && (forall ref :: Active(w, ref) == |Holders(w, ref)| + SlotLeaks(Initial(db), es, ref, limits))
            && w.inflight <= limits.maxInflight && (forall ref :: Active(w, ref) <= limits.maxActive)
            && (forall s :: s in w.contexts ==> Released(w.inflight) == w.inflight - 1)
            && (forall s :: s in w.contexts && w.contexts[s].ref.Some? ==>
                  var slots := Active(w, w.contexts[s].ref.value); Released(slots) == slots - 1)
            && Healthy(w)
  {
    var sys := Initial(db);
    var w := After(sys, es, limits).w;
    InitialGates(db, limits);
    RunLedger(sys, es, limits);
    forall s | s in w.contexts
      ensures Released(w.inflight) == w.inflight - 1
      ensures w.contexts[s].ref.Some? ==> Active(w, w.contexts[s].ref.value) >= 1
    {
      NeverClamps(w, s, limits);
    }
    forall ref ensures Active(w, ref) == |Holders(w, ref)| + SlotLeaks(sys, es, ref, limits) && Active(w, ref) >= 0 {
      assert SlotExcess(w, ref) >= 0;
    }
    forall ref | ref in w.active ensures w.active[ref] >= 0 {
      assert Active(w, ref) >= 0;
    }
  }

  lemma InitialGates(db: map<SubmissionId, Submission>, limits: Limits)
    ensures GatesOk(Initial(db).w, limits) && Excess(Initial(db).w) == 0
    ensures forall ref :: SlotExcess(Initial(db).w, ref) == 0
  {
    forall ref ensures SlotExcess(Initial(db).w, ref) == 0 {
      assert Holders(Initial(db).w, ref) == {};
    }
  }
}
