/** Whole runs of the pipeline: queues, redelivery, crashes, expiry and any interleaving of stages. */
module PipelineRuns {
  import opened Collections
  import opened Judge0Repository
  import opened Evaluation
  import opened Attribution
  import opened PipelineState

  /** The stores together with the two Celery queues; a worker may take any message. */
  datatype System = System(w: World, submits: seq<SubmitMessage>, persists: seq<PersistMessage>)

  /** One thing that can happen. A delivery that is not acknowledged leaves its message queued. */
  datatype Event =
    | Accept(s: SubmissionId)
    | StartRun(ref: EvalRef, subs: seq<SubmissionId>)
    | Submit(at: nat, senv: SubmitEnv, acked: bool)
    | SubmitCrash(at: nat, senv: SubmitEnv, stage: SubmitCut)
    | Poll(env: PollEnv, order: seq<SubmissionId>)
    | StrayPersist(p: PersistMessage)
    | Persist(at: nat, penv: PersistEnv, acked: bool)
    | PersistCrash(at: nat, penv: PersistEnv, cut: PersistCut)
    | Expire(s: SubmissionId)
    | Delete(s: SubmissionId)
    | ReplaceTestcases(affected: set<SubmissionId>)
    | OverrideScore(s: SubmissionId, score: int)

  function Without<T>(q: seq<T>, at: nat): seq<T>
    requires at < |q|
  {
    q[..at] + q[at + 1..]
  }

  /** A run id that nothing has mentioned yet (uuid4). */
  ghost predicate FreshRun(sys: System, ref: EvalRef) {
    && !IsCurrent(sys.w, ref)
    && ref !in sys.w.active && ref !in sys.w.processed && ref !in sys.w.counted
    && (forall s :: s in sys.w.contexts ==> sys.w.contexts[s].ref != Some(ref))
    && (forall i :: 0 <= i < |sys.submits| ==> sys.submits[i].ref != Some(ref))
  }

  /** A submission id that nothing has mentioned yet. */
  ghost predicate FreshSubmission(sys: System, s: SubmissionId) {
    && s !in sys.w.db && s !in sys.w.contexts && s !in sys.w.pending
    && (forall i :: 0 <= i < |sys.submits| ==> sys.submits[i].sub != s)
  }

  ghost predicate IsOrderOf(order: seq<SubmissionId>, w: World, env: PollEnv) {
    Distinct(order) && forall s :: s in order <==> Dispatches(w, s, env)
  }

  /** The delivery gets as far as the stage. */
  predicate MayCrash(w: World, m: SubmitMessage, env: SubmitEnv, stage: SubmitCut, limits: Limits) {
    match stage
    case Prepared => ReachesRow(w, m, env)
    case HoldsGlobal =>
      ReachesRow(w, m, env) && env.load.Loaded? && env.load.testcases != [] && w.inflight + 1 <= limits.maxInflight
    case HoldsBoth => ExitOf(w, m, env.(posted := Transient), limits) == TransientFailure
  }

  ghost predicate Enabled(sys: System, e: Event, limits: Limits) {
    match e
    case Accept(s) => FreshSubmission(sys, s)
    case StartRun(ref, subs) => FreshRun(sys, ref) && Distinct(subs) && forall s :: s in subs ==> s in sys.w.db
    case Submit(at, _, _) => at < |sys.submits|
    case SubmitCrash(at, senv, stage) => at < |sys.submits| && MayCrash(sys.w, sys.submits[at], senv, stage, limits)
    case Poll(env, order) => IsOrderOf(order, sys.w, env)
    case StrayPersist(_) => true
    case Persist(at, _, _) => at < |sys.persists|
    case PersistCrash(at, _, _) => at < |sys.persists| && sys.persists[at].sub in sys.w.contexts
    case Expire(s) => s in sys.w.contexts
    case Delete(_) => true
    case ReplaceTestcases(_) => true
    case OverrideScore(_, _) => true
  }

  /** trigger_evaluation with is_override: rows that have a verdict are reset. Without override the
      list holds unevaluated submissions only, and there is nothing to reset. */
  function Reset(db: map<SubmissionId, Submission>, subs: seq<SubmissionId>): map<SubmissionId, Submission> {
    map s | s in db :: if s in subs && db[s].evaluated then Submission(false, 0, []) else db[s]
  }

  function RunMessages(subs: seq<SubmissionId>, ref: EvalRef): (r: seq<SubmitMessage>)
    ensures |r| == |subs| && forall i :: 0 <= i < |r| ==> r[i] == SubmitMessage(subs[i], true, Some(ref), 0)
  {
    seq(|subs|, i requires 0 <= i < |subs| => SubmitMessage(subs[i], true, Some(ref), 0))
  }

  /** create_evaluation after the reset. */
  function RunCreated(w: World, ref: EvalRef, subs: seq<SubmissionId>): World {
    w.(db := Reset(w.db, subs), records := w.records[ref.contest := Record(ref.run, |subs|)],
       processed := w.processed[ref := 0], active := w.active[ref := 0], counted := w.counted - {ref})
  }

  /** Replacing a question's testcases takes their rows along, through the foreign key. */
  function Stripped(db: map<SubmissionId, Submission>, affected: set<SubmissionId>): map<SubmissionId, Submission> {
    map s | s in db :: if s in affected then db[s].(rows := []) else db[s]
  }

  /** A manual score, evaluated or not. */
  function Rescored(db: map<SubmissionId, Submission>, s: SubmissionId, score: int): map<SubmissionId, Submission> {
    if s in db then db[s := db[s].(score := score)] else db
  }

  /** The messages submit_evaluation leaves behind: a backpressured message is queued again as it is,
      a transient failure counts, and one too many gives up. */
  function Retries(exit: SubmitExit, m: SubmitMessage, limits: Limits): seq<SubmitMessage> {
    match exit
    case Backpressure => [m]
    case TransientFailure => if m.retries >= limits.maxRetries then [] else [m.(retries := m.retries + 1)]
    case _ => []
  }

  function AfterSubmit(w: World, m: SubmitMessage, env: SubmitEnv, limits: Limits): World {
    var w' := Submitted(w, m, env, limits);
    if ExitOf(w, m, env, limits) == TransientFailure && m.retries >= limits.maxRetries then GivenUp(w', m) else w'
  }

  function PersistMessages(order: seq<SubmissionId>, w: World, env: PollEnv): (r: seq<PersistMessage>)
    ensures |r| == |order|
    ensures forall i :: 0 <= i < |r| ==> r[i].sub == order[i]
    ensures forall i :: 0 <= i < |r| && Dispatches(w, order[i], env) ==> r[i] == MessageFor(w, order[i], env)
  {
    seq(|order|, i requires 0 <= i < |order| =>
          if Dispatches(w, order[i], env) then MessageFor(w, order[i], env) else PersistMessage(order[i], false))
  }

  /** A worker lost inside SUBMIT: what it has cleaned stays clean, and capacity it has taken stays taken. */
  function Crashed(w: World, m: SubmitMessage, env: SubmitEnv, stage: SubmitCut): World {
    w.(db := Cleaned(w, m, env),
       inflight := if stage == Prepared then w.inflight else w.inflight + 1,
       active := if stage == HoldsBoth && m.ref.Some?
                 then w.active[m.ref.value := Active(w, m.ref.value) + 1] else w.active)
  }

  ghost function Apply(sys: System, e: Event, limits: Limits): System
    requires Enabled(sys, e, limits)
  {
    match e
    case Accept(s) =>
      sys.(w := sys.w.(db := sys.w.db[s := Submission(false, 0, [])]),
           submits := sys.submits + [SubmitMessage(s, false, None, 0)])
    case StartRun(ref, subs) =>
      sys.(w := RunCreated(sys.w, ref, subs), submits := sys.submits + RunMessages(subs, ref))
    case Submit(at, senv, acked) =>
      var m := sys.submits[at];
      var left := if acked then Without(sys.submits, at) else sys.submits;
      sys.(w := AfterSubmit(sys.w, m, senv, limits),
           submits := left + Retries(ExitOf(sys.w, m, senv, limits), m, limits))
    case SubmitCrash(at, senv, stage) => sys.(w := Crashed(sys.w, sys.submits[at], senv, stage))
    case Poll(env, order) =>
      sys.(w := Polled(sys.w, env), persists := sys.persists + PersistMessages(order, sys.w, env))
    case StrayPersist(p) => sys.(persists := sys.persists + [p])
    case Persist(at, penv, acked) =>
      sys.(w := Persisted(sys.w, sys.persists[at], penv),
           persists := if acked then Without(sys.persists, at) else sys.persists)
    case PersistCrash(at, penv, cut) => sys.(w := CutShort(sys.w, sys.persists[at], penv, cut))
    case Expire(s) => sys.(w := sys.w.(contexts := sys.w.contexts - {s}))
    case Delete(s) => sys.(w := sys.w.(db := sys.w.db - {s}))
    case ReplaceTestcases(affected) => sys.(w := sys.w.(db := Stripped(sys.w.db, affected)))
    case OverrideScore(s, score) => sys.(w := sys.w.(db := Rescored(sys.w.db, s, score)))
  }

  /** The events can happen one after the other. */
  ghost predicate Runnable(sys: System, es: seq<Event>, limits: Limits)
    decreases |es|
  {
    es == [] || (Enabled(sys, es[0], limits) && Runnable(Apply(sys, es[0], limits), es[1..], limits))
  }

  ghost function After(sys: System, es: seq<Event>, limits: Limits): System
    requires Runnable(sys, es, limits)
    decreases |es|
  {
    if es == [] then sys else After(Apply(sys, es[0], limits), es[1..], limits)
  }

  function Initial(db: map<SubmissionId, Submission>): System {
    System(World(map[], map[], 0, map[], map[], map[], map[], db), [], [])
  }
}
