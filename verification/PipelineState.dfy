/** The shared state of the staged pipeline, Redis and database, and what each stage does to it. */
module PipelineState {
  import opened Collections
  import opened Judge0Repository
  import opened Verdict
  import opened Evaluation
  import opened Attribution

  datatype SubmissionId = SubmissionId(id: nat)
  datatype ContestId = ContestId(id: nat)
  datatype RunId = RunId(id: nat)

  /** A bulk run of a contest. */
  datatype EvalRef = EvalRef(contest: ContestId, run: RunId)

  /** eval:sub:{id}, the SUBMIT to PERSIST handoff. */
  datatype Context = Context(ref: Option<EvalRef>, entries: seq<TokenEntry>)

  /** contests:{cid}:evaluation */
  datatype Record = Record(run: RunId, total: nat)

  /** A submission row with its testcase rows. */
  datatype Submission = Submission(evaluated: bool, score: int, rows: seq<Row>)

  datatype World = World(
    pending: map<SubmissionId, int>,
    contexts: map<SubmissionId, Context>,
    inflight: int,
    active: map<EvalRef, int>,
    records: map<ContestId, Record>,
    processed: map<EvalRef, int>,
    counted: map<EvalRef, set<SubmissionId>>,
    db: map<SubmissionId, Submission>)

  datatype Limits = Limits(maxInflight: nat, maxActive: nat, maxRetries: nat)

  datatype RunStatus = Pending | Running | Completed

  function DeriveStatus(processed: int, total: int): RunStatus {
    if total <= 0 || processed >= total then Completed
    else if processed > 0 then Running
    else RunStatus.Pending
  }

  function Active(w: World, ref: EvalRef): int { GetOr(w.active, ref, 0) }

  function Processed(w: World, ref: EvalRef): int { GetOr(w.processed, ref, 0) }

  function Counted(w: World, ref: EvalRef): set<SubmissionId> { GetOr(w.counted, ref, {}) }

  /** The contest's record names the run. */
  predicate Names(records: map<ContestId, Record>, ref: EvalRef) {
    ref.contest in records && records[ref.contest].run == ref.run
  }

  /** The status a reader derives from the record and the counter. */
  function StatusFrom(records: map<ContestId, Record>, processed: int, ref: EvalRef): RunStatus
    requires Names(records, ref)
  {
    DeriveStatus(processed, records[ref.contest].total)
  }

  predicate IsCurrent(w: World, ref: EvalRef) { Names(w.records, ref) }

  /** is_evaluation_valid: the current run, and not completed. */
  predicate RunValid(w: World, ref: EvalRef) {
    IsCurrent(w, ref) && DeriveStatus(Processed(w, ref), w.records[ref.contest].total) != Completed
  }

  predicate Skips(w: World, ref: Option<EvalRef>) {
    ref.Some? && !RunValid(w, ref.value)
  }

  /** DECRBY clamped at zero. */
  function Released(counter: int): int {
    if counter - 1 < 0 then 0 else counter - 1
  }

  /** update_evaluation_progress */
  function Advanced(w: World, ref: Option<EvalRef>, s: SubmissionId): World {
    if ref.None? || !IsCurrent(w, ref.value) || s in Counted(w, ref.value) then w
    else w.(counted := w.counted[ref.value := Counted(w, ref.value) + {s}],
            processed := w.processed[ref.value := Processed(w, ref.value) + 1])
  }

  predicate Settled(w: World, s: SubmissionId) {
    s in w.db ==> w.db[s].evaluated
  }

  /** A terminal write: only a row that is there and not evaluated changes. */
  function Finalised(db: map<SubmissionId, Submission>, s: SubmissionId, score: int, rows: seq<Row>)
    : map<SubmissionId, Submission>
  {
    if s in db && !db[s].evaluated then db[s := Submission(true, score, db[s].rows + rows)] else db
  }

  // ----- SUBMIT -----

  /** What loading the submission and its question comes to. LoadFails(true) fails before the
      submission is read, LoadFails(false) after a re-evaluation has cleaned it. */
  datatype Load = Loaded(testcases: seq<Testcase>) | LoadFails(early: bool)

  datatype SubmitEnv = SubmitEnv(load: Load, posted: Reply<seq<Option<Token>>>, deadline: int)

  datatype SubmitMessage = SubmitMessage(sub: SubmissionId, reevaluation: bool, ref: Option<EvalRef>, retries: nat)

  datatype SubmitExit =
    | Superseded | AlreadyPending | NothingToDo | Finished | Backpressure | TransientFailure | Registered

  predicate SomeToken(tokens: seq<Option<Token>>) {
    exists i :: 0 <= i < |tokens| && tokens[i].Some?
  }

  /** Both gates would admit one more submission of this owner. */
  predicate Admits(w: World, ref: Option<EvalRef>, limits: Limits) {
    w.inflight + 1 <= limits.maxInflight && (ref.Some? ==> Active(w, ref.value) + 1 <= limits.maxActive)
  }

  /** How far a SUBMIT has got when its worker dies: the row cleaned but no gate taken; the global gate taken;
      both gates taken, and nothing registered yet. */
  datatype SubmitCut = Prepared | HoldsGlobal | HoldsBoth

  /** The guards let the delivery through to its row, which it reads and finds to be done. */
  predicate ReachesRow(w: World, m: SubmitMessage, env: SubmitEnv) {
    && !Skips(w, m.ref) && m.sub !in w.pending && env.load != LoadFails(true)
    && m.sub in w.db && (m.reevaluation || !w.db[m.sub].evaluated)
  }

  /** The exit SUBMIT takes, decided by the guards it passes before it acquires anything. */
  function ExitOf(w: World, m: SubmitMessage, env: SubmitEnv, limits: Limits): SubmitExit {
    if Skips(w, m.ref) then Superseded
    else if m.sub in w.pending then AlreadyPending
    else if env.load == LoadFails(true) then Finished
    else if m.sub !in w.db || (!m.reevaluation && w.db[m.sub].evaluated) then NothingToDo
    else if env.load.LoadFails? || env.load.testcases == [] then Finished
    else if !Admits(w, m.ref, limits) then Backpressure
    else if env.posted.Transient? then TransientFailure
    else if env.posted.Rejected? || !SomeToken(env.posted.value) then Finished
    else Registered
  }

  /** cleanup_submission: a re-evaluation that reads the row resets it. */
  function Cleaned(w: World, m: SubmitMessage, env: SubmitEnv): map<SubmissionId, Submission> {
    if m.reevaluation && m.sub in w.db && env.load != LoadFails(true)
    then w.db[m.sub := w.db[m.sub].(evaluated := false, rows := [])]
    else w.db
  }

  /** Python's zip: the shorter list decides. */
  function TokenMap(testcases: seq<Testcase>, tokens: seq<Option<Token>>): seq<TokenEntry> {
    var n := Shorter(|testcases|, |tokens|);
    Entries(testcases[..n], tokens[..n])
  }

  /** The i-th token goes with the i-th testcase. */
  lemma TokenMapPairs(testcases: seq<Testcase>, tokens: seq<Option<Token>>)
    ensures |TokenMap(testcases, tokens)| == if |testcases| < |tokens| then |testcases| else |tokens|
    ensures forall i :: 0 <= i < |TokenMap(testcases, tokens)| ==>
              TokenMap(testcases, tokens)[i] == TokenEntry(tokens[i], testcases[i].id)
  {
  }

  /** One more unit of capacity of this owner taken. */
  function Acquired(w: World, ref: Option<EvalRef>): World {
    w.(inflight := w.inflight + 1,
       active := if ref.Some? then w.active[ref.value := Active(w, ref.value) + 1] else w.active)
  }

  /** Capacity taken, and the submission scheduled with its context. */
  function WithRegistered(w: World, m: SubmitMessage, testcases: seq<Testcase>, env: SubmitEnv): World
    requires env.posted.Ok?
  {
    Acquired(w, m.ref).(
      pending := w.pending[m.sub := env.deadline],
      contexts := w.contexts[m.sub := Context(m.ref, TokenMap(testcases, env.posted.value))])
  }

  /** The database after SUBMIT: as it was, with the row cleaned, or with a verdict on it. */
  function DbOf(w: World, m: SubmitMessage, env: SubmitEnv, exit: SubmitExit): map<SubmissionId, Submission> {
    match exit
    case Superseded => w.db
    case AlreadyPending => w.db
    case NothingToDo => w.db
    case Finished => Finalised(Cleaned(w, m, env), m.sub, 0, [])
    case _ => Cleaned(w, m, env)
  }

  /** SUBMIT before it counts for its run. Only a registered submission takes capacity. */
  function Uncounted(w: World, m: SubmitMessage, env: SubmitEnv, limits: Limits): World {
    var exit := ExitOf(w, m, env, limits);
    var w' := w.(db := DbOf(w, m, env, exit));
    if exit == Registered then WithRegistered(w', m, env.load.testcases, env) else w'
  }

  /** SUBMIT as a whole. */
  function Submitted(w: World, m: SubmitMessage, env: SubmitEnv, limits: Limits): World {
    var exit := ExitOf(w, m, env, limits);
    var w' := Uncounted(w, m, env, limits);
    if exit == NothingToDo || exit == Finished then Advanced(w', m.ref, m.sub) else w'
  }

  /** submit_give_up */
  function GivenUp(w: World, m: SubmitMessage): World {
    Advanced(w.(db := Finalised(w.db, m.sub, 0, [])), m.ref, m.sub)
  }

  // ----- PERSIST -----

  /** What collecting comes to: results and the testcases of today, or a failure, after which
      writing SYSTEM_ERROR may fail as well. */
  datatype PersistEnv =
    | Collected(known: map<Token, Judge0Result>, testcases: seq<Testcase>, passes: Strategy, score: int)
    | CollectFails(writeFails: bool)

  datatype PersistMessage = PersistMessage(sub: SubmissionId, timedOut: bool)

  /** Drop the context and give back what it held. */
  function Dropped(w: World, s: SubmissionId): World
    requires s in w.contexts
  {
    var ref := w.contexts[s].ref;
    w.(pending := w.pending - {s}, contexts := w.contexts - {s}, inflight := Released(w.inflight),
       active := if ref.Some? then w.active[ref.value := Released(Active(w, ref.value))] else w.active)
  }

  function Written(w: World, p: PersistMessage, env: PersistEnv): map<SubmissionId, Submission>
    requires p.sub in w.contexts
  {
    match env
    case Collected(known, testcases, passes, score) =>
      var entries := w.contexts[p.sub].entries;
      var rows := PersistRows(entries, testcases, Fetched(known, ValidTokens(entries)), p.timedOut, passes);
      Finalised(w.db, p.sub, score, rows)
    case CollectFails(writeFails) =>
      if writeFails then w.db else Finalised(w.db, p.sub, 0, [])
  }

  /** PERSIST as a whole. */
  function Persisted(w: World, p: PersistMessage, env: PersistEnv): World {
    if p.sub !in w.contexts then w
    else
      var ref := w.contexts[p.sub].ref;
      if Skips(w, ref) then Dropped(w, p.sub)
      else Advanced(Dropped(w.(db := Written(w, p, env)), p.sub), ref, p.sub)
  }

  /** How far a PERSIST has got when its worker dies: the verdict written; the schedule entry removed; the
      context deleted; the global unit given back; the slot as well, but the submission not yet counted. */
  datatype PersistCut = Wrote | Unscheduled | Forgot | FreedGlobal | FreedBoth

  /** The context is gone by then, so that a redelivery finds nothing to do. */
  predicate Forgets(cut: PersistCut) { cut != Wrote && cut != Unscheduled }

  function CutShort(w: World, p: PersistMessage, env: PersistEnv, cut: PersistCut): World
    requires p.sub in w.contexts
  {
    var ref := w.contexts[p.sub].ref;
    w.(db := if Skips(w, ref) then w.db else Written(w, p, env),
       pending := if cut == Wrote then w.pending else w.pending - {p.sub},
       contexts := if Forgets(cut) then w.contexts - {p.sub} else w.contexts,
       inflight := if cut == FreedGlobal || cut == FreedBoth then Released(w.inflight) else w.inflight,
       active := if cut == FreedBoth && ref.Some?
                 then w.active[ref.value := Released(Active(w, ref.value))] else w.active)
  }

  // ----- POLL -----

  /** A poll pass: the clock, what Judge0 answers (None when the call fails), and the submissions
      whose PERSIST cannot be sent. */
  datatype PollEnv = PollEnv(now: int, fetched: Option<map<Token, Judge0Result>>, sendFails: set<SubmissionId>)

  /** What the pass decides for a listed submission: Some(timedOut) to dispatch it. */
  function Decision(w: World, s: SubmissionId, results: map<Token, Judge0Result>, now: int): Option<bool>
    requires s in w.contexts && s in w.pending
  {
    if AllDone(w.contexts[s].entries, results) then Some(false)
    else if now > w.pending[s] then Some(true)
    else None
  }

  predicate Listed(w: World, s: SubmissionId) { s in w.pending && s in w.contexts }

  /** Some listed submission has a token to ask about. */
  predicate AsksJudge0(w: World) {
    exists s :: s in w.pending && s in w.contexts && ValidTokens(w.contexts[s].entries) != []
  }

  function ResultsOf(w: World, env: PollEnv): map<Token, Judge0Result> {
    if AsksJudge0(w) && env.fetched.Some? then env.fetched.value else map[]
  }

  /** The pass does not get beyond pruning when the Judge0 call fails. */
  predicate PassFails(w: World, env: PollEnv) { AsksJudge0(w) && env.fetched.None? }

  predicate Dispatches(w: World, s: SubmissionId, env: PollEnv) {
    !PassFails(w, env) && Listed(w, s) && s !in env.sendFails && Decision(w, s, ResultsOf(w, env), env.now).Some?
  }

  /** The schedule after the pass: orphans and dispatched submissions leave it. */
  function Polled(w: World, env: PollEnv): World {
    w.(pending := map s | s in w.pending && s in w.contexts && !Dispatches(w, s, env) :: w.pending[s])
  }

  function MessageFor(w: World, s: SubmissionId, env: PollEnv): PersistMessage
    requires Dispatches(w, s, env)
  {
    PersistMessage(s, Decision(w, s, ResultsOf(w, env), env.now).value)
  }
}
