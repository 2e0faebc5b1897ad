/** Row integrity and stable verdicts: the testcase rows of a submission come from one evaluation,
    and only a re-evaluation or a reset takes a verdict away; and what a poll pass leaves behind. */
module PipelineRows {
  import opened Collections
  import opened Judge0Repository
  import opened Verdict
  import opened Evaluation
  import opened Attribution
  import opened PipelineState
  import opened PipelineService
  import opened PipelineRuns
  import opened PipelineProgress

  ghost predicate RowsOk(db: map<SubmissionId, Submission>) {
    forall s :: s in db && !db[s].evaluated ==> db[s].rows == []
  }

  /** The event is a PERSIST of s, whole or cut short, whose context is there and still wanted. */
  predicate Collects(sys: System, e: Event, s: SubmissionId) {
    && (e.Persist? || e.PersistCrash?)
    && e.at < |sys.persists| && sys.persists[e.at].sub == s && Concluding(sys.w, sys.persists[e.at])
  }

  /** The rows of the context's tokens, as collected. */
  function CollectedRows(sys: System, e: Event, s: SubmissionId): seq<Row>
    requires Collects(sys, e, s) && e.penv.Collected?
  {
    ConcludingHasContext(sys.w, sys.persists[e.at]);
    var entries := sys.w.contexts[s].entries;
    PersistRows(entries, e.penv.testcases, Fetched(e.penv.known, ValidTokens(entries)), sys.persists[e.at].timedOut,
                e.penv.passes)
  }

  /** The row is what this event's own evaluation of s leaves: a SUBMIT that concludes without testcase
      rows, a PERSIST that could not collect, or the collected rows with their score. */
  ghost predicate IsOutcome(sys: System, e: Event, limits: Limits, s: SubmissionId, row: Submission) {
    || (e.Submit? && e.at < |sys.submits| && sys.submits[e.at].sub == s
        && Concludes(sys.w, sys.submits[e.at], e.senv, limits) && row == Submission(true, 0, []))
    || (Collects(sys, e, s) && e.penv == CollectFails(false) && row == Submission(true, 0, []))
    || (Collects(sys, e, s) && e.penv.Collected? && row == Submission(true, e.penv.score, CollectedRows(sys, e, s)))
  }

  /** A re-evaluating SUBMIT of s is handled, or a run resets s. */
  predicate Reopens(sys: System, e: Event, s: SubmissionId) {
    match e
    case Submit(at, _, _) => at < |sys.submits| && sys.submits[at].sub == s && sys.submits[at].reevaluation
    case SubmitCrash(at, _, _) => at < |sys.submits| && sys.submits[at].sub == s && sys.submits[at].reevaluation
    case StartRun(_, subs) => s in subs
    case _ => false
  }

  /** What staff can do to an evaluated row outside the pipeline. */
  predicate Edits(e: Event, s: SubmissionId) {
    match e
    case ReplaceTestcases(affected) => s in affected
    case OverrideScore(x, _) => x == s
    case _ => false
  }

  /** Every way in which one event can change the row of s. */
  ghost predicate Explained(sys: System, e: Event, limits: Limits, s: SubmissionId, before: Submission,
                            after: Submission)
  {
    || after == before
    || (IsOutcome(sys, e, limits, s, after) && (!before.evaluated || Reopens(sys, e, s)))
    || (Reopens(sys, e, s) && !after.evaluated && after.rows == [])
    || (e.ReplaceTestcases? && s in e.affected && after == before.(rows := []))
    || (e.OverrideScore? && s == e.s && after == before.(score := e.score))
  }

  lemma SubmitRow(sys: System, at: nat, senv: SubmitEnv, acked: bool, limits: Limits, s: SubmissionId)
    requires RowsOk(sys.w.db) && at < |sys.submits| && s in sys.w.db
    ensures var e := Submit(at, senv, acked);
            var db' := Apply(sys, e, limits).w.db;
            s in db' && Explained(sys, e, limits, s, sys.w.db[s], db'[s])
  {
    hide AfterSubmit, ExitOf, Concludes, Collects;
    var m := sys.submits[at];
    SubmitDb(sys.w, m, senv, limits);
    ConcludingExit(sys.w, m, senv, limits);
  }

  /** A delivery that writes a verdict found the row unevaluated or was asked to re-evaluate it. */
  lemma ConcludingExit(w: World, m: SubmitMessage, env: SubmitEnv, limits: Limits)
    ensures m.sub in w.db && w.db[m.sub].evaluated && !m.reevaluation ==> DbAfter(w, m, env, limits) == w.db
  {
    hide Skips, Admits, SomeToken;
  }

  lemma PersistDb(w: World, p: PersistMessage, env: PersistEnv)
    ensures Persisted(w, p, env).db == if Concluding(w, p) then Written(w, p, env) else w.db
  {
    hide Written, Skips, Advanced;
    if p.sub in w.contexts {
      var ref := EvalRef(ContestId(0), RunId(0));
      AdvancedFacts(Dropped(w.(db := Written(w, p, env)), p.sub), w.contexts[p.sub].ref, p.sub, ref);
    }
  }

  /** The row of s after a PERSIST, whole or cut short. */
  lemma CollectedDb(sys: System, e: Event, limits: Limits, s: SubmissionId)
    requires RowsOk(sys.w.db) && Enabled(sys, e, limits) && (e.Persist? || e.PersistCrash?) && s in sys.w.db
    ensures var db' := Apply(sys, e, limits).w.db;
            s in db' && db'[s] == if !Collects(sys, e, s) || sys.w.db[s].evaluated || e.penv == CollectFails(true)
                                  then sys.w.db[s]
                                  else if e.penv.Collected?
                                  then Submission(true, e.penv.score, CollectedRows(sys, e, s))
                                  else Submission(true, 0, [])
  {
    hide PersistRows, Skips, Fetched, Persisted, CutShort, Crashed, MayCrash;
    var p := sys.persists[e.at];
    PersistDb(sys.w, p, e.penv);
    if e.PersistCrash? {
      CutEffect(sys.w, p, e.penv, e.cut);
    }
    if Collects(sys, e, s) && !sys.w.db[s].evaluated && e.penv.Collected? {
      assert sys.w.db[s].rows + CollectedRows(sys, e, s) == CollectedRows(sys, e, s);
    }
  }

  lemma CollectedRow(sys: System, e: Event, limits: Limits, s: SubmissionId)
    requires RowsOk(sys.w.db) && Enabled(sys, e, limits) && (e.Persist? || e.PersistCrash?) && s in sys.w.db
    ensures var db' := Apply(sys, e, limits).w.db; s in db' && Explained(sys, e, limits, s, sys.w.db[s], db'[s])
  {
    hide Apply, Collects, CollectedRows;
    CollectedDb(sys, e, limits, s);
  }

  /** The row of s after a SUBMIT cut short. */
  lemma CrashDb(sys: System, e: Event, limits: Limits, s: SubmissionId)
    requires Enabled(sys, e, limits) && e.SubmitCrash? && s in sys.w.db
    ensures var db' := Apply(sys, e, limits).w.db;
            s in db' && db'[s] == if Reopens(sys, e, s) then sys.w.db[s].(evaluated := false, rows := [])
                                  else sys.w.db[s]
  {
    hide Crashed, MayCrash;
    CrashEffect(sys.w, sys.submits[e.at], e.senv, e.stage);
    CrashReaches(sys.w, sys.submits[e.at], e.senv, e.stage, limits);
  }

  /** Each event changes a row only by its own evaluation of s, a reopening of s, or one of the two edits. */
  lemma StepRow(sys: System, e: Event, limits: Limits, s: SubmissionId)
    requires RowsOk(sys.w.db) && Enabled(sys, e, limits) && s in sys.w.db && e != Delete(s)
    ensures var db' := Apply(sys, e, limits).w.db; s in db' && Explained(sys, e, limits, s, sys.w.db[s], db'[s])
  {
    hide AfterSubmit, Crashed, MayCrash, Persisted, CutShort, Dispatches, ExitOf, IsOutcome, Collects, CollectedRows;
    match e {
      case Submit(at, senv, acked) => SubmitRow(sys, at, senv, acked, limits, s);
      case Persist(_, _, _) => CollectedRow(sys, e, limits, s);
      case PersistCrash(_, _, _) => CollectedRow(sys, e, limits, s);
      case SubmitCrash(_, _, _) => CrashDb(sys, e, limits, s);
      case StartRun(_, _) =>
      case Poll(_, _) =>
      case Accept(_) =>
      case StrayPersist(_) =>
      case Expire(_) =>
      case Delete(_) =>
      case ReplaceTestcases(_) =>
      case OverrideScore(_, _) =>
    }
  }

  lemma StepRowsOk(sys: System, e: Event, limits: Limits)
    requires RowsOk(sys.w.db) && Enabled(sys, e, limits)
    ensures RowsOk(Apply(sys, e, limits).w.db)
  {
    hide Apply, Explained;
    var db' := Apply(sys, e, limits).w.db;
    forall s | s in db' && !db'[s].evaluated ensures db'[s].rows == [] {
      if s in sys.w.db && e != Delete(s) {
        StepRow(sys, e, limits, s);
        ExplainedRows(sys, e, limits, s, sys.w.db[s], db'[s]);
      } else {
        NewRow(sys, e, limits, s);
      }
    }
  }

  lemma ExplainedRows(sys: System, e: Event, limits: Limits, s: SubmissionId, before: Submission, after: Submission)
    requires Explained(sys, e, limits, s, before, after) && (!before.evaluated ==> before.rows == [])
    ensures !after.evaluated ==> after.rows == []
    ensures before.evaluated && !Reopens(sys, e, s) ==> after.evaluated && (!Edits(e, s) ==> after == before)
  {
  }

  /** A row that was not there before is a fresh, unevaluated one. */
  lemma NewRow(sys: System, e: Event, limits: Limits, s: SubmissionId)
    requires Enabled(sys, e, limits) && (s !in sys.w.db || e == Delete(s))
    ensures s in Apply(sys, e, limits).w.db ==> Apply(sys, e, limits).w.db[s] == Submission(false, 0, [])
  {
    hide Dispatches, ExitOf, AfterSubmit, Concludes, Persisted, CutShort, Concluding, PersistRows, Crashed, MayCrash;
    match e {
      case Submit(at, senv, _) => SubmitDb(sys.w, sys.submits[at], senv, limits);
      case Persist(at, penv, _) => PersistDb(sys.w, sys.persists[at], penv);
      case PersistCrash(at, penv, cut) => CutEffect(sys.w, sys.persists[at], penv, cut);
      case SubmitCrash(at, senv, stage) => CrashEffect(sys.w, sys.submits[at], senv, stage);
      case _ =>
    }
  }

  /** Along the run nothing reopens or deletes s, and with edits excluded nothing edits it either. */
  ghost predicate Untouched(sys: System, es: seq<Event>, limits: Limits, s: SubmissionId, edits: bool)
    requires Runnable(sys, es, limits)
    decreases |es|
  {
    || es == []
    || (!Reopens(sys, es[0], s) && es[0] != Delete(s) && (edits || !Edits(es[0], s))
        && Untouched(Apply(sys, es[0], limits), es[1..], limits, s, edits))
  }

  /** In every run an unevaluated submission has no rows, and an evaluated one stays evaluated under
      any number of redelivered SUBMIT and PERSIST messages and polls until something re-evaluates,
      resets or deletes it; without manual edits it keeps its rows and its score as well. */
  lemma {:induction false} VerdictStable(sys: System, es: seq<Event>, limits: Limits, s: SubmissionId, edits: bool)
    requires RowsOk(sys.w.db) && Runnable(sys, es, limits)
    ensures RowsOk(After(sys, es, limits).w.db)
    ensures s in sys.w.db && sys.w.db[s].evaluated && Untouched(sys, es, limits, s, edits) ==>
              s in After(sys, es, limits).w.db && After(sys, es, limits).w.db[s].evaluated
              && (!edits ==> After(sys, es, limits).w.db[s] == sys.w.db[s])
    decreases |es|
  {
    hide Apply, Enabled, Explained, Reopens, Edits;
    if es != [] {
      StepRowsOk(sys, es[0], limits);
      if s in sys.w.db && es[0] != Delete(s) {
        StepRow(sys, es[0], limits, s);
        ExplainedRows(sys, es[0], limits, s, sys.w.db[s], Apply(sys, es[0], limits).w.db[s]);
      }
      VerdictStable(Apply(sys, es[0], limits), es[1..], limits, s, edits);
    }
  }

  // ----- where testcase rows come from -----

  ghost predicate HasRows(w: World, s: SubmissionId, rows: seq<Row>) {
    s in w.db && w.db[s].evaluated && w.db[s].rows == rows
  }

  /** The event collects exactly these rows for an unjudged s. */
  ghost predicate Produces(sys: System, e: Event, s: SubmissionId, rows: seq<Row>) {
    && s in sys.w.db && !sys.w.db[s].evaluated
    && Collects(sys, e, s) && e.penv.Collected? && rows == CollectedRows(sys, e, s)
  }

  /** The event takes the rows of s away: a re-evaluating SUBMIT that reaches the row, whole or cut short,
      a reset, a replacement of the testcases, or the deletion of s. */
  predicate TakesRows(sys: System, e: Event, s: SubmissionId) {
    match e
    case Submit(at, senv, _) =>
      at < |sys.submits| && sys.submits[at].sub == s && sys.submits[at].reevaluation
      && ReachesRow(sys.w, sys.submits[at], senv)
    case SubmitCrash(at, _, _) => at < |sys.submits| && sys.submits[at].sub == s && sys.submits[at].reevaluation
    case StartRun(_, subs) => s in subs
    case ReplaceTestcases(affected) => s in affected
    case Delete(x) => x == s
    case _ => false
  }

  /** A re-evaluation that reaches the row leaves it without rows. */
  lemma ReachingEmpties(w: World, m: SubmitMessage, env: SubmitEnv, limits: Limits)
    requires m.sub in w.db && w.db[m.sub].evaluated
    ensures var db' := DbAfter(w, m, env, limits);
            && m.sub in db'
            && (if m.reevaluation && ReachesRow(w, m, env) then db'[m.sub].rows == [] else db' == w.db)
  {
    hide Skips, Admits, SomeToken;
  }

  lemma UnjudgedSubmit(w: World, m: SubmitMessage, env: SubmitEnv, limits: Limits)
    requires m.sub in w.db && w.db[m.sub].rows == []
    ensures m.sub in DbAfter(w, m, env, limits) && DbAfter(w, m, env, limits)[m.sub].rows == []
  {
    hide ExitOf, Concludes;
  }

  lemma SubmitRows(sys: System, at: nat, senv: SubmitEnv, acked: bool, limits: Limits, s: SubmissionId, rows: seq<Row>)
    requires RowsOk(sys.w.db) && at < |sys.submits| && rows != []
    ensures var e := Submit(at, senv, acked);
            HasRows(Apply(sys, e, limits).w, s, rows) <==> HasRows(sys.w, s, rows) && !TakesRows(sys, e, s)
  {
    hide AfterSubmit, ExitOf, Concludes, ReachesRow;
    var m := sys.submits[at];
    SubmitDb(sys.w, m, senv, limits);
    if m.sub == s && s in sys.w.db {
      if sys.w.db[s].evaluated {
        ReachingEmpties(sys.w, m, senv, limits);
      } else {
        UnjudgedSubmit(sys.w, m, senv, limits);
      }
    }
  }

  /** One event leaves s with given rows exactly when it collects them, or finds and does not take them. */
  lemma StepRows(sys: System, e: Event, limits: Limits, s: SubmissionId, rows: seq<Row>)
    requires RowsOk(sys.w.db) && Enabled(sys, e, limits) && rows != []
    ensures HasRows(Apply(sys, e, limits).w, s, rows)
            <==> Produces(sys, e, s, rows) || (HasRows(sys.w, s, rows) && !TakesRows(sys, e, s))
  {
    hide AfterSubmit, Crashed, MayCrash, Persisted, CutShort, Dispatches, ExitOf, Collects, CollectedRows;
    NotCollecting(sys, e, s);
    if s !in sys.w.db {
      NewRow(sys, e, limits, s);
    } else {
      match e {
        case Submit(at, senv, acked) => SubmitRows(sys, at, senv, acked, limits, s, rows);
        case Persist(_, _, _) => CollectedDb(sys, e, limits, s);
        case PersistCrash(_, _, _) => CollectedDb(sys, e, limits, s);
        case SubmitCrash(_, _, _) => CrashDb(sys, e, limits, s);
        case StartRun(_, _) =>
        case Poll(_, _) =>
        case Accept(_) =>
        case StrayPersist(_) =>
        case Expire(_) =>
        case Delete(_) =>
        case ReplaceTestcases(_) =>
        case OverrideScore(_, _) =>
      }
    }
  }

  lemma NotCollecting(sys: System, e: Event, s: SubmissionId)
    ensures Collects(sys, e, s) ==> e.Persist? || e.PersistCrash?
  {
  }

  /** Along the run nothing takes the rows of s. */
  ghost predicate RowsLeft(sys: System, es: seq<Event>, limits: Limits, s: SubmissionId)
    requires Runnable(sys, es, limits)
    decreases |es|
  {
    es == [] || (!TakesRows(sys, es[0], s) && RowsLeft(Apply(sys, es[0], limits), es[1..], limits, s))
  }

  /** Some event of the run collects the rows, and nothing takes them afterwards. */
  ghost predicate Produced(sys: System, es: seq<Event>, limits: Limits, s: SubmissionId, rows: seq<Row>)
    requires Runnable(sys, es, limits)
    decreases |es|
  {
    && es != []
    && ((Produces(sys, es[0], s, rows) && RowsLeft(Apply(sys, es[0], limits), es[1..], limits, s))
        || Produced(Apply(sys, es[0], limits), es[1..], limits, s, rows))
  }

  /** At the end of any run an evaluated submission has given testcase rows exactly when they are those it
      started with and nothing took them, or those that one event of the run collected for it, from its own
      context, and nothing took them afterwards. */
  lemma {:induction false} RowsOriginIff(sys: System, es: seq<Event>, limits: Limits, s: SubmissionId, rows: seq<Row>)
    requires RowsOk(sys.w.db) && Runnable(sys, es, limits) && rows != []
    ensures HasRows(After(sys, es, limits).w, s, rows)
            <==> (HasRows(sys.w, s, rows) && RowsLeft(sys, es, limits, s)) || Produced(sys, es, limits, s, rows)
    decreases |es|
  {
    hide Apply, Enabled, HasRows, Produces, TakesRows, RowsOk;
    if es != [] {
      StepRowsOk(sys, es[0], limits);
      StepRows(sys, es[0], limits, s, rows);
      RowsOriginIff(Apply(sys, es[0], limits), es[1..], limits, s, rows);
    }
  }

  /** Replacing a question's testcases leaves its evaluated submissions without rows, which reads
      SYSTEM_ERROR: the verdict shown survives exactly when it was SYSTEM_ERROR already. */
  lemma ReplacementShownIff(sys: System, affected: set<SubmissionId>, limits: Limits, s: SubmissionId)
    requires s in affected && s in sys.w.db && sys.w.db[s].evaluated
    ensures var sys' := Apply(sys, ReplaceTestcases(affected), limits);
            var before := ModelStatus(true, Statuses(sys.w.db[s].rows));
            && s in sys'.w.db && sys'.w.db[s].evaluated
            && (ModelStatus(true, Statuses(sys'.w.db[s].rows)) == before <==> before == Some(SystemError))
  {
    assert Statuses([]) == [];
  }

  // ----- a poll pass -----

  /** After a pass each listed entry is in one of three situations: pruned for want of a context;
      still scheduled, with its deadline, for one of three reasons; or dispatched. */
  lemma PollOutcome(w: World, env: PollEnv, sent: seq<PersistMessage>, s: SubmissionId)
    requires s in w.pending && Messages(w, w.pending.Keys, env, sent)
    ensures var w' := Polled(w, env);
            var kept := s in w.contexts && (PassFails(w, env) || s in env.sendFails
                          || (!AllDone(w.contexts[s].entries, ResultsOf(w, env)) && env.now <= w.pending[s]));
            var dispatched := exists i :: 0 <= i < |sent| && sent[i].sub == s;
            && (s in w'.pending <==> kept)
            && (kept ==> w'.pending[s] == w.pending[s] && !dispatched)
            && (dispatched <==> s in w.contexts && !kept)
            && (dispatched ==> PersistMessage(s, !AllDone(w.contexts[s].entries, ResultsOf(w, env))) in sent)
            && w'.contexts == w.contexts
  {
    hide AllDone, ResultsOf, PassFails;
    if !PassFails(w, env) {
      Decides(w, s, env);
    }
    if Dispatches(w, s, env) {
      assert MessageFor(w, s, env) in sent;
      var i :| 0 <= i < |sent| && sent[i] == MessageFor(w, s, env);
      assert sent[i].sub == s;
    }
  }

  /** Nothing past its deadline stays scheduled when Judge0 answers and every message is sent. */
  lemma NothingOverdue(w: World, env: PollEnv)
    requires !PassFails(w, env) && env.sendFails == {}
    ensures forall s :: s in Polled(w, env).pending ==> env.now <= w.pending[s]
  {
    hide AllDone, ResultsOf, PassFails;
    forall s | s in Polled(w, env).pending ensures env.now <= w.pending[s] {
      Decides(w, s, env);
    }
  }

  /** The messages a pass sends are the ones the run model queues for it. */
  lemma PassIsEvent(w: World, env: PollEnv, sent: seq<PersistMessage>)
    requires Messages(w, w.pending.Keys, env, sent)
    ensures var order := seq(|sent|, i requires 0 <= i < |sent| => sent[i].sub);
            IsOrderOf(order, w, env) && PersistMessages(order, w, env) == sent
  {
    hide Decision, AllDone;
    var order := seq(|sent|, i requires 0 <= i < |sent| => sent[i].sub);
    forall s | Dispatches(w, s, env) ensures s in order {
      var i :| 0 <= i < |sent| && sent[i] == MessageFor(w, s, env);
      assert order[i] == s;
    }
  }
}
