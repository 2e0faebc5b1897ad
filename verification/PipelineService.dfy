/** The stages as the workers run them, command by command, on the shared state. */
module PipelineService {
  import opened Collections
  import opened Judge0Repository
  import opened Verdict
  import opened Evaluation
  import opened Attribution
  import opened PipelineState
  import PipelineRuns

  /** What create_evaluation and the gates keep: counters are not negative, and the slot counter
      of a current run exists. */
  ghost predicate Healthy(w: World) {
    && w.inflight >= 0
    && (forall ref :: ref in w.active ==> w.active[ref] >= 0)
    && (forall ref :: IsCurrent(w, ref) ==> ref in w.active)
  }

  // ----- the loops of a poll pass, by the set of list entries already visited -----

  /** seen holds the first i of the listed submissions. */
  ghost predicate Visited(listed: seq<(SubmissionId, int)>, i: nat, seen: set<SubmissionId>) {
    forall j :: 0 <= j < |listed| ==> (listed[j].0 in seen <==> j < i)
  }

  /** listed is the schedule, each entry once. */
  ghost predicate IsListing(listed: seq<(SubmissionId, int)>, pending: map<SubmissionId, int>) {
    && (forall i :: 0 <= i < |listed| ==> listed[i].0 in pending && pending[listed[i].0] == listed[i].1)
    && (forall i, j :: 0 <= i < j < |listed| ==> listed[i].0 != listed[j].0)
    && (forall s :: s in pending ==> (s, pending[s]) in listed)
  }

  lemma VisitNext(listed: seq<(SubmissionId, int)>, i: nat, seen: set<SubmissionId>, pending: map<SubmissionId, int>)
    requires IsListing(listed, pending) && i < |listed| && Visited(listed, i, seen)
    ensures Visited(listed, i + 1, seen + {listed[i].0})
    ensures listed[i].0 in pending && listed[i].0 !in seen && pending[listed[i].0] == listed[i].1
  {
  }

  lemma VisitedAll(listed: seq<(SubmissionId, int)>, seen: set<SubmissionId>, pending: map<SubmissionId, int>)
    requires IsListing(listed, pending) && Visited(listed, |listed|, seen)
    ensures pending.Keys <= seen
  {
    forall s | s in pending ensures s in seen {
      assert (s, pending[s]) in listed;
      var j :| 0 <= j < |listed| && listed[j] == (s, pending[s]);
    }
  }

  ghost function Pruned(w: World, seen: set<SubmissionId>): map<SubmissionId, int> {
    map s | s in w.pending && (s in w.contexts || s !in seen) :: w.pending[s]
  }

  ghost function Gathered(w: World, seen: set<SubmissionId>): map<SubmissionId, (Context, int)> {
    map s | s in w.pending && s in w.contexts && s in seen :: (w.contexts[s], w.pending[s])
  }

  ghost predicate HasTokens(w: World, seen: set<SubmissionId>) {
    exists s :: s in w.pending && s in w.contexts && s in seen && ValidTokens(w.contexts[s].entries) != []
  }

  lemma CollectStep(w: World, seen: set<SubmissionId>, s: SubmissionId)
    requires s in w.pending && s !in seen
    ensures s !in w.contexts ==>
              Pruned(w, seen + {s}) == Pruned(w, seen) - {s} && Gathered(w, seen + {s}) == Gathered(w, seen)
              && HasTokens(w, seen + {s}) == HasTokens(w, seen)
    ensures s in w.contexts ==>
              Pruned(w, seen + {s}) == Pruned(w, seen)
              && Gathered(w, seen + {s}) == Gathered(w, seen)[s := (w.contexts[s], w.pending[s])]
              && HasTokens(w, seen + {s}) == (HasTokens(w, seen) || ValidTokens(w.contexts[s].entries) != [])
  {
    hide ValidTokens;
    if s in w.contexts {
      if x :| x in w.pending && x in w.contexts && x in seen && ValidTokens(w.contexts[x].entries) != [] {
        assert x in seen + {s};
      }
      assert s in seen + {s};
    }
  }

  lemma CollectEnds(w: World, seen: set<SubmissionId>)
    ensures Pruned(w, {}) == w.pending && Gathered(w, {}) == map[] && !HasTokens(w, {})
    ensures w.pending.Keys <= seen ==>
              Pruned(w, seen) == (map s | s in w.pending && s in w.contexts :: w.pending[s])
              && Gathered(w, seen) == (map s | s in w.pending && s in w.contexts :: (w.contexts[s], w.pending[s]))
              && HasTokens(w, seen) == AsksJudge0(w)
  {
    hide ValidTokens;
  }

  ghost function Remaining(w: World, seen: set<SubmissionId>, env: PollEnv): map<SubmissionId, int> {
    map s | s in w.pending && s in w.contexts && !(s in seen && Dispatches(w, s, env)) :: w.pending[s]
  }

  /** sent holds exactly one message for each visited submission that is to be dispatched. */
  ghost predicate Messages(w: World, seen: set<SubmissionId>, env: PollEnv, sent: seq<PersistMessage>) {
    && (forall i :: 0 <= i < |sent| ==>
          sent[i].sub in seen && Dispatches(w, sent[i].sub, env) && sent[i] == MessageFor(w, sent[i].sub, env))
    && (forall s :: s in seen && Dispatches(w, s, env) ==> MessageFor(w, s, env) in sent)
    && (forall i, j :: 0 <= i < j < |sent| ==> sent[i].sub != sent[j].sub)
  }

  lemma Decides(w: World, s: SubmissionId, env: PollEnv)
    requires s in w.pending && !PassFails(w, env)
    ensures Dispatches(w, s, env) <==>
              s in w.contexts && s !in env.sendFails
              && (AllDone(w.contexts[s].entries, ResultsOf(w, env)) || env.now > w.pending[s])
    ensures Dispatches(w, s, env) ==>
              MessageFor(w, s, env) == PersistMessage(s, !AllDone(w.contexts[s].entries, ResultsOf(w, env)))
  {
    hide AllDone, PassFails, ResultsOf;
  }

  lemma DispatchStep(w: World, seen: set<SubmissionId>, s: SubmissionId, env: PollEnv, sent: seq<PersistMessage>)
    requires s in w.pending && s !in seen && Messages(w, seen, env, sent)
    ensures !Dispatches(w, s, env) ==>
              Remaining(w, seen + {s}, env) == Remaining(w, seen, env) && Messages(w, seen + {s}, env, sent)
    ensures Dispatches(w, s, env) ==>
              Remaining(w, seen + {s}, env) == Remaining(w, seen, env) - {s}
              && Messages(w, seen + {s}, env, sent + [MessageFor(w, s, env)])
  {
    hide Dispatches, Decision;
    if Dispatches(w, s, env) {
      var all := sent + [MessageFor(w, s, env)];
      forall x | x in seen + {s} && Dispatches(w, x, env) ensures MessageFor(w, x, env) in all {
        if x != s {
          assert MessageFor(w, x, env) in sent;
        } else {
          assert all[|sent|] == MessageFor(w, s, env);
        }
      }
    }
  }

  // ----- the submissions a bulk run takes up -----

  function WithVerdict(db: map<SubmissionId, Submission>, scope: seq<SubmissionId>): seq<SubmissionId>
    requires forall s :: s in scope ==> s in db
  {
    if scope == [] then []
    else (if db[scope[0]].evaluated then [scope[0]] else []) + WithVerdict(db, scope[1..])
  }

  function WithoutVerdict(db: map<SubmissionId, Submission>, scope: seq<SubmissionId>): seq<SubmissionId>
    requires forall s :: s in scope ==> s in db
  {
    if scope == [] then []
    else (if db[scope[0]].evaluated then [] else [scope[0]]) + WithoutVerdict(db, scope[1..])
  }

  lemma {:induction false} VerdictMembers(db: map<SubmissionId, Submission>, scope: seq<SubmissionId>)
    requires forall s :: s in scope ==> s in db
    ensures forall s :: s in WithVerdict(db, scope) <==> s in scope && db[s].evaluated
    ensures forall s :: s in WithoutVerdict(db, scope) <==> s in scope && !db[s].evaluated
  {
    if scope != [] {
      VerdictMembers(db, scope[1..]);
      assert scope == [scope[0]] + scope[1..];
    }
  }

  /** The two lists part the scope: each submission is in one of them, as often as it was listed. */
  lemma {:induction false} VerdictCounts(db: map<SubmissionId, Submission>, scope: seq<SubmissionId>)
    requires forall s :: s in scope ==> s in db
    ensures forall s :: s in db ==>
              && multiset(WithVerdict(db, scope))[s] == (if db[s].evaluated then multiset(scope)[s] else 0)
              && multiset(WithoutVerdict(db, scope))[s] == (if db[s].evaluated then 0 else multiset(scope)[s])
  {
    if scope != [] {
      VerdictCounts(db, scope[1..]);
      assert scope == [scope[0]] + scope[1..];
    }
  }

  /** The submissions taken up: each as often as it is in scope, without override only if it has no verdict. */
  ghost predicate TakenUp(db: map<SubmissionId, Submission>, scope: seq<SubmissionId>, isOverride: bool,
                          chosen: seq<SubmissionId>)
  {
    && (forall s :: s in chosen ==> s in db)
    && (forall s :: s in db ==>
          multiset(chosen)[s] == if isOverride || !db[s].evaluated then multiset(scope)[s] else 0)
  }

  lemma ChosenMeans(db: map<SubmissionId, Submission>, scope: seq<SubmissionId>, isOverride: bool)
    requires forall s :: s in scope ==> s in db
    ensures TakenUp(db, scope, isOverride, if isOverride then scope else WithoutVerdict(db, scope))
  {
    VerdictMembers(db, scope);
    VerdictCounts(db, scope);
  }

  class EvaluationService {
    var pending: map<SubmissionId, int>
    var contexts: map<SubmissionId, Context>
    var inflight: int
    var active: map<EvalRef, int>
    var records: map<ContestId, Record>
    var processed: map<EvalRef, int>
    var counted: map<EvalRef, set<SubmissionId>>
    var db: map<SubmissionId, Submission>
    const limits: Limits

    constructor (limits: Limits, db: map<SubmissionId, Submission>)
      ensures this.limits == limits && Healthy(State())
      ensures State() == World(map[], map[], 0, map[], map[], map[], map[], db)
    {
      this.limits, this.db := limits, db;
      pending, contexts, inflight, active := map[], map[], 0, map[];
      records, processed, counted := map[], map[], map[];
    }

    ghost function State(): World
      reads this
    {
      World(pending, contexts, inflight, active, records, processed, counted, db)
    }

    // ----- redis_helper -----

    method RegisterPending(s: SubmissionId, context: Context, deadline: int)
      modifies this`pending, this`contexts
      ensures contexts == old(contexts)[s := context] && pending == old(pending)[s := deadline]
    {
      contexts := contexts[s := context];
      pending := pending[s := deadline];
    }

    method ClearPending(s: SubmissionId)
      modifies this`pending, this`contexts
      ensures contexts == old(contexts) - {s} && pending == old(pending) - {s}
    {
      pending := pending - {s};
      contexts := contexts - {s};
    }

    method TryAcquireInflight() returns (ok: bool)
      modifies this`inflight
      ensures ok <==> old(inflight) + 1 <= limits.maxInflight
      ensures inflight == old(inflight) + if ok then 1 else 0
    {
      inflight := inflight + 1;
      var newVal := inflight;
      if newVal > limits.maxInflight {
        inflight := inflight - 1;
        return false;
      }
      return true;
    }

    method ReleaseInflight()
      modifies this`inflight
      ensures inflight == Released(old(inflight)) == if old(inflight) > 0 then old(inflight) - 1 else 0
    {
      inflight := inflight - 1;
      if inflight < 0 {
        inflight := 0;
      }
    }

    method TryAcquireContestSlot(ref: EvalRef) returns (ok: bool)
      modifies this`active
      ensures ok <==> GetOr(old(active), ref, 0) + 1 <= limits.maxActive
      ensures active == old(active)[ref := GetOr(old(active), ref, 0) + if ok then 1 else 0]
    {
      active := active[ref := GetOr(active, ref, 0) + 1];
      var newVal := active[ref];
      if newVal > limits.maxActive {
        active := active[ref := active[ref] - 1];
        return false;
      }
      return true;
    }

    method ReleaseContestSlot(ref: EvalRef)
      modifies this`active
      ensures active == old(active)[ref := Released(GetOr(old(active), ref, 0))]
      ensures active[ref] == if ref in old(active) && old(active)[ref] > 0 then old(active)[ref] - 1 else 0
    {
      active := active[ref := GetOr(active, ref, 0) - 1];
      if active[ref] < 0 {
        active := active[ref := 0];
      }
    }

    method CreateEvaluation(ref: EvalRef, total: nat)
      modifies this`records, this`processed, this`active, this`counted
      ensures records == old(records)[ref.contest := Record(ref.run, total)]
      ensures processed == old(processed)[ref := 0] && active == old(active)[ref := 0]
      ensures counted == old(counted) - {ref}
    {
      records := records[ref.contest := Record(ref.run, total)];
      processed := processed[ref := 0];
      active := active[ref := 0];
      counted := counted - {ref};
    }

    method IsEvaluationValid(ref: EvalRef) returns (valid: bool)
      ensures valid <==> RunValid(State(), ref)
      ensures valid ==> IsCurrent(State(), ref)
      ensures valid <==> ref.contest in records && records[ref.contest].run == ref.run && records[ref.contest].total > 0
                         && (ref in processed ==> processed[ref] < records[ref.contest].total)
    {
      if ref.contest !in records || records[ref.contest].run != ref.run {
        return false;
      }
      var done := GetOr(processed, ref, 0);
      return DeriveStatus(done, records[ref.contest].total) != Completed;
    }

    method AdvanceProgress(ref: Option<EvalRef>, s: SubmissionId)
      modifies this`counted, this`processed
      ensures State() == Advanced(old(State()), ref, s)
    {
      if ref.None? {
        return;
      }
      var r := ref.value;
      if r.contest !in records || records[r.contest].run != r.run {
        return;
      }
      var members := GetOr(counted, r, {});
      if s in members {
        return;
      }
      counted := counted[r := members + {s}];
      processed := processed[r := GetOr(processed, r, 0) + 1];
    }

    // ----- terminal writes -----

    method CompleteSubmission(s: SubmissionId, score: int, rows: seq<Row>)
      requires s in db
      modifies this`db
      ensures db == old(db)[s := Submission(true, score, old(db)[s].rows + rows)]
    {
      db := db[s := db[s].(score := score)];
      db := db[s := db[s].(evaluated := true, rows := db[s].rows + rows)];
    }

    method PersistTerminalStatus(s: SubmissionId)
      modifies this`db
      ensures db == Finalised(old(db), s, 0, [])
    {
      if s !in db || db[s].evaluated {
        return;
      }
      CompleteSubmission(s, 0, []);
    }

    method CleanupSubmission(s: SubmissionId)
      requires s in db
      modifies this`db
      ensures db == old(db)[s := old(db)[s].(evaluated := false, rows := [])]
    {
      db := db[s := db[s].(evaluated := false)];
      if db[s].rows != [] {
        db := db[s := db[s].(rows := [])];
      }
    }

    method TerminalExit(m: SubmitMessage)
      modifies this`db, this`counted, this`processed
      ensures State() == Advanced(old(State()).(db := Finalised(old(db), m.sub, 0, [])), m.ref, m.sub)
    {
      PersistTerminalStatus(m.sub);
      label written:
      assert State() == old(State()).(db := Finalised(old(db), m.sub, 0, []));
      AdvanceProgress(m.ref, m.sub);
    }

    method ReleaseGates(ref: Option<EvalRef>)
      modifies this`inflight, this`active
      ensures inflight == Released(old(inflight))
      ensures active == if ref.Some? then old(active)[ref.value := Released(GetOr(old(active), ref.value, 0))]
          else old(active)
    {
      ReleaseInflight();
      if ref.Some? {
        ReleaseContestSlot(ref.value);
      }
    }

    // ----- SUBMIT -----

    /** prepare_evaluation: true when there is something to submit, None when there is not. */
    method PrepareEvaluation(m: SubmitMessage, load: Load) returns (testcases: Option<seq<Testcase>>, failed: bool)
      modifies this`db
      ensures failed <==> load == LoadFails(true)
                          || (load.LoadFails? && m.sub in old(db) && (m.reevaluation || !old(db)[m.sub].evaluated))
      ensures testcases.Some? <==> load.Loaded? && m.sub in old(db) && (m.reevaluation || !old(db)[m.sub].evaluated)
      ensures testcases.Some? ==> testcases.value == load.testcases
      ensures db == if m.reevaluation && m.sub in old(db) && load != LoadFails(true)
                    then old(db)[m.sub := old(db)[m.sub].(evaluated := false, rows := [])] else old(db)
    {
      if load == LoadFails(true) {
        return None, true;
      }
      if m.sub !in db {
        return None, false;
      }
      if m.reevaluation {
        CleanupSubmission(m.sub);
      } else if db[m.sub].evaluated {
        return None, false;
      }
      if load.LoadFails? {
        return None, true;
      }
      return Some(load.testcases), false;
    }

    /** The gates, the batch submit and the registration. Every way out but registration gives
        back exactly what was acquired; Finished leaves the terminal verdict to the caller. */
    method AdmitAndPost(m: SubmitMessage, testcases: seq<Testcase>, env: SubmitEnv) returns (exit: SubmitExit)
      requires Healthy(State()) && (m.ref.Some? ==> IsCurrent(State(), m.ref.value))
      modifies this`inflight, this`active, this`pending, this`contexts
      ensures exit == if !Admits(old(State()), m.ref, limits) then Backpressure
                      else if env.posted.Transient? then TransientFailure
                      else if env.posted.Rejected? || !SomeToken(env.posted.value) then Finished
                      else Registered
      ensures exit != Registered ==> State() == old(State())
      ensures exit == Registered ==> State() == WithRegistered(old(State()), m, testcases, env)
      ensures exit == Registered ==>
                && m.sub in contexts && |contexts[m.sub].entries| == Shorter(|testcases|, |env.posted.value|)
                && (forall i :: 0 <= i < |contexts[m.sub].entries| ==>
                      contexts[m.sub].entries[i] == TokenEntry(env.posted.value[i], testcases[i].id))
    {
      hide TokenMap, SomeToken;
      var admitted := TryAcquireInflight();
      if !admitted {
        return Backpressure;
      }
      if m.ref.Some? {
        var acquired := TryAcquireContestSlot(m.ref.value);
        if !acquired {
          ReleaseInflight();
          assert active == old(active);
          return Backpressure;
        }
      }
      match env.posted {
        case Transient =>
          ReleaseGates(m.ref);
          assert active == old(active);
          return TransientFailure;
        case Rejected =>
        case Ok(tokens) =>
          if SomeToken(tokens) {
            RegisterPending(m.sub, Context(m.ref, TokenMap(testcases, tokens)), env.deadline);
            TokenMapPairs(testcases, tokens);
            return Registered;
          }
      }
      ReleaseGates(m.ref);
      assert active == old(active);
      return Finished;
    }

    method Submit(m: SubmitMessage, env: SubmitEnv) returns (exit: SubmitExit)
      requires Healthy(State())
      modifies this
      ensures exit == ExitOf(old(State()), m, env, limits)
      ensures State() == Submitted(old(State()), m, env, limits)
      ensures exit == Registered ==>
                && m.sub in contexts && |contexts[m.sub].entries| == Shorter(|env.load.testcases|, |env.posted.value|)
                && (forall i :: 0 <= i < |contexts[m.sub].entries| ==>
                      contexts[m.sub].entries[i] == TokenEntry(env.posted.value[i], env.load.testcases[i].id))
    {
      hide Advanced, Finalised, RunValid, TokenMap, SomeToken;
      if m.ref.Some? {
        var valid := IsEvaluationValid(m.ref.value);
        if !valid {
          return Superseded;
        }
      }
      if m.sub in pending {
        return AlreadyPending;
      }
      var testcases, failed := PrepareEvaluation(m, env.load);
      ghost var prepared := State();
      assert prepared == old(State()).(db := Cleaned(old(State()), m, env));
      if failed {
        TerminalExit(m);
        return Finished;
      }
      if testcases.None? {
        AdvanceProgress(m.ref, m.sub);
        return NothingToDo;
      }
      if testcases.value == [] {
        TerminalExit(m);
        return Finished;
      }
      exit := AdmitAndPost(m, testcases.value, env);
      if exit == Finished {
        assert State() == prepared;
        TerminalExit(m);
      }
    }

    method SubmitGiveUp(m: SubmitMessage)
      modifies this
      ensures State() == GivenUp(old(State()), m)
    {
      TerminalExit(m);
    }

    /** One delivery of the SUBMIT message, with its retry policy: requeued is what stays to be done. */
    method SubmitEvaluation(m: SubmitMessage, env: SubmitEnv) returns (exit: SubmitExit, requeued: seq<SubmitMessage>)
      requires Healthy(State())
      modifies this
      ensures exit == ExitOf(old(State()), m, env, limits) && requeued == PipelineRuns.Retries(exit, m, limits)
      ensures State() == PipelineRuns.AfterSubmit(old(State()), m, env, limits)
    {
      hide ExitOf, Submitted, GivenUp;
      requeued := [];
      exit := Submit(m, env);
      if exit == Backpressure {
        requeued := [m];
      } else if exit == TransientFailure {
        if m.retries >= limits.maxRetries {
          SubmitGiveUp(m);
        } else {
          requeued := [m.(retries := m.retries + 1)];
        }
      }
    }

    // ----- bulk runs -----

    /** Two statements: delete the testcase rows, then clear the verdicts. */
    method ResetSubmissions(ids: seq<SubmissionId>)
      modifies this`db
      ensures db == map s | s in old(db) :: if s in ids then Submission(false, 0, []) else old(db)[s]
    {
      db := map s | s in db :: if s in ids then db[s].(rows := []) else db[s];
      db := map s | s in db :: if s in ids then db[s].(evaluated := false, score := 0) else db[s];
    }

    /** trigger_evaluation: with override everything in scope is reset and judged again, without it
        only what has no verdict is judged. */
    method TriggerEvaluation(ref: EvalRef, scope: seq<SubmissionId>, isOverride: bool)
      returns (messages: seq<SubmitMessage>)
      requires forall s :: s in scope ==> s in db
      modifies this
      ensures var chosen := if isOverride then scope else WithoutVerdict(old(db), scope);
              State() == PipelineRuns.RunCreated(old(State()), ref, chosen)
              && messages == PipelineRuns.RunMessages(chosen, ref) && TakenUp(old(db), scope, isOverride, chosen)
      ensures records == old(records)[ref.contest := Record(ref.run, |messages|)]
      ensures processed[ref] == active[ref] == 0 && ref !in counted
      ensures db.Keys == old(db).Keys
      ensures forall s :: s in db ==>
                db[s] == if isOverride && s in scope && old(db)[s].evaluated then Submission(false, 0, [])
                         else old(db)[s]
    {
      hide WithVerdict, WithoutVerdict, TakenUp;
      ChosenMeans(db, scope, isOverride);
      var chosen := scope;
      if isOverride {
        var judged := WithVerdict(db, scope);
        VerdictMembers(db, scope);
        if judged != [] {
          ResetSubmissions(judged);
        }
      } else {
        chosen := WithoutVerdict(db, scope);
        VerdictMembers(db, scope);
      }
      assert db == PipelineRuns.Reset(old(db), chosen);
      CreateEvaluation(ref, |chosen|);
      messages := PipelineRuns.RunMessages(chosen, ref);
    }

    // ----- PERSIST -----

    method CleanupContext(s: SubmissionId, ref: Option<EvalRef>)
      requires s in contexts && contexts[s].ref == ref
      modifies this`pending, this`contexts, this`inflight, this`active
      ensures State() == Dropped(old(State()), s)
    {
      ClearPending(s);
      ReleaseInflight();
      if ref.Some? {
        ReleaseContestSlot(ref.value);
      }
    }

    method Persist(p: PersistMessage, env: PersistEnv)
      modifies this
      ensures State() == Persisted(old(State()), p, env)
    {
      if p.sub !in contexts {
        return;
      }
      var context := contexts[p.sub];
      if context.ref.Some? {
        var valid := IsEvaluationValid(context.ref.value);
        if !valid {
          CleanupContext(p.sub, context.ref);
          return;
        }
      }
      match env {
        case Collected(known, testcases, passes, score) =>
          var results := Fetched(known, ValidTokens(context.entries));
          if p.sub in db && !db[p.sub].evaluated {
            var byId := ById(testcases);
            Aligned(context.entries, byId);
            var result := BuildEvaluationResult(
              AlignedTestcases(context.entries, byId), AlignedTokens(context.entries, byId),
              results, p.timedOut, passes);
            assert result.rows == PersistRows(context.entries, testcases, results, p.timedOut, passes) by {
              Whole(AlignedTestcases(context.entries, byId));
              Whole(AlignedTokens(context.entries, byId));
            }
            CompleteSubmission(p.sub, score, result.rows);
          }
        case CollectFails(writeFails) =>
          if !writeFails {
            PersistTerminalStatus(p.sub);
          }
      }
      assert State() == old(State()).(db := Written(old(State()), p, env));
      CleanupContext(p.sub, context.ref);
      AdvanceProgress(context.ref, p.sub);
    }

    // ----- POLL -----

    /** list_pending: every scheduled submission once, with its deadline. */
    method ListPending() returns (members: seq<(SubmissionId, int)>)
      ensures IsListing(members, pending)
    {
      members := [];
      var rest := pending.Keys;
      while rest != {}
        invariant rest <= pending.Keys
        invariant forall i :: 0 <= i < |members| ==>
                    members[i].0 in pending && members[i].0 !in rest && pending[members[i].0] == members[i].1
        invariant forall i, j :: 0 <= i < j < |members| ==> members[i].0 != members[j].0
        invariant forall s :: s in pending ==> s in rest || (s, pending[s]) in members
        decreases rest
      {
        var s :| s in rest;
        members := members + [(s, pending[s])];
        rest := rest - {s};
      }
    }

    /** The collecting half of a pass: prune orphans, gather contexts and tokens. */
    method Collect(listed: seq<(SubmissionId, int)>)
      returns (collected: map<SubmissionId, (Context, int)>, tokens: seq<Token>)
      requires IsListing(listed, pending)
      modifies this`pending
      ensures pending == map s | s in old(pending) && s in contexts :: old(pending)[s]
      ensures collected == map s | s in old(pending) && s in contexts :: (contexts[s], old(pending)[s])
      ensures tokens != [] <==> AsksJudge0(old(State()))
    {
      hide IsListing, Visited, Pruned, Gathered, HasTokens, AsksJudge0, ValidTokens;
      ghost var w := State();
      collected, tokens := map[], [];
      ghost var seen: set<SubmissionId> := {};
      CollectEnds(w, {});
      VisitNone(listed);
      for i := 0 to |listed|
        invariant Visited(listed, i, seen)
        invariant pending == Pruned(w, seen) && collected == Gathered(w, seen)
        invariant tokens != [] <==> HasTokens(w, seen)
      {
        var s, deadline := listed[i].0, listed[i].1;
        VisitNext(listed, i, seen, w.pending);
        CollectStep(w, seen, s);
        seen := seen + {s};
        if s !in contexts {
          pending := pending - {s};
        } else {
          collected := collected[s := (contexts[s], deadline)];
          tokens := tokens + ValidTokens(contexts[s].entries);
        }
      }
      VisitedAll(listed, seen, w.pending);
      CollectEnds(w, seen);
    }

    /** _poll_once without its lock: sent holds the PERSIST messages that reached the broker. */
    method PollOnce(env: PollEnv) returns (sent: seq<PersistMessage>)
      modifies this`pending
      ensures State() == Polled(old(State()), env)
      ensures Messages(old(State()), old(State()).pending.Keys, env, sent)
    {
      hide IsListing, Visited, Remaining, Messages, AllDone, AsksJudge0, ValidTokens, Dispatches, MessageFor, Polled;
      ghost var w := State();
      sent := [];
      var listed := ListPending();
      var collected, tokens := Collect(listed);
      var results: map<Token, Judge0Result> := map[];
      if tokens != [] {
        if env.fetched.None? {
          DispatchStart(w, env);
          PassFailed(w, env);
          return;
        }
        results := env.fetched.value;
      }
      assert results == ResultsOf(w, env) && !PassFails(w, env);
      ghost var seen: set<SubmissionId> := {};
      DispatchStart(w, env);
      VisitNone(listed);
      for i := 0 to |listed|
        invariant Visited(listed, i, seen) && seen <= w.pending.Keys
        invariant pending == Remaining(w, seen, env) && Messages(w, seen, env, sent)
      {
        var s := listed[i].0;
        VisitNext(listed, i, seen, w.pending);
        Decides(w, s, env);
        DispatchStep(w, seen, s, env, sent);
        seen := seen + {s};
        if s !in collected {
          continue;
        }
        var context, deadline := collected[s].0, collected[s].1;
        var timedOut := false;
        if !AllDone(context.entries, results) {
          if env.now > deadline {
            timedOut := true;
          } else {
            continue;
          }
        }
        if s in env.sendFails {
          continue;
        }
        sent := sent + [PersistMessage(s, timedOut)];
        pending := pending - {s};
      }
      VisitedAll(listed, seen, w.pending);
      assert seen == w.pending.Keys;
      DispatchEnd(w, env);
    }
  }

  lemma Whole<T>(q: seq<T>)
    ensures q[..|q|] == q
  {
  }

  lemma VisitNone(listed: seq<(SubmissionId, int)>)
    ensures Visited(listed, 0, {})
  {
  }

  lemma DispatchStart(w: World, env: PollEnv)
    ensures Messages(w, {}, env, [])
    ensures Remaining(w, {}, env) == map s | s in w.pending && s in w.contexts :: w.pending[s]
  {
    hide Dispatches, MessageFor;
  }

  lemma DispatchEnd(w: World, env: PollEnv)
    ensures w.(pending := Remaining(w, w.pending.Keys, env)) == Polled(w, env)
  {
    hide Dispatches;
  }

  /** A failed Judge0 call ends the pass with nothing sent. */
  lemma PassFailed(w: World, env: PollEnv)
    requires PassFails(w, env)
    ensures Messages(w, w.pending.Keys, env, [])
    ensures w.(pending := Remaining(w, {}, env)) == Polled(w, env)
  {
    hide PassFails, Decision, ResultsOf;
  }
}
