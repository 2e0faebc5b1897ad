/** What the stages do, field by field and from their inputs alone: when SUBMIT takes which exit, what it
    stores, what PERSIST writes and gives back, and whom a poll pass dispatches. */
module PipelineMeaning {
  import opened Collections
  import opened Judge0Repository
  import opened Verdict
  import opened Evaluation
  import opened Attribution
  import opened PipelineState
  import opened PipelineRuns
  import PipelineService

  /** The owner's run is the contest's present one and has submissions left to judge. */
  ghost predicate Open(w: World, ref: Option<EvalRef>) {
    ref.Some? ==>
      var (c, r) := (ref.value.contest, ref.value);
      && c in w.records && w.records[c].run == r.run && w.records[c].total > 0
      && (r in w.processed ==> w.processed[r] < w.records[c].total)
  }

  lemma OpenMeans(w: World, ref: Option<EvalRef>)
    ensures Skips(w, ref) <==> !Open(w, ref)
  {
  }

  /** The delivery is let through to a row it has to judge. */
  ghost predicate Starts(w: World, m: SubmitMessage, env: SubmitEnv) {
    && Open(w, m.ref) && m.sub !in w.pending && env.load != LoadFails(true)
    && m.sub in w.db && (m.reevaluation || !w.db[m.sub].evaluated)
  }

  ghost predicate HasRoom(w: World, ref: Option<EvalRef>, limits: Limits) {
    && w.inflight < limits.maxInflight
    && (ref.Some? ==> if ref.value in w.active then w.active[ref.value] < limits.maxActive else 0 < limits.maxActive)
  }

  /** It has testcases to run and capacity to run them. */
  ghost predicate Posts(w: World, m: SubmitMessage, env: SubmitEnv, limits: Limits) {
    Starts(w, m, env) && env.load.Loaded? && env.load.testcases != [] && HasRoom(w, m.ref, limits)
  }

  /** Each way out of SUBMIT is taken in its own circumstances and no others. */
  lemma ExitMeans(w: World, m: SubmitMessage, env: SubmitEnv, limits: Limits)
    ensures var exit := ExitOf(w, m, env, limits);
            && (exit == Superseded <==> !Open(w, m.ref))
            && (exit == AlreadyPending <==> Open(w, m.ref) && m.sub in w.pending)
            && (exit == NothingToDo <==>
                  Open(w, m.ref) && m.sub !in w.pending && env.load != LoadFails(true)
                  && (m.sub !in w.db || (w.db[m.sub].evaluated && !m.reevaluation)))
            && (exit == Backpressure <==>
                  Starts(w, m, env) && env.load.Loaded? && env.load.testcases != [] && !HasRoom(w, m.ref, limits))
            && (exit == TransientFailure <==> Posts(w, m, env, limits) && env.posted.Transient?)
            && (exit == Registered <==>
                  Posts(w, m, env, limits) && env.posted.Ok?
                  && exists i :: 0 <= i < |env.posted.value| && env.posted.value[i].Some?)
            && (exit == Finished <==>
                  || (Open(w, m.ref) && m.sub !in w.pending && env.load == LoadFails(true))
                  || (Starts(w, m, env) && (env.load.LoadFails? || env.load.testcases == []))
                  || (Posts(w, m, env, limits)
                      && (env.posted.Rejected?
                          || (env.posted.Ok?
                              && forall i :: 0 <= i < |env.posted.value| ==> env.posted.value[i].None?))))
  {
  }

  /** One more submission counted for its run: only a current run, and only once. */
  ghost predicate CountsFor(w: World, ref: Option<EvalRef>, s: SubmissionId, w': World) {
    if ref.Some? && ref.value.contest in w.records && w.records[ref.value.contest].run == ref.value.run
       && (ref.value in w.counted ==> s !in w.counted[ref.value])
    then
      var r := ref.value;
      && w'.counted == w.counted[r := (if r in w.counted then w.counted[r] else {}) + {s}]
      && w'.processed == w.processed[r := (if r in w.processed then w.processed[r] else 0) + 1]
    else w'.counted == w.counted && w'.processed == w.processed
  }

  ghost predicate SameGates(w: World, w': World) { w'.inflight == w.inflight && w'.active == w.active }

  lemma AdvancedMeans(w: World, ref: Option<EvalRef>, s: SubmissionId)
    ensures var w' := Advanced(w, ref, s);
            && CountsFor(w, ref, s, w') && SameGates(w, w') && w'.db == w.db && w'.records == w.records
            && w'.contexts == w.contexts && w'.pending == w.pending
  {
  }

  /** A terminal verdict without rows, for a row that is there and has none. */
  ghost function Closed(before: Submission): Submission {
    if before.evaluated then before else Submission(true, 0, before.rows)
  }

  /** A re-evaluation wipes the row it starts on. */
  ghost function Wiped(before: Submission, reevaluation: bool): Submission {
    if reevaluation then Submission(false, before.score, []) else before
  }

  /** The row after one SUBMIT: untouched until the delivery starts on it, then wiped if it is a re-evaluation,
      and closed when there is nothing to post or nothing came back. */
  lemma SubmitRowMeans(w: World, m: SubmitMessage, env: SubmitEnv, limits: Limits)
    ensures var w' := Submitted(w, m, env, limits);
            var exit := ExitOf(w, m, env, limits);
            && w'.db.Keys == w.db.Keys && (forall s :: s in w.db && s != m.sub ==> w'.db[s] == w.db[s])
            && (m.sub in w.db ==>
                  w'.db[m.sub] == if Starts(w, m, env)
                                  then var wiped := Wiped(w.db[m.sub], m.reevaluation);
                                       if exit == Finished then Closed(wiped) else wiped
                                  else if exit == Finished then Closed(w.db[m.sub]) else w.db[m.sub])
  {
    hide ExitOf, Advanced, RunValid, TokenMap;
    ExitMeans(w, m, env, limits);
    AdvancedMeans(Uncounted(w, m, env, limits), m.ref, m.sub);
  }

  /** What one SUBMIT does to the rest of the stores: only a registration takes capacity, schedules the
      submission and stores its tokens, the i-th with the i-th testcase; only an exit with nothing left to wait
      for counts. */
  lemma SubmitMeans(w: World, m: SubmitMessage, env: SubmitEnv, limits: Limits)
    ensures var w' := Submitted(w, m, env, limits);
            var exit := ExitOf(w, m, env, limits);
            && w'.records == w.records
            && (exit != Registered ==>
                  SameGates(w, w') && w'.contexts == w.contexts && w'.pending == w.pending)
            && (exit == NothingToDo || exit == Finished ==> CountsFor(w, m.ref, m.sub, w'))
            && (exit != NothingToDo && exit != Finished ==> CountsFor(w, None, m.sub, w'))
    ensures ExitOf(w, m, env, limits) == Registered ==>
              var w' := Submitted(w, m, env, limits);
              var (testcases, tokens) := (env.load.testcases, env.posted.value);
              var n := if |testcases| < |tokens| then |testcases| else |tokens|;
              && w'.pending == w.pending[m.sub := env.deadline]
              && m.sub in w'.contexts && w'.contexts == w.contexts[m.sub := w'.contexts[m.sub]]
              && w'.contexts[m.sub].ref == m.ref && |w'.contexts[m.sub].entries| == n
              && (forall i :: 0 <= i < n ==>
                    w'.contexts[m.sub].entries[i] == TokenEntry(tokens[i], testcases[i].id))
              && w'.inflight == w.inflight + 1
              && (m.ref.None? ==> w'.active == w.active)
              && (m.ref.Some? ==>
                    w'.active == w.active[m.ref.value := 1 + if m.ref.value in w.active then w.active[m.ref.value]
                                                             else 0])
  {
    hide Advanced, ExitOf, DbOf, WithRegistered;
    AdvancedMeans(Uncounted(w, m, env, limits), m.ref, m.sub);
    RegisteringNeeds(w, m, env, limits);
    if ExitOf(w, m, env, limits) == Registered {
      RegisterMeans(w.(db := DbOf(w, m, env, Registered)), m, env.load.testcases, env);
    }
  }

  lemma RegisteringNeeds(w: World, m: SubmitMessage, env: SubmitEnv, limits: Limits)
    ensures ExitOf(w, m, env, limits) == Registered ==> env.load.Loaded? && env.posted.Ok?
  {
    hide RunValid, Admits, SomeToken;
  }

  lemma RegisterMeans(w: World, m: SubmitMessage, testcases: seq<Testcase>, env: SubmitEnv)
    requires env.posted.Ok?
    ensures var w' := WithRegistered(w, m, testcases, env);
            var tokens := env.posted.value;
            var n := if |testcases| < |tokens| then |testcases| else |tokens|;
            && w'.records == w.records && w'.counted == w.counted && w'.processed == w.processed && w'.db == w.db
            && w'.pending == w.pending[m.sub := env.deadline]
            && m.sub in w'.contexts && w'.contexts == w.contexts[m.sub := w'.contexts[m.sub]]
            && w'.contexts[m.sub].ref == m.ref && |w'.contexts[m.sub].entries| == n
            && (forall i :: 0 <= i < n ==>
                  w'.contexts[m.sub].entries[i] == TokenEntry(tokens[i], testcases[i].id))
            && w'.inflight == w.inflight + 1
            && (m.ref.None? ==> w'.active == w.active)
            && (m.ref.Some? ==>
                  w'.active == w.active[m.ref.value := 1 + if m.ref.value in w.active then w.active[m.ref.value]
                                                           else 0])
  {
  }

  /** What one delivery leaves queued: a backpressured message as it was, a transient failure with one attempt
      less, and no message in place of which the verdict is written when the attempts are used up. */
  lemma DeliveryMeans(w: World, m: SubmitMessage, env: SubmitEnv, limits: Limits)
    ensures var exit := ExitOf(w, m, env, limits);
            var givesUp := exit == TransientFailure && m.retries >= limits.maxRetries;
            var v, w' := Submitted(w, m, env, limits), AfterSubmit(w, m, env, limits);
            && Retries(exit, m, limits) == (if exit == Backpressure then [m]
                                            else if exit == TransientFailure && !givesUp
                                            then [SubmitMessage(m.sub, m.reevaluation, m.ref, m.retries + 1)]
                                            else [])
            && (!givesUp ==> w' == v)
            && (givesUp ==>
                  && CountsFor(w, m.ref, m.sub, w') && SameGates(w, w')
                  && w'.contexts == w.contexts && w'.pending == w.pending && w'.records == w.records
                  && m.sub in w.db
                  && w'.db == w.db[m.sub := Submission(true, 0, if m.reevaluation then [] else w.db[m.sub].rows)])
  {
    hide ExitOf, Advanced, Submitted, RunValid;
    ExitMeans(w, m, env, limits);
    SubmitMeans(w, m, env, limits);
    SubmitRowMeans(w, m, env, limits);
    var v := Submitted(w, m, env, limits);
    var closed := v.(db := Finalised(v.db, m.sub, 0, []));
    AdvancedMeans(closed, m.ref, m.sub);
    if ExitOf(w, m, env, limits) == TransientFailure {
      assert v.db == w.db[m.sub := Wiped(w.db[m.sub], m.reevaluation)];
      assert v.db[m.sub].rows + [] == v.db[m.sub].rows;
      assert closed.db == w.db[m.sub := Submission(true, 0, if m.reevaluation then [] else w.db[m.sub].rows)];
    }
  }

  // ----- PERSIST -----

  /** The rows PERSIST adds: one for every entry whose testcase is still there, saying what Judge0 reports for
      that entry's own token. */
  ghost predicate RowsAre(rows: seq<Row>, entries: seq<TokenEntry>, env: PersistEnv, timedOut: bool)
    requires env.Collected?
  {
    && (forall j :: 0 <= j < |rows| ==> RowIs(rows[j], entries, env, timedOut))
    && (forall e :: e in entries && (exists t :: t in env.testcases && t.id == e.testcase) ==>
          exists j :: 0 <= j < |rows| && rows[j].testcase == e.testcase && rows[j].token == e.token)
  }

  ghost predicate RowIs(row: Row, entries: seq<TokenEntry>, env: PersistEnv, timedOut: bool)
    requires env.Collected?
  {
    exists e, t :: e in entries && t in env.testcases && t.id == e.testcase
                   && RowSays(row, t, e.token, env.known, timedOut, env.passes)
  }

  lemma RowsSay(entries: seq<TokenEntry>, env: PersistEnv, timedOut: bool, j: nat)
    requires env.Collected? && j < |Kept(entries, ById(env.testcases))|
    ensures var rows := PersistRows(entries, env.testcases, Fetched(env.known, ValidTokens(entries)), timedOut,
                                    env.passes);
            var e := Kept(entries, ById(env.testcases))[j];
            |rows| == |Kept(entries, ById(env.testcases))| && RowIs(rows[j], entries, env, timedOut)
            && rows[j].testcase == e.testcase && rows[j].token == e.token
  {
    hide PersistRows, Attributes, ValidTokens, Fetched, Kept, ById, RowSays;
    var e := Kept(entries, ById(env.testcases))[j];
    var rows := PersistRows(entries, env.testcases, Fetched(env.known, ValidTokens(entries)), timedOut, env.passes);
    KeptMembers(entries, ById(env.testcases));
    assert e in entries;
    RowOfEntry(entries, env.testcases, env.known, timedOut, env.passes, j);
    AttributedFields(rows[j], e, env.testcases, env.known, timedOut, env.passes);
    AttributedSays(rows[j], e, env.testcases, env.known, timedOut, env.passes);
  }

  lemma PersistRowsMean(entries: seq<TokenEntry>, env: PersistEnv, timedOut: bool)
    requires env.Collected?
    ensures RowsAre(PersistRows(entries, env.testcases, Fetched(env.known, ValidTokens(entries)), timedOut, env.passes),
                    entries, env, timedOut)
  {
    hide PersistRows, ValidTokens, Fetched, Kept, ById, RowIs;
    var kept := Kept(entries, ById(env.testcases));
    var rows := PersistRows(entries, env.testcases, Fetched(env.known, ValidTokens(entries)), timedOut, env.passes);
    RowCount(entries, env.testcases, env.known, timedOut, env.passes);
    KeptMembers(entries, ById(env.testcases));
    ByIdFinds(env.testcases);
    forall j | 0 <= j < |rows|
      ensures RowIs(rows[j], entries, env, timedOut)
      ensures rows[j].testcase == kept[j].testcase && rows[j].token == kept[j].token
    {
      RowsSay(entries, env, timedOut, j);
    }
    forall e | e in entries && exists t :: t in env.testcases && t.id == e.testcase
      ensures exists j :: 0 <= j < |rows| && rows[j].testcase == e.testcase && rows[j].token == e.token
    {
      assert e in kept;
      var j :| 0 <= j < |kept| && kept[j] == e;
      assert rows[j].testcase == e.testcase;
    }
  }

  lemma AttributedSays(row: Row, e: TokenEntry, present: seq<Testcase>, known: map<Token, Judge0Result>,
                       timedOut: bool, passes: Strategy)
    requires Attributes(row, e, present, known, timedOut, passes)
    ensures exists t :: t in present && t.id == e.testcase && RowSays(row, t, e.token, known, timedOut, passes)
  {
    hide Truncate, RowFor, RowSays;
    var results := Fetched(known, if Usable(e.token) then [e.token.value] else []);
    var t :| t in present && t.id == e.testcase == row.testcase && row.token == e.token
             && row == RowFor(t, e.token, results, timedOut, passes);
    RowMeans(t, e.token, results, timedOut, passes);
    SameReport(row, t, e.token, known, timedOut, passes);
  }

  /** Asking for the token itself is looking it up. */
  lemma SameReport(row: Row, t: Testcase, token: Option<Token>, known: map<Token, Judge0Result>, timedOut: bool,
                   passes: Strategy)
    requires RowSays(row, t, token, Fetched(known, if Usable(token) then [token.value] else []), timedOut, passes)
    ensures RowSays(row, t, token, known, timedOut, passes)
  {
    hide Truncate;
  }

  lemma DroppedMeans(w: World, s: SubmissionId)
    requires s in w.contexts
    ensures var w' := Dropped(w, s);
            var ref := w.contexts[s].ref;
            && w'.records == w.records && w'.contexts == w.contexts - {s} && w'.pending == w.pending - {s}
            && w'.inflight == (if w.inflight > 0 then w.inflight - 1 else 0)
            && (ref.None? ==> w'.active == w.active)
            && (ref.Some? ==>
                  w'.active == w.active[ref.value := if ref.value in w.active && w.active[ref.value] > 0
                                                     then w.active[ref.value] - 1 else 0])
            && w'.counted == w.counted && w'.processed == w.processed && w'.db == w.db
  {
  }

  /** Whatever is dropped or written, the count depends on the records and counters alone. */
  lemma CountsAlike(w: World, v: World, ref: Option<EvalRef>, s: SubmissionId, w': World)
    requires v.records == w.records && v.counted == w.counted && v.processed == w.processed
    ensures CountsFor(v, ref, s, w') == CountsFor(w, ref, s, w') && CountsFor(w, None, s, v)
  {
  }

  lemma WrittenElsewhere(w: World, p: PersistMessage, env: PersistEnv)
    requires p.sub in w.contexts
    ensures Written(w, p, env).Keys == w.db.Keys
    ensures forall s :: s in w.db && s != p.sub ==> Written(w, p, env)[s] == w.db[s]
  {
    hide PersistRows, Fetched;
  }

  /** What PERSIST does with a context: it goes, its units come back, no counter below zero, and for an open run
      the verdict is written once and counted once. */
  lemma PersistMeans(w: World, p: PersistMessage, env: PersistEnv)
    ensures p.sub !in w.contexts ==> Persisted(w, p, env) == w
    ensures p.sub in w.contexts ==>
              var w' := Persisted(w, p, env);
              var ref := w.contexts[p.sub].ref;
              && w'.records == w.records && w'.contexts == w.contexts - {p.sub} && w'.pending == w.pending - {p.sub}
              && w'.inflight == (if w.inflight > 0 then w.inflight - 1 else 0)
              && (ref.None? ==> w'.active == w.active)
              && (ref.Some? ==>
                    w'.active == w.active[ref.value := if ref.value in w.active && w.active[ref.value] > 0
                                                       then w.active[ref.value] - 1 else 0])
              && CountsFor(w, if Open(w, ref) then ref else None, p.sub, w')
              && w'.db.Keys == w.db.Keys && (forall s :: s in w.db && s != p.sub ==> w'.db[s] == w.db[s])
  {
    hide Advanced, Written, Dropped, Skips, Open, CountsFor;
    if p.sub in w.contexts {
      OpenMeans(w, w.contexts[p.sub].ref);
      WrittenElsewhere(w, p, env);
      DroppedMeans(w, p.sub);
      DroppedMeans(w.(db := Written(w, p, env)), p.sub);
      var dropped := Dropped(w.(db := Written(w, p, env)), p.sub);
      AdvancedMeans(dropped, w.contexts[p.sub].ref, p.sub);
      CountsAlike(w, dropped, w.contexts[p.sub].ref, p.sub, Persisted(w, p, env));
      CountsAlike(w, Dropped(w, p.sub), None, p.sub, Dropped(w, p.sub));
    }
  }

  /** And the row: nothing unless the run is open and the row there without a verdict; then the collected score
      and rows, or without them the terminal verdict, unless even that fails. */
  lemma PersistRowMeans(w: World, p: PersistMessage, env: PersistEnv)
    requires p.sub in w.contexts && p.sub in w.db
    ensures var before, after := w.db[p.sub], Persisted(w, p, env).db[p.sub];
            if !Open(w, w.contexts[p.sub].ref) || before.evaluated || env == CollectFails(true) then after == before
            else if env.CollectFails? then after == Submission(true, 0, before.rows)
            else && after.evaluated && after.score == env.score && before.rows <= after.rows
                 && RowsAre(after.rows[|before.rows|..], w.contexts[p.sub].entries, env, p.timedOut)
  {
    hide PersistRows, Fetched, RowsAre, ValidTokens, Dropped, Advanced, Open, Skips, CountsFor;
    OpenMeans(w, w.contexts[p.sub].ref);
    DroppedMeans(w, p.sub);
    DroppedMeans(w.(db := Written(w, p, env)), p.sub);
    AdvancedMeans(Dropped(w.(db := Written(w, p, env)), p.sub), w.contexts[p.sub].ref, p.sub);
    var before, entries := w.db[p.sub], w.contexts[p.sub].entries;
    if env.Collected? {
      PersistRowsMean(entries, env, p.timedOut);
      var rows := PersistRows(entries, env.testcases, Fetched(env.known, ValidTokens(entries)), p.timedOut, env.passes);
      assert (before.rows + rows)[|before.rows|..] == rows;
    }
  }

  // ----- from SUBMIT to PERSIST -----

  /** Everything EndToEnd says, of the context that SUBMIT registers: when the tokens that came back are those
      Judge0 issued for the testcases, each row PERSIST writes from that context is about one testcase and about
      the token issued for that testcase's payload, each testcase still there has one row, and in order. */
  lemma RegisteredEndToEnd<Payload>(
      w: World, m: SubmitMessage, env: SubmitEnv, limits: Limits, build: Testcase -> Payload,
      issued: seq<(Payload, Option<Token>)>, from: nat,
      present: seq<Testcase>, known: map<Token, Judge0Result>, timedOut: bool, passes: Strategy)
    requires ExitOf(w, m, env, limits) == Registered
    requires forall i, j :: 0 <= i < j < |env.load.testcases| ==> env.load.testcases[i].id != env.load.testcases[j].id
    requires |env.posted.value| == |env.load.testcases| && from + |env.load.testcases| <= |issued|
    requires forall i :: 0 <= i < |env.load.testcases| ==>
               issued[from + i] == (build(env.load.testcases[i]), env.posted.value[i])
    ensures m.sub in Submitted(w, m, env, limits).contexts
    ensures var testcases := env.load.testcases;
            var entries := Submitted(w, m, env, limits).contexts[m.sub].entries;
            var rows := PersistRows(entries, present, Fetched(known, ValidTokens(entries)), timedOut, passes);
            && |entries| == |testcases|
            && (forall j :: 0 <= j < |rows| ==>
                  Traced(rows[j], testcases, build, entries, issued, from, present, known, timedOut, passes))
            && (forall i :: 0 <= i < |testcases| && testcases[i].id in ById(present) ==>
                  exists j :: 0 <= j < |rows| && rows[j].testcase == testcases[i].id)
            && (forall j, k :: 0 <= j < k < |rows| ==> rows[j].testcase != rows[k].testcase)
            && (forall j, k, a, b :: 0 <= j < k < |rows| && 0 <= a < |testcases| && 0 <= b < |testcases|
                                     && testcases[a].id == rows[j].testcase && testcases[b].id == rows[k].testcase
                                     ==> a < b)
  {
    hide Submitted, ExitOf, PersistRows, Traced, ValidTokens, Fetched, ById, Posts;
    ExitMeans(w, m, env, limits);
    SubmitMeans(w, m, env, limits);
    var testcases, tokens := env.load.testcases, env.posted.value;
    var entries := Submitted(w, m, env, limits).contexts[m.sub].entries;
    assert entries == Entries(testcases, tokens);
    assert issued[from..from + |testcases|] == Zip(Payloads(testcases, build), tokens);
    EndToEnd(testcases, build, tokens, issued, from, present, known, timedOut, passes);
  }

  // ----- POLL -----

  /** Judge0 is asked for something: a scheduled submission has a context with a usable token. */
  ghost predicate Asks(w: World) {
    exists s, i :: s in w.pending && s in w.contexts && 0 <= i < |w.contexts[s].entries|
                   && w.contexts[s].entries[i].token.Some? && w.contexts[s].entries[i].token.value != ""
  }

  lemma AsksMeans(w: World)
    ensures AsksJudge0(w) <==> Asks(w)
  {
    hide ValidTokens;
    forall s | s in w.pending && s in w.contexts ensures
        ValidTokens(w.contexts[s].entries) != []
        <==> exists i :: 0 <= i < |w.contexts[s].entries| && w.contexts[s].entries[i].token.Some?
                         && w.contexts[s].entries[i].token.value != ""
    {
      var entries := w.contexts[s].entries;
      TokensAsked(entries);
      if ValidTokens(entries) != [] {
        assert ValidTokens(entries)[0] in ValidTokens(entries);
      }
      if i :| 0 <= i < |entries| && entries[i].token.Some? && entries[i].token.value != "" {
        assert entries[i].token == Some(entries[i].token.value);
        assert entries[i].token.value in ValidTokens(entries);
      }
    }
  }

  /** Some usable token, and every usable one reported with a final status. */
  ghost predicate AllReported(entries: seq<TokenEntry>, results: map<Token, Judge0Result>) {
    && (exists i :: 0 <= i < |entries| && entries[i].token.Some? && entries[i].token.value != "")
    && (forall i :: 0 <= i < |entries| && entries[i].token.Some? && entries[i].token.value != "" ==>
          entries[i].token.value in results && results[entries[i].token.value].statusId.Some?
          && 3 <= results[entries[i].token.value].statusId.value <= 14)
  }

  /** In this pass the submission is dispatched because Judge0 is done with it. */
  ghost predicate Early(w: World, env: PollEnv, s: SubmissionId) {
    && env.fetched.Some? && s in w.pending && s in w.contexts && s !in env.sendFails
    && AllReported(w.contexts[s].entries, env.fetched.value)
  }

  /** In this pass it is dispatched because its time is up. */
  ghost predicate Late(w: World, env: PollEnv, s: SubmissionId) {
    && (env.fetched.Some? || !Asks(w)) && s in w.pending && s in w.contexts && s !in env.sendFails
    && env.now > w.pending[s]
    && !(env.fetched.Some? && AllReported(w.contexts[s].entries, env.fetched.value))
  }

  lemma DispatchMeans(w: World, env: PollEnv, s: SubmissionId)
    ensures Dispatches(w, s, env) <==> Early(w, env, s) || Late(w, env, s)
    ensures Dispatches(w, s, env) ==> MessageFor(w, s, env) == PersistMessage(s, !Early(w, env, s))
  {
    hide AllDone, AsksJudge0, Asks;
    AsksMeans(w);
    if s in w.pending && s in w.contexts {
      DoneMeans(w.contexts[s].entries, ResultsOf(w, env));
      if env.fetched.Some? && AllReported(w.contexts[s].entries, env.fetched.value) {
        AskedFor(w, s);
      }
    }
  }

  lemma AskedFor(w: World, s: SubmissionId)
    requires s in w.pending && s in w.contexts
    ensures (exists i :: 0 <= i < |w.contexts[s].entries| && w.contexts[s].entries[i].token.Some?
                         && w.contexts[s].entries[i].token.value != "") ==> Asks(w)
  {
  }

  /** Whom a pass dispatches: early exactly those whose every usable token is reported with a final status,
      accepted or not; as timed out exactly those past their deadline of which that is not so; and the rest of
      the schedule stays, but for entries without a context. */
  lemma PollMeans(w: World, env: PollEnv, sent: seq<PersistMessage>, s: SubmissionId)
    requires PipelineService.Messages(w, w.pending.Keys, env, sent)
    ensures PersistMessage(s, false) in sent <==> Early(w, env, s)
    ensures PersistMessage(s, true) in sent <==> Late(w, env, s)
    ensures s in Polled(w, env).pending <==>
              s in w.pending && s in w.contexts && !Early(w, env, s) && !Late(w, env, s)
    ensures s in Polled(w, env).pending ==> Polled(w, env).pending[s] == w.pending[s]
  {
    hide Dispatches, Early, Late, MessageFor;
    DispatchMeans(w, env, s);
    OnlyListed(w, env, s);
    if Dispatches(w, s, env) {
      assert MessageFor(w, s, env) in sent;
    }
  }

  lemma OnlyListed(w: World, env: PollEnv, s: SubmissionId)
    ensures Early(w, env, s) || Late(w, env, s) ==> s in w.pending && s in w.contexts
    ensures !(Early(w, env, s) && Late(w, env, s))
  {
    hide AllReported, Asks;
  }

  // ----- what can happen when -----

  /** A queued message can be taken at any time, whatever its services answer, acknowledged or not; its worker
      can die wherever it gets to; staff can act at any time. */
  lemma CanHappen(sys: System, e: Event, limits: Limits)
    requires match e
             case Accept(s) => FreshSubmission(sys, s)
             case StartRun(ref, subs) => FreshRun(sys, ref) && Distinct(subs) && forall s :: s in subs ==> s in sys.w.db
             case Submit(at, _, _) => at < |sys.submits|
             case SubmitCrash(at, env, stage) =>
               && at < |sys.submits| && Starts(sys.w, sys.submits[at], env)
               && (stage != Prepared ==>
                     env.load.Loaded? && env.load.testcases != [] && sys.w.inflight < limits.maxInflight)
               && (stage == HoldsBoth ==> Posts(sys.w, sys.submits[at], env, limits))
             case Poll(_, order) => IsOrderOf(order, sys.w, e.env)
             case Persist(at, _, _) => at < |sys.persists|
             case PersistCrash(at, _, _) => at < |sys.persists| && sys.persists[at].sub in sys.w.contexts
             case Expire(s) => s in sys.w.contexts
             case _ => true
    ensures Enabled(sys, e, limits)
  {
    if e.SubmitCrash? && e.stage == HoldsBoth {
      ExitMeans(sys.w, sys.submits[e.at], e.senv.(posted := Transient), limits);
    }
  }

  /** A new submission is queued live. */
  lemma AcceptMeans(sys: System, s: SubmissionId, limits: Limits)
    requires Enabled(sys, Accept(s), limits)
    ensures Apply(sys, Accept(s), limits)
         == System(sys.w.(db := sys.w.db[s := Submission(false, 0, [])]),
                   sys.submits + [SubmitMessage(s, false, None, 0)], sys.persists)
  {
  }

  /** A new run queues one re-evaluation for each of its submissions, resets those that have a verdict, and
      becomes the contest's run with nothing counted. */
  lemma StartMeans(sys: System, ref: EvalRef, subs: seq<SubmissionId>, limits: Limits)
    requires Enabled(sys, StartRun(ref, subs), limits)
    ensures var sys' := Apply(sys, StartRun(ref, subs), limits);
            var (w, w') := (sys.w, sys'.w);
            && sys'.persists == sys.persists && |sys'.submits| == |sys.submits| + |subs| && sys.submits <= sys'.submits
            && (forall i :: 0 <= i < |subs| ==>
                  sys'.submits[|sys.submits| + i] == SubmitMessage(subs[i], true, Some(ref), 0))
            && w'.contexts == w.contexts && w'.pending == w.pending && w'.inflight == w.inflight
            && w'.records == w.records[ref.contest := Record(ref.run, |subs|)]
            && w'.processed == w.processed[ref := 0] && w'.active == w.active[ref := 0]
            && w'.counted == w.counted - {ref} && w'.db.Keys == w.db.Keys
            && (forall s :: s in w.db ==>
                  w'.db[s] == if s in subs && w.db[s].evaluated then Submission(false, 0, []) else w.db[s])
  {
    hide Enabled, AfterSubmit, Persisted, Polled, CutShort, Crashed, ExitOf;
  }

  /** What the stages' events do to the queues. */
  lemma QueuesMean(sys: System, e: Event, limits: Limits)
    requires Enabled(sys, e, limits)
    requires e.Submit? || e.Persist? || e.StrayPersist? || e.SubmitCrash? || e.PersistCrash?
    ensures var sys' := Apply(sys, e, limits);
            match e
            case Submit(at, env, acked) =>
              && sys'.persists == sys.persists && sys'.w == AfterSubmit(sys.w, sys.submits[at], env, limits)
              && sys'.submits == (if acked then sys.submits[..at] + sys.submits[at + 1..] else sys.submits)
                                 + Retries(ExitOf(sys.w, sys.submits[at], env, limits), sys.submits[at], limits)
            case Persist(at, env, acked) =>
              && sys'.submits == sys.submits && sys'.w == Persisted(sys.w, sys.persists[at], env)
              && sys'.persists == if acked then sys.persists[..at] + sys.persists[at + 1..] else sys.persists
            case StrayPersist(p) => sys' == System(sys.w, sys.submits, sys.persists + [p])
            case _ => sys'.submits == sys.submits && sys'.persists == sys.persists
  {
    hide AfterSubmit, Persisted, ExitOf, Crashed, CutShort, MayCrash, Retries;
  }

  /** A pass queues one message for each submission it dispatches, behind what is queued. */
  lemma PassMeans(sys: System, env: PollEnv, order: seq<SubmissionId>, limits: Limits)
    requires Enabled(sys, Poll(env, order), limits)
    ensures var sys' := Apply(sys, Poll(env, order), limits);
            && sys'.submits == sys.submits && sys.persists <= sys'.persists && sys'.w == Polled(sys.w, env)
            && |sys'.persists| == |sys.persists| + |order|
            && (forall i :: 0 <= i < |order| ==>
                  sys'.persists[|sys.persists| + i] == PersistMessage(order[i], !Early(sys.w, env, order[i])))
  {
    hide Dispatches, Early, Polled, MessageFor, Enabled;
    OrderIsOf(sys, env, order, limits);
    forall i | 0 <= i < |order|
      ensures PersistMessages(order, sys.w, env)[i] == PersistMessage(order[i], !Early(sys.w, env, order[i]))
    {
      assert order[i] in order;
      DispatchMeans(sys.w, env, order[i]);
    }
  }

  lemma OrderIsOf(sys: System, env: PollEnv, order: seq<SubmissionId>, limits: Limits)
    requires Enabled(sys, Poll(env, order), limits)
    ensures IsOrderOf(order, sys.w, env)
  {
    hide IsOrderOf;
  }

  /** What happens outside the stages: a context expires, a row goes, rows of testcases go, a score is set. */
  lemma OutsideMeans(sys: System, e: Event, limits: Limits)
    requires Enabled(sys, e, limits) && (e.Expire? || e.Delete? || e.ReplaceTestcases? || e.OverrideScore?)
    ensures var sys' := Apply(sys, e, limits);
            var db := sys.w.db;
            && sys' == sys.(w := sys.w.(db := sys'.w.db, contexts := sys'.w.contexts))
            && sys'.w.contexts == (if e.Expire? then sys.w.contexts - {e.s} else sys.w.contexts)
            && sys'.w.db.Keys == (if e.Delete? then db.Keys - {e.s} else db.Keys)
            && (forall s :: s in sys'.w.db ==>
                  sys'.w.db[s] == Submission(
                    db[s].evaluated, if e.OverrideScore? && s == e.s then e.score else db[s].score,
                    if e.ReplaceTestcases? && s in e.affected then [] else db[s].rows))
  {
  }

  /** A pass can take place at any time, whatever Judge0 answers and whichever messages cannot be sent. */
  lemma PassCanHappen(sys: System, env: PollEnv, limits: Limits)
    ensures exists order :: Enabled(sys, Poll(env, order), limits)
  {
    hide Dispatches;
    var order := Listing(sys.w.pending.Keys, sys.w, env);
    assert IsOrderOf(order, sys.w, env) by {
      forall s | Dispatches(sys.w, s, env) ensures s in sys.w.pending {
        DispatchedIsScheduled(sys.w, s, env);
      }
    }
    assert Enabled(sys, Poll(env, order), limits);
  }

  lemma DispatchedIsScheduled(w: World, s: SubmissionId, env: PollEnv)
    requires Dispatches(w, s, env)
    ensures s in w.pending
  {
  }

  /** Those of some submissions that the pass dispatches, each once. */
  lemma {:induction false} Listing(all: set<SubmissionId>, w: World, env: PollEnv) returns (order: seq<SubmissionId>)
    ensures Distinct(order) && forall s :: s in order <==> s in all && Dispatches(w, s, env)
    decreases all
  {
    hide Dispatches;
    order := [];
    if all != {} {
      var s :| s in all;
      var rest := Listing(all - {s}, w, env);
      order := rest + if Dispatches(w, s, env) then [s] else [];
    }
  }
}
