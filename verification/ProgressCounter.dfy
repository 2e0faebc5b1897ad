/** Progress counting at the grain of single Redis commands: check the record, SADD, INCR. */
module ProgressCounter {
  import opened Collections
  import opened PipelineState

  /** How far a worker is in update_evaluation_progress. A worker that dies after its SADD stays
      Dead: nobody will issue its INCR. */
  datatype Phase =
    | Checked(ref: EvalRef, sub: SubmissionId)
    | Added(ref: EvalRef, sub: SubmissionId)
    | Dead(ref: EvalRef, sub: SubmissionId)

  datatype Store = Store(
    records: map<ContestId, Record>,
    processed: map<EvalRef, int>,
    counted: map<EvalRef, set<SubmissionId>>,
    phases: map<Worker, Phase>)

  datatype Step =
    | Check(w: Worker, ref: EvalRef, sub: SubmissionId)
    | SAdd(w: Worker)
    | Incr(w: Worker)
    | Die(w: Worker)
    | Create(ref: EvalRef, total: nat)

  function ProcessedOf(st: Store, ref: EvalRef): int { GetOr(st.processed, ref, 0) }

  function CountedOf(st: Store, ref: EvalRef): set<SubmissionId> { GetOr(st.counted, ref, {}) }

  predicate Current(st: Store, ref: EvalRef) {
    Names(st.records, ref)
  }

  /** A run id nothing has mentioned. */
  ghost predicate Fresh(st: Store, ref: EvalRef) {
    && !Current(st, ref) && ref !in st.processed && ref !in st.counted
    && forall w :: w in st.phases ==> st.phases[w].ref != ref
  }

  ghost predicate Enabled(st: Store, step: Step) {
    match step
    case Check(w, _, _) => w !in st.phases
    case SAdd(w) => w in st.phases && st.phases[w].Checked?
    case Incr(w) => w in st.phases && st.phases[w].Added?
    case Die(w) => w in st.phases && !st.phases[w].Dead?
    case Create(ref, _) => Fresh(st, ref)
  }

  ghost function Apply(st: Store, step: Step): Store
    requires Enabled(st, step)
  {
    match step
    case Check(w, ref, sub) => if Current(st, ref) then st.(phases := st.phases[w := Checked(ref, sub)]) else st
    case SAdd(w) =>
      var ref, sub := st.phases[w].ref, st.phases[w].sub;
      if sub in CountedOf(st, ref) then st.(phases := st.phases - {w})
      else st.(counted := st.counted[ref := CountedOf(st, ref) + {sub}], phases := st.phases[w := Added(ref, sub)])
    case Incr(w) =>
      var ref := st.phases[w].ref;
      st.(processed := st.processed[ref := ProcessedOf(st, ref) + 1], phases := st.phases - {w})
    case Die(w) =>
      var phase := st.phases[w];
      st.(phases := if phase.Added? then st.phases[w := Dead(phase.ref, phase.sub)] else st.phases - {w})
    case Create(ref, total) =>
      st.(records := st.records[ref.contest := Record(ref.run, total)],
          processed := st.processed[ref := 0], counted := st.counted - {ref})
  }

  ghost predicate Runnable(st: Store, steps: seq<Step>)
    decreases |steps|
  {
    steps == [] || (Enabled(st, steps[0]) && Runnable(Apply(st, steps[0]), steps[1..]))
  }

  ghost function After(st: Store, steps: seq<Step>): Store
    requires Runnable(st, steps)
    decreases |steps|
  {
    if steps == [] then st else After(Apply(st, steps[0]), steps[1..])
  }

  /** Workers of a run between their SADD and their INCR, and those that died there. */
  ghost function Between(st: Store, ref: EvalRef): set<Worker> {
    set w | w in st.phases && st.phases[w].Added? && st.phases[w].ref == ref
  }

  ghost function Lost(st: Store, ref: EvalRef): set<Worker> {
    set w | w in st.phases && st.phases[w].Dead? && st.phases[w].ref == ref
  }

  /** processed = |counted| - workers between SADD and INCR, dead ones included. */
  ghost predicate InStep(st: Store, ref: EvalRef) {
    ProcessedOf(st, ref) + |Between(st, ref)| + |Lost(st, ref)| == |CountedOf(st, ref)|
  }

  /** Only submissions of S are reported for the run. */
  ghost predicate Within(st: Store, ref: EvalRef, S: set<SubmissionId>) {
    CountedOf(st, ref) <= S && forall w :: w in st.phases && st.phases[w].ref == ref ==> st.phases[w].sub in S
  }

  /** While the run is current its record holds the size of S. */
  ghost predicate Sized(st: Store, ref: EvalRef, S: set<SubmissionId>) {
    Current(st, ref) ==> st.records[ref.contest].total == |S|
  }

  /** The step fits a run over S: it reports one of S, or creates the run with the size of S. */
  predicate Fits(step: Step, ref: EvalRef, S: set<SubmissionId>) {
    (step.Check? && step.ref == ref ==> step.sub in S) && (step.Create? && step.ref == ref ==> step.total == |S|)
  }

  function StatusIn(st: Store, ref: EvalRef): RunStatus
    requires Current(st, ref)
  {
    StatusFrom(st.records, ProcessedOf(st, ref), ref)
  }

  /** When only one worker's phase changes, each group grows or shrinks by that worker at most. */
  lemma PhaseSizes(st: Store, st': Store, w: Worker, ref: EvalRef)
    requires forall x :: x != w ==> (x in st.phases <==> x in st'.phases)
    requires forall x :: x != w && x in st.phases ==> st'.phases[x] == st.phases[x]
    ensures |Between(st', ref)| == |Between(st, ref)|
              + (if w in Between(st', ref) then 1 else 0) - (if w in Between(st, ref) then 1 else 0)
    ensures |Lost(st', ref)| == |Lost(st, ref)|
              + (if w in Lost(st', ref) then 1 else 0) - (if w in Lost(st, ref) then 1 else 0)
  {
    ReplacedSize(Between(st, ref), w, w in Between(st', ref), Between(st', ref));
    ReplacedSize(Lost(st, ref), w, w in Lost(st', ref), Lost(st', ref));
  }

  lemma WorkerInStep(st: Store, step: Step, ref: EvalRef)
    requires InStep(st, ref) && Enabled(st, step) && (step.SAdd? || step.Incr? || step.Die?)
    ensures InStep(Apply(st, step), ref)
  {
    PhaseSizes(st, Apply(st, step), step.w, ref);
  }

  lemma StepInStep(st: Store, step: Step, ref: EvalRef)
    requires InStep(st, ref) && Enabled(st, step)
    ensures InStep(Apply(st, step), ref)
  {
    match step {
      case SAdd(_) => WorkerInStep(st, step, ref);
      case Incr(_) => WorkerInStep(st, step, ref);
      case Die(_) => WorkerInStep(st, step, ref);
      case Check(w, _, _) => PhaseSizes(st, Apply(st, step), w, ref);
      case Create(r, _) =>
        assert Between(Apply(st, step), ref) == Between(st, ref) && Lost(Apply(st, step), ref) == Lost(st, ref);
        if r == ref {
          assert Between(st, ref) == {} && Lost(st, ref) == {};
        }
    }
  }

  /** One report, left alone: for a run that is not the contest's current one nothing happens; otherwise a
      submission not counted yet goes into the set and adds one to the counter, and one that is counted leaves
      everything as it was. */
  lemma ReportCounts(st: Store, w: Worker, ref: EvalRef, sub: SubmissionId)
    requires w !in st.phases
    ensures var checked := Apply(st, Check(w, ref, sub));
            if ref.contest !in st.records || st.records[ref.contest].run != ref.run then checked == st
            else
              && Enabled(checked, SAdd(w))
              && var added := Apply(checked, SAdd(w));
                 if ref in st.counted && sub in st.counted[ref] then added == st
                 else
                   && Enabled(added, Incr(w))
                   && Apply(added, Incr(w))
                      == st.(counted := st.counted[ref := (if ref in st.counted then st.counted[ref] else {}) + {sub}],
                             processed := st.processed[ref := 1 + if ref in st.processed then st.processed[ref] else 0])
  {
    assert st.phases[w := Checked(ref, sub)] - {w} == st.phases;
    assert st.phases[w := Checked(ref, sub)][w := Added(ref, sub)] - {w} == st.phases;
  }

  /** A worker can die wherever it is, and leaves the counters alone; only between its SADD and its INCR does
      that leave a trace. A worker that is nowhere can report anything, and a fresh run can start. */
  lemma CanStep(st: Store, step: Step)
    requires match step
             case Check(w, _, _) => w !in st.phases
             case Create(ref, _) => Fresh(st, ref)
             case Incr(w) => w in st.phases && st.phases[w].Added?
             case SAdd(w) => w in st.phases && st.phases[w].Checked?
             case Die(w) => w in st.phases && !st.phases[w].Dead?
    ensures Enabled(st, step)
    ensures step.Die? ==>
              Apply(st, step) == Store(st.records, st.processed, st.counted,
                                       if st.phases[step.w].Added?
                                       then st.phases[step.w := Dead(st.phases[step.w].ref, st.phases[step.w].sub)]
                                       else st.phases - {step.w})
    ensures step.Create? ==>
              var (st', run) := (Apply(st, step), step.ref);
              && st'.records == st.records[run.contest := Record(run.run, step.total)] && st'.phases == st.phases
              && ProcessedOf(st', run) == 0 && CountedOf(st', run) == {}
  {
  }

  /** A step moves the counters of a run only if it is a step of that run: late steps of a
      superseded run leave the new one alone, and no counter goes back. */
  lemma StepTouches(st: Store, step: Step, ref: EvalRef)
    requires Enabled(st, step)
    ensures var st' := Apply(st, step);
            && (ProcessedOf(st', ref) != ProcessedOf(st, ref) ==> step.Incr? && st.phases[step.w].ref == ref)
            && (CountedOf(st', ref) != CountedOf(st, ref) ==> step.SAdd? && st.phases[step.w].ref == ref)
            && ProcessedOf(st, ref) <= ProcessedOf(st', ref) <= ProcessedOf(st, ref) + 1
            && CountedOf(st, ref) <= CountedOf(st', ref)
  {
  }

  lemma StepWithin(st: Store, step: Step, ref: EvalRef, S: set<SubmissionId>)
    requires Within(st, ref, S) && Sized(st, ref, S) && Enabled(st, step) && Fits(step, ref, S)
    ensures Within(Apply(st, step), ref, S) && Sized(Apply(st, step), ref, S)
  {
  }

  function StatusRank(status: RunStatus): nat {
    match status
    case Pending => 0
    case Running => 1
    case Completed => 2
  }

  /** Under every interleaving, with retries, duplicates and deaths: processed never exceeds the
      counted set, which stays inside the run; the counters only grow; and the status derived from the
      run's record, wherever the run is current, only moves from PENDING over RUNNING to COMPLETED. */
  lemma {:induction false} ProgressSafe(st: Store, steps: seq<Step>, ref: EvalRef, S: set<SubmissionId>)
    requires InStep(st, ref) && Within(st, ref, S) && Sized(st, ref, S) && Runnable(st, steps)
    requires forall i :: 0 <= i < |steps| ==> Fits(steps[i], ref, S)
    ensures var st' := After(st, steps);
            && InStep(st', ref) && Within(st', ref, S) && Sized(st', ref, S)
            && ProcessedOf(st', ref) <= |CountedOf(st', ref)| <= |S|
            && ProcessedOf(st, ref) <= ProcessedOf(st', ref) && CountedOf(st, ref) <= CountedOf(st', ref)
            && (Current(st, ref) && Current(st', ref) ==>
                  StatusRank(StatusIn(st, ref)) <= StatusRank(StatusIn(st', ref)))
    decreases |steps|
  {
    hide InStep, Enabled, Apply, Current;
    if steps == [] {
      SubsetSize(CountedOf(st, ref), S);
      NotAhead(st, ref);
    } else {
      StepInStep(st, steps[0], ref);
      StepWithin(st, steps[0], ref, S);
      StepTouches(st, steps[0], ref);
      ProgressSafe(Apply(st, steps[0]), steps[1..], ref, S);
    }
  }

  lemma NotAhead(st: Store, ref: EvalRef)
    requires InStep(st, ref)
    ensures ProcessedOf(st, ref) <= |CountedOf(st, ref)|
  {
  }

  /** When every submission has been counted and nobody is under way, the run reads COMPLETED
      exactly when no worker died between its SADD and its INCR. */
  lemma QuietCompletedIff(st: Store, ref: EvalRef, S: set<SubmissionId>)
    requires InStep(st, ref) && CountedOf(st, ref) == S && S != {} && Between(st, ref) == {}
    requires Current(st, ref) && Sized(st, ref, S)
    ensures StatusIn(st, ref) == Completed <==> Lost(st, ref) == {}
  {
  }
}
