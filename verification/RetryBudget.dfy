/** submit_evaluation's two independent retry loops: unbounded for backpressure, bounded and with
    exponential backoff for transient Judge0 failures. */
module RetryBudget {
  import opened Collections
  import opened PipelineState
  import opened PipelineRuns

  datatype Outcome = Done | Blocked | Transient

  datatype Action = Finish | GiveUp | Retry(countdown: nat, count: nat)

  datatype Policy = Policy(maxRetries: nat, backoffCap: nat, backpressureWait: nat)

  function Pow2(k: nat): nat {
    if k == 0 then 1 else 2 * Pow2(k - 1)
  }

  function Backoff(k: nat, policy: Policy): nat {
    if 5 * Pow2(k) < policy.backoffCap then 5 * Pow2(k) else policy.backoffCap
  }

  /** Five seconds first, then twice the last wait, and never more than the cap. */
  lemma BackoffDoubles(k: nat, policy: Policy)
    ensures Backoff(0, policy) == if policy.backoffCap < 5 then policy.backoffCap else 5
    ensures Backoff(k + 1, policy) == if policy.backoffCap < 2 * Backoff(k, policy) then policy.backoffCap
                                      else 2 * Backoff(k, policy)
  {
  }

  /** The waits before retries 1 .. n. */
  function Backoffs(n: nat, policy: Policy): nat {
    if n == 0 then 0 else Backoffs(n - 1, policy) + Backoff(n - 1, policy)
  }

  /** The action a delivery must come to. */
  function ActionOf(count: nat, outcome: Outcome, policy: Policy): Action {
    match outcome
    case Done => Finish
    case Blocked => Retry(policy.backpressureWait, count)
    case Transient => if count >= policy.maxRetries then GiveUp else Retry(Backoff(count, policy), count + 1)
  }

  /** One delivery of the SUBMIT message, whose stage comes to the given outcome: it gives up exactly on a
      transient failure with the budget spent; otherwise a transient failure uses up one retry, waits the
      doubled five seconds or the cap, whichever is less, and backpressure costs nothing of the budget. */
  method SubmitEvaluation(count: nat, outcome: Outcome, policy: Policy) returns (action: Action)
    ensures action.GiveUp? <==> outcome == Transient && policy.maxRetries <= count
    ensures action.Finish? <==> outcome == Done
    ensures action.Retry? && outcome == Blocked ==> action.count == count && action.countdown == policy.backpressureWait
    ensures action.Retry? && outcome == Transient ==>
              && action.count == count + 1 <= policy.maxRetries
              && action.countdown <= policy.backoffCap && action.countdown <= 5 * Pow2(count)
              && action.countdown in {policy.backoffCap, 5 * Pow2(count)}
    ensures action == ActionOf(count, outcome, policy)
  {
    match outcome {
      case Done =>
        return Finish;
      case Blocked =>
        return Retry(policy.backpressureWait, count);
      case Transient =>
        if count >= policy.maxRetries {
          return GiveUp;
        }
        var countdown := 5 * Pow2(count);
        if policy.backoffCap < countdown {
          countdown := policy.backoffCap;
        }
        return Retry(countdown, count + 1);
    }
  }

  /** What has happened to one SUBMIT message: its counter, the transient failures it met, the
      seconds waited after them, and whether it ended in the give-up verdict or otherwise. */
  datatype History = History(count: nat, failures: nat, waited: nat, gaveUp: bool, finished: bool)

  /** The deliveries of one message, in any interleaving of outcomes; nothing follows the end. */
  function Play(outcomes: seq<Outcome>, policy: Policy): History {
    if outcomes == [] then History(0, 0, 0, false, false)
    else
      var h := Play(outcomes[..|outcomes| - 1], policy);
      var outcome := outcomes[|outcomes| - 1];
      if h.gaveUp || h.finished then h
      else
        match ActionOf(h.count, outcome, policy)
        case Finish => h.(finished := true)
        case GiveUp => h.(failures := h.failures + 1, gaveUp := true)
        case Retry(countdown, count) =>
          if outcome == Transient then h.(count := count, failures := h.failures + 1, waited := h.waited + countdown)
          else h.(count := count)
  }

  lemma {:induction false} BackoffsBounded(n: nat, policy: Policy)
    ensures Backoffs(n, policy) <= n * policy.backoffCap
  {
    if n > 0 {
      BackoffsBounded(n - 1, policy);
      assert n * policy.backoffCap == (n - 1) * policy.backoffCap + policy.backoffCap;
    }
  }

  lemma Within(n: nat, m: nat, c: nat)
    requires n <= m
    ensures n * c <= m * c
  {
  }

  /** However backpressure and failures alternate: the counter is the number of failures retried
      and never above the budget, at most one failure more is met, exactly that one gives up, and
      the time waited is the sum of the backoffs used, at most the budget times the cap. */
  lemma {:induction false} BudgetKept(outcomes: seq<Outcome>, policy: Policy)
    ensures var h := Play(outcomes, policy);
            && h.count <= policy.maxRetries && h.failures <= policy.maxRetries + 1
            && h.failures == h.count + (if h.gaveUp then 1 else 0)
            && (h.gaveUp <==> h.failures == policy.maxRetries + 1)
            && h.waited == Backoffs(h.count, policy) <= policy.maxRetries * policy.backoffCap
  {
    if outcomes != [] {
      BudgetKept(outcomes[..|outcomes| - 1], policy);
    }
    var h := Play(outcomes, policy);
    BackoffsBounded(h.count, policy);
    Within(h.count, policy.maxRetries, policy.backoffCap);
  }

  /** The counter never goes down, and backpressure does not touch it. A message that has ended stays as it is;
      any other meets each failure, and ends by finishing or by the failure after the last retry. */
  lemma CountGrows(outcomes: seq<Outcome>, outcome: Outcome, policy: Policy)
    ensures var h := Play(outcomes, policy);
            var h' := Play(outcomes + [outcome], policy);
            && h.count <= h'.count <= h.count + 1 && (outcome == Blocked ==> h' == h)
            && (h.gaveUp || h.finished ==> h' == h)
            && (!h.gaveUp && !h.finished ==>
                  && (h'.finished <==> outcome == Done)
                  && (h'.gaveUp <==> outcome == Transient && h.count >= policy.maxRetries)
                  && h'.failures == h.failures + if outcome == Transient then 1 else 0)
  {
    assert (outcomes + [outcome])[..|outcomes|] == outcomes;
  }

  /** With the configured defaults the waits add up to 315 seconds at most, and to 315 when it gives up. */
  lemma DefaultWait(outcomes: seq<Outcome>)
    ensures Play(outcomes, Policy(8, 60, 5)).waited <= 315
    ensures Play(outcomes, Policy(8, 60, 5)).gaveUp ==> Play(outcomes, Policy(8, 60, 5)).waited == 315
  {
    var policy := Policy(8, 60, 5);
    BudgetKept(outcomes, policy);
    assert Backoff(0, policy) == 5 && Backoff(1, policy) == 10 && Backoff(2, policy) == 20;
    assert Pow2(3) == 8 && Pow2(4) == 16 && Pow2(5) == 32 && Pow2(6) == 64 && Pow2(7) == 128;
    assert Backoffs(3, policy) == 35;
    assert Backoffs(5, policy) == 135;
    assert Backoffs(8, policy) == 315;
    BackoffsGrow(Play(outcomes, policy).count, 8, policy);
  }

  lemma {:induction false} BackoffsGrow(n: nat, m: nat, policy: Policy)
    requires n <= m
    ensures Backoffs(n, policy) <= Backoffs(m, policy)
    decreases m
  {
    if n < m {
      BackoffsGrow(n, m - 1, policy);
    }
  }

  /** The runs of the pipeline requeue exactly as submit_evaluation does. */
  lemma RunsUseThisPolicy(exit: SubmitExit, m: SubmitMessage, limits: Limits, policy: Policy)
    requires policy.maxRetries == limits.maxRetries
    ensures var outcome := if exit == Backpressure then Blocked
                           else if exit == TransientFailure then Transient else Done;
            match ActionOf(m.retries, outcome, policy)
            case Retry(_, count) => PipelineRuns.Retries(exit, m, limits) == [m.(retries := count)]
            case _ => PipelineRuns.Retries(exit, m, limits) == []
  {
  }
}
