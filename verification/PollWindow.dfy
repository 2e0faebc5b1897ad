/** The poller's two commands for a finished submission, one at a time: it sends the PERSIST message and
    then removes the schedule entry, and other workers may get in between. */
module PollWindow {

  /** What Redis and the broker hold for one submission. */
  datatype Spot = Spot(scheduled: bool, context: bool, messages: nat)

  /** What can get in between: a PERSIST is delivered and clears the context, or a SUBMIT registers, which it
      does not while the submission is still scheduled. */
  datatype Step = Persisted | Registered

  /** A delivery is acknowledged; clear_pending removes context and entry. */
  function Apply(spot: Spot, step: Step): Spot {
    match step
    case Persisted => if spot.messages == 0 then spot else Spot(false, false, spot.messages - 1)
    case Registered => if spot.scheduled then spot else Spot(true, true, spot.messages)
  }

  function After(spot: Spot, steps: seq<Step>): Spot {
    if steps == [] then spot else Apply(After(spot, steps[..|steps| - 1]), steps[|steps| - 1])
  }

  /** _dispatch_persist */
  function Sent(spot: Spot): Spot { spot.(messages := spot.messages + 1) }

  /** remove_from_pending_set */
  function Removed(spot: Spot): Spot { spot.(scheduled := false) }

  /** Registered, off the schedule, and with no message left: nothing will collect the submission. */
  predicate Abandoned(spot: Spot) {
    spot.context && !spot.scheduled && spot.messages == 0
  }

  function Deliveries(steps: seq<Step>): nat {
    if steps == [] then 0
    else Deliveries(steps[..|steps| - 1]) + if steps[|steps| - 1] == Persisted then 1 else 0
  }

  lemma {:induction false} AfterFacts(spot: Spot, steps: seq<Step>)
    requires spot.scheduled ==> spot.context
    ensures After(spot, steps).scheduled ==> After(spot, steps).context
    ensures After(spot, steps).messages
         == if Deliveries(steps) <= spot.messages then spot.messages - Deliveries(steps) else 0
    ensures After(spot, steps).messages == 0 && spot.messages > 0 ==>
              (After(spot, steps).context <==> Late(spot.messages, steps))
  {
    if steps != [] {
      AfterFacts(spot, steps[..|steps| - 1]);
    }
  }

  /** After the n-th delivery of a PERSIST the submission registers again. */
  predicate Late(n: nat, steps: seq<Step>) {
    && steps != []
    && ((steps[|steps| - 1] == Registered && Deliveries(steps) >= n)
        || (Deliveries(steps[..|steps| - 1]) >= n && Late(n, steps[..|steps| - 1])))
  }

  /** The window loses a registration exactly when every PERSIST message of the submission, the one just sent
      included, is delivered inside it and the submission registers again after the last of them. */
  lemma AbandonedIff(spot: Spot, between: seq<Step>)
    requires spot.scheduled && spot.context
    ensures Abandoned(Removed(After(Sent(spot), between))) <==> Late(spot.messages + 1, between)
  {
    AfterFacts(Sent(spot), between);
    LateDelivers(spot.messages + 1, between);
  }

  lemma {:induction false} LateDelivers(n: nat, steps: seq<Step>)
    ensures Late(n, steps) ==> Deliveries(steps) >= n
  {
    if steps != [] {
      LateDelivers(n, steps[..|steps| - 1]);
    }
  }

  /** After a registration the submission is scheduled and has its context, as before it if it was scheduled;
      after a delivery it has neither. */
  lemma StepLeaves(spot: Spot)
    requires spot.scheduled ==> spot.context
    ensures Apply(spot, Registered) == Spot(true, true, spot.messages)
    ensures spot.messages > 0 ==> Apply(spot, Persisted) == Spot(false, false, spot.messages - 1)
    ensures spot.messages == 0 ==> Apply(spot, Persisted) == spot
  {
  }

  /** The shortest such window. */
  lemma OneDeliveryAndOneSubmit()
    ensures Abandoned(Removed(After(Sent(Spot(true, true, 0)), [Persisted, Registered])))
  {
    var steps := [Persisted, Registered];
    assert steps[..1] == [Persisted] && [Persisted][..0] == [];
    assert After(Sent(Spot(true, true, 0)), [Persisted]) == Spot(false, false, 0);
  }
}
