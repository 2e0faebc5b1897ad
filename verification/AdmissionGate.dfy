/** One backpressure gate at the grain of single Redis commands, for any number of workers. */
module AdmissionGate {
  import opened Collections

  /** Between INCRBY and the comparison a worker knows the value INCRBY returned; between a DECRBY
      that went below zero and the SET to zero it is clamping. */
  datatype Phase = Trying(newVal: int) | Holding | Clamping

  datatype Gate = Gate(counter: int, phases: map<Worker, Phase>)

  datatype Step =
    | Incr(w: Worker)
    | Decide(w: Worker)
    | Release(w: Worker)
    | Clamp(w: Worker)
    | SurplusRelease(w: Worker)

  predicate Enabled(g: Gate, step: Step) {
    match step
    case Incr(w) => w !in g.phases
    case Decide(w) => w in g.phases && g.phases[w].Trying?
    case Release(w) => w in g.phases && g.phases[w].Holding?
    case Clamp(w) => w in g.phases && g.phases[w].Clamping?
    case SurplusRelease(w) => w !in g.phases
  }

  /** DECRBY by a worker that then either goes on to clamp or is done. */
  function Decrement(g: Gate, w: Worker): Gate {
    Gate(g.counter - 1, if g.counter - 1 < 0 then g.phases[w := Clamping] else g.phases - {w})
  }

  function Apply(g: Gate, step: Step, cap: int): Gate
    requires Enabled(g, step)
  {
    match step
    case Incr(w) => Gate(g.counter + 1, g.phases[w := Trying(g.counter + 1)])
    case Decide(w) =>
      if g.phases[w].newVal > cap then Gate(g.counter - 1, g.phases - {w}) else g.(phases := g.phases[w := Holding])
    case Release(w) => Decrement(g, w)
    case Clamp(w) => Gate(0, g.phases - {w})
    case SurplusRelease(w) => Decrement(g, w)
  }

  /** A worker that is nowhere can try or release what it does not hold, one that knows its value can decide, a
      holder can release, and one below zero can clamp, each at any time. */
  lemma CanStep(g: Gate, step: Step)
    requires match step
             case Incr(w) => w !in g.phases
             case SurplusRelease(w) => w !in g.phases
             case Decide(w) => w in g.phases && g.phases[w].Trying?
             case Release(w) => w in g.phases && g.phases[w].Holding?
             case Clamp(w) => w in g.phases && g.phases[w].Clamping?
    ensures Enabled(g, step)
  {
  }

  predicate Runnable(g: Gate, steps: seq<Step>, cap: int)
    decreases |steps|
  {
    steps == [] || (Enabled(g, steps[0]) && Runnable(Apply(g, steps[0], cap), steps[1..], cap))
  }

  function After(g: Gate, steps: seq<Step>, cap: int): Gate
    requires Runnable(g, steps, cap)
    decreases |steps|
  {
    if steps == [] then g else After(Apply(g, steps[0], cap), steps[1..], cap)
  }

  function Holders(g: Gate): set<Worker> { set w | w in g.phases && g.phases[w].Holding? }

  function Attempts(g: Gate): set<Worker> { set w | w in g.phases && g.phases[w].Trying? }

  /** Holders, and workers whose INCRBY already decided that they will be. */
  function Admitted(g: Gate, cap: int): set<Worker> {
    set w | w in g.phases && (g.phases[w].Holding? || (g.phases[w].Trying? && g.phases[w].newVal <= cap))
  }

  /** The counter counts the workers inside, nobody clamps, and the admitted fit the cap. */
  ghost predicate Sound(g: Gate, cap: int) {
    && g.counter == |g.phases|
    && (forall w :: w in g.phases ==> !g.phases[w].Clamping?)
    && |Admitted(g, cap)| <= cap
  }

  lemma StepSound(g: Gate, step: Step, cap: nat)
    requires Sound(g, cap) && Enabled(g, step) && !step.SurplusRelease?
    ensures Sound(Apply(g, step, cap), cap)
  {
    var g' := Apply(g, step, cap);
    match step {
      case Incr(w) =>
        assert g'.phases.Keys == g.phases.Keys + {w};
        SubsetSize(Admitted(g', cap), g'.phases.Keys);
        if g.counter + 1 > cap {
          assert Admitted(g', cap) == Admitted(g, cap);
        }
      case Decide(w) =>
        if g.phases[w].newVal > cap {
          assert g'.phases.Keys == g.phases.Keys - {w};
          assert Admitted(g', cap) == Admitted(g, cap);
        } else {
          assert g'.phases.Keys == g.phases.Keys;
          assert Admitted(g', cap) == Admitted(g, cap);
        }
      case Release(w) =>
        assert w in g.phases.Keys && |g.phases.Keys - {w}| == |g.phases.Keys| - 1;
        assert g'.phases.Keys == g.phases.Keys - {w};
        SubsetSize(Admitted(g', cap), Admitted(g, cap));
    }
  }

  /** Under every interleaving in which each holder releases once: the counter is the holders plus
      the attempts under way, it is never clamped, and there are never more holders than the cap,
      although the counter itself may overshoot it by the attempts. */
  lemma {:induction false} GateSafe(g: Gate, steps: seq<Step>, cap: nat)
    requires Sound(g, cap) && Runnable(g, steps, cap)
    requires forall i :: 0 <= i < |steps| ==> !steps[i].SurplusRelease?
    ensures var g' := After(g, steps, cap);
            && Sound(g', cap)
            && g'.counter == |Holders(g')| + |Attempts(g')|
            && |Holders(g')| <= cap
            && g'.counter <= cap + |Attempts(g')|
    decreases |steps|
  {
    if steps == [] {
      assert g.phases.Keys == Holders(g) + Attempts(g);
      SubsetSize(Holders(g), Admitted(g, cap));
    } else {
      StepSound(g, steps[0], cap);
      GateSafe(Apply(g, steps[0], cap), steps[1..], cap);
    }
  }

  // ----- releases too many -----

  /** Workers the counter ought to count. */
  function Inside(g: Gate): set<Worker> { set w | w in g.phases && !g.phases[w].Clamping? }

  /** What one command takes off the counter beyond the workers that leave: a surplus release takes one,
      and the SET of a clamp takes whatever the counter holds by then, or gives back what is missing. */
  function DeficitOf(g: Gate, step: Step): int {
    match step
    case SurplusRelease(_) => 1
    case Clamp(_) => g.counter
    case _ => 0
  }

  function Deficit(g: Gate, steps: seq<Step>, cap: int): int
    requires Runnable(g, steps, cap)
    decreases |steps|
  {
    if steps == [] then 0 else DeficitOf(g, steps[0]) + Deficit(Apply(g, steps[0], cap), steps[1..], cap)
  }

  /** The workers inside are the counter and d more, and the admitted fit the cap and d more. */
  ghost predicate Balanced(g: Gate, cap: int, d: int) {
    |Inside(g)| == g.counter + d && |Admitted(g, cap)| <= cap + d
  }

  lemma StepSets(g: Gate, step: Step, cap: nat)
    requires Enabled(g, step)
    ensures var g' := Apply(g, step, cap);
            && Admitted(g', cap) <= Inside(g')
            && (step.Incr? ==> Inside(g') == Inside(g) + {step.w} && step.w !in Inside(g))
            && (step.Incr? && g.counter + 1 > cap ==> Admitted(g', cap) == Admitted(g, cap))
            && (step.Decide? ==> Admitted(g', cap) == Admitted(g, cap) && step.w in Inside(g))
            && (step.Decide? ==>
                  Inside(g') == if g.phases[step.w].newVal > cap then Inside(g) - {step.w} else Inside(g))
            && (step.Release? ==> Inside(g') == Inside(g) - {step.w} && step.w in Inside(g))
            && (step.Release? ==> Admitted(g', cap) <= Admitted(g, cap))
            && (step.Clamp? || step.SurplusRelease? ==>
                  Inside(g') == Inside(g) && Admitted(g', cap) == Admitted(g, cap))
  {
  }

  lemma StepBalanced(g: Gate, step: Step, cap: nat, d: int)
    requires Balanced(g, cap, d) && Enabled(g, step)
    ensures Balanced(Apply(g, step, cap), cap, d + DeficitOf(g, step))
  {
    hide Inside, Admitted;
    var g' := Apply(g, step, cap);
    StepSets(g, step, cap);
    SubsetSize(Admitted(g', cap), Inside(g'));
    if step.Release? {
      SubsetSize(Admitted(g', cap), Admitted(g, cap));
    }
  }

  /** Every clamp of the run finds the counter at zero or below: no worker got in since its DECRBY. */
  predicate PromptClamps(g: Gate, steps: seq<Step>, cap: int)
    requires Runnable(g, steps, cap)
    decreases |steps|
  {
    || steps == []
    || ((steps[0].Clamp? ==> g.counter <= 0) && PromptClamps(Apply(g, steps[0], cap), steps[1..], cap))
  }

  function Surpluses(steps: seq<Step>): nat {
    if steps == [] then 0 else (if steps[0].SurplusRelease? then 1 else 0) + Surpluses(steps[1..])
  }

  /** Every interleaving whatever: the workers inside are the counter and the deficit of the run, and the
      holders exceed the cap by the deficit at most. While clamps are prompt the deficit, and so the
      excess of holders, is at most the number of surplus releases. */
  lemma {:induction false} GateLedger(g: Gate, steps: seq<Step>, cap: nat, d: int)
    requires Balanced(g, cap, d) && Runnable(g, steps, cap)
    ensures var g' := After(g, steps, cap);
            && |Inside(g')| == g'.counter + d + Deficit(g, steps, cap)
            && |Holders(g')| <= |Admitted(g', cap)| <= cap + d + Deficit(g, steps, cap)
            && (PromptClamps(g, steps, cap) ==> Deficit(g, steps, cap) <= Surpluses(steps))
    decreases |steps|
  {
    if steps == [] {
      SubsetSize(Holders(g), Admitted(g, cap));
    } else {
      StepBalanced(g, steps[0], cap, d);
      GateLedger(Apply(g, steps[0], cap), steps[1..], cap, d + DeficitOf(g, steps[0]));
    }
  }

  /** A run followed by another. */
  lemma {:induction false} Joined(g: Gate, steps: seq<Step>, more: seq<Step>, cap: int)
    requires Runnable(g, steps, cap) && Runnable(After(g, steps, cap), more, cap)
    ensures Runnable(g, steps + more, cap) && After(g, steps + more, cap) == After(After(g, steps, cap), more, cap)
    ensures Surpluses(steps + more) == Surpluses(steps) + Surpluses(more)
    ensures PromptClamps(g, steps, cap) && PromptClamps(After(g, steps, cap), more, cap)
            ==> PromptClamps(g, steps + more, cap)
    decreases |steps|
  {
    if steps == [] {
      assert steps + more == more;
    } else {
      assert (steps + more)[1..] == steps[1..] + more;
      Joined(Apply(g, steps[0], cap), steps[1..], more, cap);
    }
  }

  lemma Single(g: Gate, step: Step, cap: int)
    requires Enabled(g, step)
    ensures Runnable(g, [step], cap) && After(g, [step], cap) == Apply(g, step, cap)
    ensures Surpluses([step]) == if step.SurplusRelease? then 1 else 0
    ensures !step.Clamp? ==> PromptClamps(g, [step], cap)
  {
    assert [step][1..] == [];
  }

  lemma NoSteps(g: Gate, cap: int)
    ensures Runnable(g, [], cap) && After(g, [], cap) == g && Surpluses([]) == 0 && PromptClamps(g, [], cap)
  {
  }

  ghost predicate AreFresh(ws: seq<Worker>, g: Gate) {
    Distinct(ws) && forall i :: 0 <= i < |ws| ==> ws[i] !in g.phases
  }

  /** The gate with all of ws let in. */
  function LetIn(g: Gate, ws: seq<Worker>): Gate {
    Gate(g.counter + |ws|, g.phases + map w | w in ws :: Holding)
  }

  lemma LetInOne(g: Gate, w: Worker, cap: int) returns (steps: seq<Step>)
    requires w !in g.phases && g.counter + 1 <= cap
    ensures Runnable(g, steps, cap) && After(g, steps, cap) == LetIn(g, [w])
    ensures Surpluses(steps) == 0 && PromptClamps(g, steps, cap)
  {
    var g1 := Apply(g, Incr(w), cap);
    Single(g, Incr(w), cap);
    Single(g1, Decide(w), cap);
    Joined(g, [Incr(w)], [Decide(w)], cap);
    steps := [Incr(w)] + [Decide(w)];
    assert Apply(g1, Decide(w), cap).phases == g.phases + map x | x in [w] :: Holding;
  }

  /** As many workers as the counter has room for get in, one after the other. */
  lemma {:induction false} AllLetIn(g: Gate, ws: seq<Worker>, cap: int) returns (steps: seq<Step>)
    requires AreFresh(ws, g) && g.counter + |ws| <= cap
    ensures Runnable(g, steps, cap) && After(g, steps, cap) == LetIn(g, ws)
    ensures Surpluses(steps) == 0 && PromptClamps(g, steps, cap)
    decreases |ws|
  {
    hide AreFresh, Runnable, After, Surpluses, PromptClamps;
    if ws == [] {
      steps := [];
      NoSteps(g, cap);
      assert LetIn(g, ws).phases == g.phases;
    } else {
      RestFresh(g, ws);
      LetInRest(g, ws);
      var first := LetInOne(g, ws[0], cap);
      var g1 := LetIn(g, [ws[0]]);
      var rest := AllLetIn(g1, ws[1..], cap);
      Joined(g, first, rest, cap);
      steps := first + rest;
    }
  }

  lemma LetInRest(g: Gate, ws: seq<Worker>)
    requires ws != []
    ensures LetIn(LetIn(g, [ws[0]]), ws[1..]) == LetIn(g, ws)
  {
    var one, rest, all := map w | w in [ws[0]] :: Holding, map w | w in ws[1..] :: Holding, map w | w in ws :: Holding;
    assert ws == [ws[0]] + ws[1..];
    assert one + rest == all;
    assert g.phases + one + rest == g.phases + (one + rest);
  }

  lemma RestFresh(g: Gate, ws: seq<Worker>)
    requires ws != [] && AreFresh(ws, g)
    ensures ws[0] !in g.phases && AreFresh(ws[1..], LetIn(g, [ws[0]]))
  {
    forall i | 0 <= i < |ws[1..]| ensures ws[1..][i] !in LetIn(g, [ws[0]]).phases {
      assert ws[1..][i] == ws[i + 1] != ws[0];
    }
  }

  lemma NewHolders(g: Gate, ws: seq<Worker>)
    requires AreFresh(ws, g)
    ensures |Holders(LetIn(g, ws))| == |Holders(g)| + |ws|
  {
    var added := set w | w in ws;
    DistinctSize(ws, added);
    assert Holders(LetIn(g, ws)) == Holders(g) + added;
  }

  /** Full, with every worker inside holding. */
  ghost predicate Full(g: Gate, cap: int) {
    g.counter == cap && forall w :: w in g.phases ==> g.phases[w].Holding?
  }

  /** The bound is reached: any number of surplus releases, made one at a time on a full gate, let in as
      many workers too many, with prompt clamps. Two PERSIST deliveries that both read the context before
      either clears it make one such release. */
  lemma {:induction false} SurplusOverAdmits(g: Gate, cap: nat, twice: Worker, ws: seq<Worker>)
    returns (steps: seq<Step>)
    requires cap > 0 && Full(g, cap) && AreFresh([twice] + ws, g)
    ensures Runnable(g, steps, cap) && PromptClamps(g, steps, cap) && Surpluses(steps) == |ws|
    ensures Full(After(g, steps, cap), cap) && |Holders(After(g, steps, cap))| == |Holders(g)| + |ws|
    decreases |ws|
  {
    if ws == [] {
      steps := [];
    } else {
      var w := ws[0];
      assert ([twice] + ws)[0] == twice && ([twice] + ws)[1] == w;
      var g1 := Gate(cap - 1, g.phases);
      assert g.phases - {twice} == g.phases;
      Single(g, SurplusRelease(twice), cap);
      var enter := LetInOne(g1, w, cap);
      Joined(g, [SurplusRelease(twice)], enter, cap);
      var g2 := LetIn(g1, [w]);
      NewHolders(g1, [w]);
      assert Holders(g1) == Holders(g);
      assert AreFresh([twice] + ws[1..], g2) by {
        StillFresh(g, twice, ws);
      }
      var rest := SurplusOverAdmits(g2, cap, twice, ws[1..]);
      Joined(g, [SurplusRelease(twice)] + enter, rest, cap);
      steps := [SurplusRelease(twice)] + enter + rest;
    }
  }

  lemma StillFresh(g: Gate, twice: Worker, ws: seq<Worker>)
    requires ws != [] && AreFresh([twice] + ws, g)
    ensures AreFresh([twice] + ws[1..], LetIn(Gate(g.counter - 1, g.phases), [ws[0]]))
  {
    var all := [twice] + ws;
    var less := [twice] + ws[1..];
    forall i | 0 <= i < |less| ensures less[i] == all[if i == 0 then 0 else i + 1] && less[i] != ws[0] {
      assert all[1] == ws[0];
    }
  }

  /** Exactly the deficit decides. From a gate at rest, without any further surplus release and with prompt
      clamps, more than the cap can come to hold if and only if there is a deficit; and the most that can
      come to hold is the cap and the deficit. */
  lemma OverAdmitsIff(g: Gate, cap: nat, d: int)
    requires Balanced(g, cap, d) && g.counter <= cap && forall w :: w in g.phases ==> g.phases[w].Holding?
    ensures (exists steps :: CleanRun(g, steps, cap) && |Holders(After(g, steps, cap))| > cap) <==> d > 0
    ensures exists steps :: CleanRun(g, steps, cap) && |Holders(After(g, steps, cap))| == cap + d
    ensures forall steps :: CleanRun(g, steps, cap) ==> |Holders(After(g, steps, cap))| <= cap + d
  {
    forall steps | CleanRun(g, steps, cap) ensures |Holders(After(g, steps, cap))| <= cap + d {
      GateLedger(g, steps, cap, d);
    }
    var ws := Newcomers(g, cap - g.counter);
    var steps := AllLetIn(g, ws, cap);
    NewHolders(g, ws);
    assert Inside(g) == Holders(g);
    assert CleanRun(g, steps, cap) && |Holders(After(g, steps, cap))| == cap + d;
  }

  /** A run without surplus releases in which every clamp is prompt. */
  ghost predicate CleanRun(g: Gate, steps: seq<Step>, cap: nat) {
    Runnable(g, steps, cap) && Surpluses(steps) == 0 && PromptClamps(g, steps, cap)
  }

  /** A surplus release together with its own clamp, if it has one. */
  function WholeRelease(g: Gate, w: Worker): seq<Step> {
    if g.counter > 0 then [SurplusRelease(w)] else [SurplusRelease(w), Clamp(w)]
  }

  /** Clamped at once, a surplus release adds to the deficit exactly when its DECRBY finds a positive counter:
      on an idle gate the clamp undoes it. */
  lemma SurplusCostsIff(g: Gate, w: Worker, cap: nat)
    requires w !in g.phases
    ensures var steps := WholeRelease(g, w);
            && Runnable(g, steps, cap) && PromptClamps(g, steps, cap)
            && (Deficit(g, steps, cap) > 0 <==> g.counter > 0)
            && (g.counter > 0 ==> Deficit(g, steps, cap) == 1 && After(g, steps, cap).counter == g.counter - 1)
            && (g.counter == 0 ==> After(g, steps, cap) == g)
  {
    Single(g, SurplusRelease(w), cap);
    var g1 := Apply(g, SurplusRelease(w), cap);
    var rest := WholeRelease(g, w)[1..];
    assert g.phases - {w} == g.phases;
    if g.counter <= 0 {
      assert rest == [Clamp(w)] && rest[1..] == [];
      assert g1.phases - {w} == g.phases;
      Single(g1, Clamp(w), cap);
      assert Deficit(g1, rest, cap) == g1.counter;
    } else {
      assert rest == [];
    }
  }

  // ----- a gate at rest -----

  /** A worker is still to clamp whenever the counter is below zero. */
  ghost predicate Tidy(g: Gate) {
    g.counter < 0 ==> exists w :: w in g.phases && g.phases[w].Clamping?
  }

  /** A rejected attempt takes its unit off a counter that is not positive: nothing clamps that DECRBY. */
  predicate Undercuts(g: Gate, step: Step, cap: int) {
    step.Decide? && step.w in g.phases && g.phases[step.w].Trying? && g.phases[step.w].newVal > cap && g.counter <= 0
  }

  predicate NeverUndercuts(g: Gate, steps: seq<Step>, cap: int)
    requires Runnable(g, steps, cap)
    decreases |steps|
  {
    steps == [] || (!Undercuts(g, steps[0], cap) && NeverUndercuts(Apply(g, steps[0], cap), steps[1..], cap))
  }

  lemma StepTidy(g: Gate, step: Step, cap: nat)
    requires Tidy(g) && Enabled(g, step) && !Undercuts(g, step, cap)
    ensures Tidy(Apply(g, step, cap))
  {
    var g' := Apply(g, step, cap);
    if g'.counter < 0 {
      match step {
        case Release(w) => assert g'.phases[w].Clamping?;
        case SurplusRelease(w) => assert g'.phases[w].Clamping?;
        case Incr(w) =>
          var x :| x in g.phases && g.phases[x].Clamping?;
          assert x in g'.phases && g'.phases[x].Clamping?;
        case Decide(w) =>
          var x :| x in g.phases && g.phases[x].Clamping?;
          assert x in g'.phases && g'.phases[x].Clamping?;
        case Clamp(_) =>
      }
    }
  }

  /** The deficit is never negative. */
  lemma StepDeficit(g: Gate, step: Step, cap: nat, d: int)
    requires Balanced(g, cap, d) && d >= 0 && Enabled(g, step)
    ensures d + DeficitOf(g, step) >= 0
  {
  }

  lemma {:induction false} RunTidy(g: Gate, steps: seq<Step>, cap: nat, d: int)
    requires Balanced(g, cap, d) && d >= 0 && Runnable(g, steps, cap)
    ensures d + Deficit(g, steps, cap) >= 0
    ensures Tidy(g) && NeverUndercuts(g, steps, cap) ==> Tidy(After(g, steps, cap))
    decreases |steps|
  {
    hide Tidy, Balanced, Apply, Enabled;
    if steps != [] {
      StepBalanced(g, steps[0], cap, d);
      StepDeficit(g, steps[0], cap, d);
      if Tidy(g) && !Undercuts(g, steps[0], cap) {
        StepTidy(g, steps[0], cap);
      }
      RunTidy(Apply(g, steps[0], cap), steps[1..], cap, d + DeficitOf(g, steps[0]));
    }
  }

  /** Once all workers have left, however many surplus releases there were and however late the clamps, the
      deficit is what the counter lies below zero, so nothing is owed exactly when the counter is at zero;
      and it is, unless some rejected attempt took an unclamped unit off. */
  lemma DrainedOwesIff(g: Gate, steps: seq<Step>, cap: nat, d: int)
    requires Balanced(g, cap, d) && d >= 0 && Tidy(g) && Runnable(g, steps, cap)
    requires After(g, steps, cap).phases == map[]
    ensures var owed := d + Deficit(g, steps, cap);
            && After(g, steps, cap).counter == -owed <= 0
            && (owed == 0 <==> After(g, steps, cap).counter == 0)
            && (NeverUndercuts(g, steps, cap) ==> owed == 0)
  {
    GateLedger(g, steps, cap, d);
    RunTidy(g, steps, cap, d);
    assert Inside(After(g, steps, cap)) == {};
  }

  /** That exception is real: with prompt clamps throughout, an attempt that is rejected after two surplus
      releases can leave an idle gate one below zero. */
  lemma UndercutLeavesDebt(a: Worker, b: Worker, x: Worker, y: Worker)
    returns (steps: seq<Step>)
    requires a != b && a != x && a != y && b != x && b != y && x != y
    ensures var g := Gate(1, map[a := Holding]);
            && Sound(g, 1) && Runnable(g, steps, 1) && PromptClamps(g, steps, 1) && Surpluses(steps) == 2
            && After(g, steps, 1) == Gate(-1, map[])
  {
    var g := Gate(1, map[a := Holding]);
    assert Admitted(g, 1) == {a};
    var g1 := Gate(2, map[a := Holding, b := Trying(2)]);
    var g2 := Gate(1, map[a := Holding, b := Trying(2)]);
    var g3 := Gate(0, map[b := Trying(2)]);
    var g4 := Gate(-1, map[b := Trying(2), y := Clamping]);
    var g5 := Gate(0, map[b := Trying(2)]);
    var g6 := Gate(-1, map[]);
    Single(g, Incr(b), 1);
    assert Apply(g, Incr(b), 1) == g1;
    Single(g1, SurplusRelease(x), 1);
    assert g1.phases - {x} == g1.phases;
    assert Apply(g1, SurplusRelease(x), 1) == g2;
    Single(g2, Release(a), 1);
    assert g2.phases - {a} == g3.phases;
    assert Apply(g2, Release(a), 1) == g3;
    Single(g3, SurplusRelease(y), 1);
    assert Apply(g3, SurplusRelease(y), 1) == g4;
    PromptOne(g4, y, 1);
    assert g4.phases - {y} == g5.phases;
    assert Apply(g4, Clamp(y), 1) == g5;
    Single(g5, Decide(b), 1);
    assert g5.phases - {b} == g6.phases;
    assert Apply(g5, Decide(b), 1) == g6;
    Joined(g, [Incr(b)], [SurplusRelease(x)], 1);
    steps := [Incr(b)] + [SurplusRelease(x)];
    Joined(g, steps, [Release(a)], 1);
    steps := steps + [Release(a)];
    Joined(g, steps, [SurplusRelease(y)], 1);
    steps := steps + [SurplusRelease(y)];
    Joined(g, steps, [Clamp(y)], 1);
    steps := steps + [Clamp(y)];
    Joined(g, steps, [Decide(b)], 1);
    steps := steps + [Decide(b)];
  }

  lemma PromptOne(g: Gate, w: Worker, cap: int)
    requires Enabled(g, Clamp(w)) && g.counter <= 0
    ensures Runnable(g, [Clamp(w)], cap) && After(g, [Clamp(w)], cap) == Apply(g, Clamp(w), cap)
    ensures Surpluses([Clamp(w)]) == 0 && PromptClamps(g, [Clamp(w)], cap)
  {
    assert [Clamp(w)][1..] == [];
  }

  // ----- late clamps -----

  /** The counter is below zero, and only the worker that brought it there has still to clamp it. */
  ghost predicate Owing(g: Gate, late: Worker) {
    && g.counter == -1 && late in g.phases && g.phases[late] == Clamping
    && forall w :: w in g.phases && w != late ==> g.phases[w].Holding?
  }

  lemma {:induction false} Bound(s: set<Worker>) returns (b: nat)
    ensures forall w :: w in s ==> w.id < b
    decreases s
  {
    b := 0;
    if s != {} {
      var w :| w in s;
      var rest := Bound(s - {w});
      b := if rest <= w.id then w.id + 1 else rest;
    }
  }

  lemma Newcomers(g: Gate, n: nat) returns (ws: seq<Worker>)
    ensures |ws| == n && AreFresh(ws, g)
  {
    var b := Bound(g.phases.Keys);
    ws := seq(n, i requires 0 <= i => Worker(b + i));
  }

  /** Before a late clamp comes, cap + 1 more get in; its SET then forgets cap of them, and an ordinary
      release brings the counter below zero again. */
  lemma LateCycle(g: Gate, late: Worker, cap: nat) returns (steps: seq<Step>, next: Worker)
    requires cap > 0 && Owing(g, late)
    ensures Runnable(g, steps, cap) && Surpluses(steps) == 0
    ensures Owing(After(g, steps, cap), next) && |Holders(After(g, steps, cap))| == |Holders(g)| + cap
  {
    var ws := Newcomers(g, cap + 1);
    var enter := AllLetIn(g, ws, cap);
    var g1 := LetIn(g, ws);
    NewHolders(g, ws);
    Single(g1, Clamp(late), cap);
    Joined(g, enter, [Clamp(late)], cap);
    var g2 := Gate(0, g1.phases - {late});
    next := ws[0];
    assert next in ws && next in g2.phases && g2.phases[next] == Holding;
    Single(g2, Release(next), cap);
    Joined(g, enter + [Clamp(late)], [Release(next)], cap);
    steps := enter + [Clamp(late)] + [Release(next)];
    var g3 := Apply(g2, Release(next), cap);
    assert Holders(g1) == Holders(g2) && Holders(g3) == Holders(g2) - {next} && next in Holders(g2);
  }

  lemma {:induction false} LateCycles(g: Gate, late: Worker, cap: nat, n: nat) returns (steps: seq<Step>)
    requires cap > 0 && Owing(g, late)
    ensures Runnable(g, steps, cap) && Surpluses(steps) == 0
    ensures |Holders(After(g, steps, cap))| >= |Holders(g)| + n
    decreases n
  {
    if n == 0 {
      steps := [];
    } else {
      var cycle, next := LateCycle(g, late, cap);
      var rest := LateCycles(After(g, cycle, cap), next, cap, n - 1);
      Joined(g, cycle, rest, cap);
      steps := cycle + rest;
    }
  }

  /** A late clamp does harm. DECRBY and SET are two commands, and the SET forgets the workers admitted
      between them: a single surplus release on an idle gate, which a prompt clamp would undo, is then
      enough for any number of holders at once. */
  lemma ClampForgets(cap: nat, n: nat) returns (steps: seq<Step>)
    requires cap > 0
    ensures var g := Gate(0, map[]);
            && Sound(g, cap) && Runnable(g, steps, cap)
            && Surpluses(steps) == 1 && |Holders(After(g, steps, cap))| >= n
  {
    var g := Gate(0, map[]);
    var twice := Worker(0);
    assert Admitted(g, cap) == {};
    var g1 := Gate(-1, map[twice := Clamping]);
    Single(g, SurplusRelease(twice), cap);
    assert Apply(g, SurplusRelease(twice), cap) == g1;
    var rest := LateCycles(g1, twice, cap, n);
    Joined(g, [SurplusRelease(twice)], rest, cap);
    steps := [SurplusRelease(twice)] + rest;
  }
}
