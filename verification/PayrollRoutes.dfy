/** What the routes can do to a run's final status: each checks the status, and writes later whatever it is then. */
module PayrollRoutes {
  import opened Prelude
  import opened PayrollWorker
  import opened PayrollSafety
  import opened PayrollRuns

  /** A route call that passed its check writes to a run that has become final. */
  predicate LateWrite(st: State, step: Step) {
    step.WriteRoute? && step.call in st.calls && st.calls[step.call].run < |st.runs|
    && Final(st.runs[st.calls[step.call].run].status)
  }

  ghost predicate FinalsKept(a: State, b: State) {
    forall r :: 0 <= r < |a.runs| && Final(a.runs[r].status) ==> r < |b.runs| && b.runs[r].status == a.runs[r].status
  }

  /** A step keeps the final statuses exactly when it is no late write. */
  lemma StepKeepsFinalsIff(st: State, step: Step)
    requires Inv(st) && Enabled(st, step)
    ensures FinalsKept(st, Apply(st, step)) <==> !LateWrite(st, step)
  {
    if LateWrite(st, step) {
      var r := st.calls[step.call].run;
      assert Apply(st, step).runs[r].status != st.runs[r].status;
    } else {
      forall r | 0 <= r < |st.runs| && Final(st.runs[r].status)
        ensures r < |Apply(st, step).runs| && Apply(st, step).runs[r].status == st.runs[r].status
      {
        FinalHoldsStep(st, step, r);
      }
    }
  }

  ghost predicate NoLateWrites(states: seq<State>, steps: seq<Step>, i: nat, j: nat)
    requires i <= j <= |steps| < |states|
  {
    forall k :: i <= k < j ==> !LateWrite(states[k], steps[k])
  }

  lemma {:induction false} FinalsKeptRun(states: seq<State>, steps: seq<Step>, i: nat, j: nat)
    requires Run(states, steps) && i <= j < |states| && NoLateWrites(states, steps, i, j)
    ensures FinalsKept(states[i], states[j])
  {
    if i < j {
      FinalsKeptRun(states, steps, i, j - 1);
      RunInv(states, steps, j - 1);
      assert NextAt(states, steps, j - 1);
      StepKeepsFinalsIff(states[j - 1], steps[j - 1]);
    }
  }

  /**
   Over every run, every final status is kept for good exactly when no route call writes to a run that has become
   final since its check.
   */
  lemma FinalsKeptIff(states: seq<State>, steps: seq<Step>)
    requires Run(states, steps)
    ensures (forall i, j :: 0 <= i <= j < |states| ==> FinalsKept(states[i], states[j]))
            <==> NoLateWrites(states, steps, 0, |steps|)
  {
    if NoLateWrites(states, steps, 0, |steps|) {
      forall i, j | 0 <= i <= j < |states| ensures FinalsKept(states[i], states[j]) {
        FinalsKeptRun(states, steps, i, j);
      }
    }
    if forall i, j :: 0 <= i <= j < |states| ==> FinalsKept(states[i], states[j]) {
      forall k | 0 <= k < |steps| ensures !LateWrite(states[k], steps[k]) {
        RunInv(states, steps, k);
        assert NextAt(states, steps, k);
        assert FinalsKept(states[k], states[k + 1]);
        StepKeepsFinalsIff(states[k], steps[k]);
      }
    }
  }

  /** A route that writes at once after its check: the check is the step before. */
  predicate Prompt(states: seq<State>, steps: seq<Step>, k: nat)
    requires k < |steps| < |states|
  {
    steps[k].WriteRoute? && steps[k].call in states[k].calls ==>
      k > 0 && steps[k - 1] == CheckRoute(steps[k].call, states[k].calls[steps[k].call].route,
                                          states[k].calls[steps[k].call].run)
  }

  /** So where every route writes at once after its check, final statuses are for good. */
  lemma PromptRoutesKeepFinals(states: seq<State>, steps: seq<Step>, i: nat, j: nat)
    requires Run(states, steps) && i <= j < |states| && forall k :: 0 <= k < |steps| ==> Prompt(states, steps, k)
    ensures FinalsKept(states[i], states[j])
  {
    forall k | 0 <= k < |steps| ensures !LateWrite(states[k], steps[k]) {
      assert Prompt(states, steps, k);
      assert k > 0 ==> NextAt(states, steps, k - 1);
    }
    FinalsKeptRun(states, steps, i, j);
  }

  // ---------- What a route reads and writes ----------

  /** A route goes on from exactly these statuses. */
  lemma RouteChecks(st: State, call: nat, route: Route, r: nat)
    requires InRange(st) && call !in st.calls && r < |st.runs|
    ensures Enabled(st, CheckRoute(call, route, r))
            <==> match route
                 case Start => st.runs[r].status == Ready || st.runs[r].status == Paused || st.runs[r].status == Running
                 case Pause => st.runs[r].status != Complete && st.runs[r].status != RunFailed
                 case Resume => st.runs[r].status == Paused
  {
  }

  /** Whatever the run is by then, start and resume leave it running and pause leaves it paused; nothing else changes. */
  lemma RouteWrites(st: State, call: nat)
    requires Enabled(st, WriteRoute(call))
    ensures var (st', route, r) := (Apply(st, WriteRoute(call)), st.calls[call].route, st.calls[call].run);
            && |st'.runs| == |st.runs| && st'.runs[r].status == (if route == Pause then Paused else Running)
            && st'.runs[r].total == st.runs[r].total
            && (forall k :: 0 <= k < |st.runs| && k != r ==> st'.runs[k] == st.runs[k])
            && st' == st.(runs := st'.runs, calls := st.calls - {call})
  {
  }

  // ---------- The verdict ----------

  /**
   A late write cannot change what the run came to: in every run, whenever a payroll run is final again, it has the
   status it had before.
   */
  lemma VerdictIsForGood(states: seq<State>, steps: seq<Step>, i: nat, j: nat, r: nat)
    requires Run(states, steps) && i <= j < |states|
    requires r < |states[i].runs| && Final(states[i].runs[r].status)
    ensures r < |states[j].runs| && AllSettled(states[j].items, r)
    ensures Final(states[j].runs[r].status) ==> states[j].runs[r].status == states[i].runs[r].status
  {
    RunGrows(states, steps, i, j);
    FinalIsTrue(states, steps, i, r);
    var before, after := states[i].items, states[j].items;
    forall k | 0 <= k < |after| && after[k].run == r ensures k < |before| && after[k] == before[k] && Settled(after[k]) {
      assert k < |before| ==> ItemGrows(before[k], after[k]);
    }
    if Final(states[j].runs[r].status) {
      FinalIsTrue(states, steps, j, r);
      if SomeConfirmed(before, r) {
        var k :| 0 <= k < |before| && before[k].run == r && before[k].status == Confirmed;
        assert ItemGrows(before[k], after[k]);
      }
    }
  }

  // ---------- Every route can write late ----------

  const ROW := DraftRow(5, Some("a"), true)
  const FRESH := Item(0, 5, Some("a"), true, Pending, 0, 0, None, None)
  const PAYMENT := Tx(0, 5, 0, 5, 0)
  const CLAIMED := FRESH.(attempt := 1, status := Proving)
  const STORED := CLAIMED.(status := Submitted, txHash := Some(PAYMENT), rawTx := Some(PAYMENT))
  const PAID := STORED.(status := Confirmed, rawTx := None)
  const QUIET := Chain(5, 0, {}, map[])
  const SENT := QUIET.(accepted := {PAYMENT})
  const MINED := Chain(0, 1, {PAYMENT}, map[PAYMENT := true])

  /** One run of one item: the tables, and the route calls that have passed their check. */
  function With(item: Item, proofs: nat, status: RunStatus, chain: Chain, worker: Worker, calls: map<nat, RouteCall>): State {
    State([item], [proofs], [RunRow(status, 5)], chain, worker, 5, calls)
  }

  function Late(route: Route): map<nat, RouteCall> {
    map[0 := RouteCall(route, 0)]
  }

  /** A run is paused while its only transfer is about to be sent; a route passes its check; the transfer is mined. */
  function LateSteps(route: Route): seq<Step> {
    [CreateRun([ROW]), TakeJob(0), Write, Write, LoadContext, CallProver, Sign(0), Write, Write,
     CheckRoute(1, Pause, 0), WriteRoute(1), CheckRoute(0, route, 0),
     SendAccepted, Mine(PAYMENT, true), SeeMined, Write, Count, Write, WriteRoute(0)]
  }

  function LateStates(route: Route): seq<State> {
    [State([], [], [], QUIET, Idle, 5, map[]),
     With(FRESH, 0, Ready, QUIET, Idle, map[]),
     With(FRESH, 0, Ready, QUIET, Starting(0, 0), map[]),
     With(FRESH, 0, Running, QUIET, Claiming(0, 0), map[]),
     With(CLAIMED, 0, Running, QUIET, Loading(0, 1), map[]),
     With(CLAIMED, 0, Running, QUIET, ProofDue(0, 1, 0, 5), map[]),
     With(CLAIMED, 1, Running, QUIET, Signing(0, 1, 0, 5), map[]),
     With(CLAIMED, 1, Running, QUIET, Persisting(0, 1, PAYMENT), map[]),
     With(STORED, 1, Running, QUIET, Marking(0, PAYMENT, Some(PAYMENT)), map[]),
     With(STORED, 1, Running, QUIET, Sending(0, PAYMENT), map[]),
     With(STORED, 1, Running, QUIET, Sending(0, PAYMENT), map[1 := RouteCall(Pause, 0)]),
     With(STORED, 1, Paused, QUIET, Sending(0, PAYMENT), map[]),
     With(STORED, 1, Paused, QUIET, Sending(0, PAYMENT), Late(route)),
     With(STORED, 1, Paused, SENT, Waiting(0, PAYMENT), Late(route)),
     With(STORED, 1, Paused, MINED, Waiting(0, PAYMENT), Late(route)),
     With(STORED, 1, Paused, MINED, Confirming(0, PAYMENT), Late(route)),
     With(PAID, 1, Paused, MINED, Counting(0), Late(route)),
     With(PAID, 1, Paused, MINED, Finalizing(0, Complete), Late(route)),
     With(PAID, 1, Complete, MINED, Idle, Late(route)),
     With(PAID, 1, Writing(route), MINED, Idle, map[])]
  }

  lemma LateCreates(route: Route)
    ensures Next(LateStates(route)[0], LateSteps(route)[0], LateStates(route)[1])
  {
    assert [ROW][..0] == [];
    assert [ROW][0].valid;
    assert DraftTotal([ROW]) == 5;
    assert Draft([ROW]);
    assert NewItems(0, [ROW]) == [FRESH];
    assert seq(1, _ => 0) == [0];
  }

  lemma LateTakes(route: Route)
    ensures Next(LateStates(route)[1], LateSteps(route)[1], LateStates(route)[2])
  {
  }

  lemma LateStarts(route: Route)
    ensures Next(LateStates(route)[2], LateSteps(route)[2], LateStates(route)[3])
  {
  }

  lemma LateClaims(route: Route)
    ensures Next(LateStates(route)[3], LateSteps(route)[3], LateStates(route)[4])
  {
  }

  lemma LateLoads(route: Route)
    ensures Next(LateStates(route)[4], LateSteps(route)[4], LateStates(route)[5])
  {
  }

  lemma LateProves(route: Route)
    ensures Next(LateStates(route)[5], LateSteps(route)[5], LateStates(route)[6])
  {
  }

  lemma LateSigns(route: Route)
    ensures Next(LateStates(route)[6], LateSteps(route)[6], LateStates(route)[7])
  {
  }

  lemma LateStores(route: Route)
    ensures Next(LateStates(route)[7], LateSteps(route)[7], LateStates(route)[8])
  {
  }

  lemma LateMarks(route: Route)
    ensures Next(LateStates(route)[8], LateSteps(route)[8], LateStates(route)[9])
  {
  }

  lemma PauseChecks(route: Route)
    ensures Next(LateStates(route)[9], LateSteps(route)[9], LateStates(route)[10])
  {
  }

  lemma LateChecks(route: Route)
    ensures Next(LateStates(route)[11], LateSteps(route)[11], LateStates(route)[12])
  {
  }

  lemma LatePauses(route: Route)
    ensures Next(LateStates(route)[10], LateSteps(route)[10], LateStates(route)[11])
  {
    assert LateStates(route)[10].calls - {1} == map[];
  }

  lemma LateSends(route: Route)
    ensures Next(LateStates(route)[12], LateSteps(route)[12], LateStates(route)[13])
  {
  }

  lemma LateIsMined(route: Route)
    ensures Next(LateStates(route)[13], LateSteps(route)[13], LateStates(route)[14])
  {
  }

  lemma LateIsSeen(route: Route)
    ensures Next(LateStates(route)[14], LateSteps(route)[14], LateStates(route)[15])
  {
  }

  lemma LateConfirms(route: Route)
    ensures Next(LateStates(route)[15], LateSteps(route)[15], LateStates(route)[16])
  {
  }

  lemma LateCounts(route: Route)
    ensures Next(LateStates(route)[16], LateSteps(route)[16], LateStates(route)[17])
  {
    CountsDecide([PAID], 0);
    assert [PAID][0].status == Confirmed;
  }

  lemma LateFinalizes(route: Route)
    ensures Next(LateStates(route)[17], LateSteps(route)[17], LateStates(route)[18])
  {
  }

  lemma LateWrites(route: Route)
    ensures Next(LateStates(route)[18], LateSteps(route)[18], LateStates(route)[19])
  {
    assert LateStates(route)[18].calls - {0} == map[];
  }

  lemma LateRun(route: Route)
    ensures Run(LateStates(route), LateSteps(route))
  {
    LateCreates(route);
    LateTakes(route);
    LateStarts(route);
    LateClaims(route);
    LateLoads(route);
    LateProves(route);
    LateSigns(route);
    LateStores(route);
    LateMarks(route);
    PauseChecks(route);
    LateChecks(route);
    LatePauses(route);
    LateSends(route);
    LateIsMined(route);
    LateIsSeen(route);
    LateConfirms(route);
    LateCounts(route);
    LateFinalizes(route);
    LateWrites(route);
    forall k | 0 <= k < 19 ensures NextAt(LateStates(route), LateSteps(route), k) {
      assert k == 0 || k == 1 || k == 2 || k == 3 || k == 4 || k == 5 || k == 6 || k == 7 || k == 8 || k == 9
             || k == 10 || k == 11 || k == 12 || k == 13 || k == 14 || k == 15 || k == 16 || k == 17 || k == 18;
    }
  }

  /**
   For each of the three routes, a run of the machine from the start in which its check passes while the run is
   paused, the run is then completed, and the route's write takes the complete run back.
   */
  lemma EveryRouteCanReviveARun(route: Route) returns (states: seq<State>, steps: seq<Step>)
    ensures Run(states, steps) && |steps| == 19 && LateWrite(states[18], steps[18])
    ensures states[18].runs == [RunRow(Complete, 5)] && states[19].runs == [RunRow(Writing(route), 5)]
    ensures AllSettled(states[19].items, 0)
  {
    states, steps := LateStates(route), LateSteps(route);
    LateRun(route);
  }
}
