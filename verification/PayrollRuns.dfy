/** The payroll worker over whole runs: any interleaving of jobs, routes, chain moves and crashes. */
module PayrollRuns {
  import opened Prelude
  import opened PayrollWorker
  import opened PayrollSafety

  lemma {:induction false} RunInv(states: seq<State>, steps: seq<Step>, i: nat)
    requires Run(states, steps) && i < |states|
    ensures Inv(states[i])
  {
    if i > 0 {
      RunInv(states, steps, i - 1);
      assert NextAt(states, steps, i - 1);
      StepKeepsInv(states[i - 1], steps[i - 1]);
    }
  }

  // ---------- What never changes ----------

  /** A later row of an item: its stored transfer and its settled status are for good. */
  predicate ItemGrows(a: Item, b: Item) {
    && b.run == a.run && b.amount == a.amount && b.address == a.address && b.valid == a.valid
    && a.attempt <= b.attempt
    && (a.txHash.Some? ==> b.txHash == a.txHash)
    && (Settled(a) ==> b == a)
  }

  ghost predicate Grows(a: State, b: State) {
    && |a.items| <= |b.items| && |a.runs| <= |b.runs|
    && (forall i :: 0 <= i < |a.items| ==> ItemGrows(a.items[i], b.items[i]))
    && (forall i :: |a.items| <= i < |b.items| ==> b.items[i].run >= |a.runs|)
    && (forall r :: 0 <= r < |a.runs| ==> b.runs[r].total == a.runs[r].total)
    && a.chain.accepted <= b.chain.accepted
    && (forall tx :: tx in a.chain.mined ==> tx in b.chain.mined && b.chain.mined[tx] == a.chain.mined[tx])
  }

  lemma WriteGrows(st: State)
    requires Inv(st) && Writes(st.worker)
    ensures Grows(st, DoWrite(st))
  {
    var st' := DoWrite(st);
    if HasItem(st.worker) {
      WrittenItemOk(st);
      assert ItemGrows(st.items[st.worker.item], st'.items[st.worker.item]);
    }
  }

  lemma RouteGrows(st: State, step: Step)
    requires Inv(st) && Enabled(st, step) && (step.WriteRoute? || step.CreateRun?)
    ensures Grows(st, Apply(st, step))
  {
  }

  lemma ChainGrows(st: State, step: Step)
    requires Inv(st) && Enabled(st, step) && (step.Mine? || step.Fund? || step.SendAccepted? || step.SendUnacknowledged?)
    ensures Grows(st, Apply(st, step))
  {
  }

  lemma StepGrows(st: State, step: Step)
    requires Inv(st) && Enabled(st, step)
    ensures Grows(st, Apply(st, step))
  {
    if step.Write? || step.WriteUnacknowledged? {
      WriteGrows(st);
    } else {
      OtherGrows(st, step);
    }
  }

  lemma OtherGrows(st: State, step: Step)
    requires Inv(st) && Enabled(st, step) && !step.Write? && !step.WriteUnacknowledged?
    ensures Grows(st, Apply(st, step))
  {
    match step
    case CreateRun(_) => RouteGrows(st, step);
    case WriteRoute(_) => RouteGrows(st, step);
    case Mine(_, _) => ChainGrows(st, step);
    case Fund(_) => ChainGrows(st, step);
    case SendAccepted => ChainGrows(st, step);
    case SendUnacknowledged => ChainGrows(st, step);
    case _ => GrowsReflexive(st);
  }

  lemma GrowsTransitive(a: State, m: State, b: State)
    requires Grows(a, m) && Grows(m, b)
    ensures Grows(a, b)
  {
    forall k | 0 <= k < |a.items| ensures ItemGrows(a.items[k], b.items[k]) {
      assert ItemGrows(a.items[k], m.items[k]) && ItemGrows(m.items[k], b.items[k]);
    }
    forall k | |a.items| <= k < |b.items| ensures b.items[k].run >= |a.runs| {
      assert k < |m.items| ==> ItemGrows(m.items[k], b.items[k]);
    }
  }

  lemma GrowsReflexive(st: State)
    ensures Grows(st, st)
  {
  }

  lemma RunStepGrows(states: seq<State>, steps: seq<Step>, i: nat)
    requires Run(states, steps) && i < |steps|
    ensures Grows(states[i], states[i + 1])
  {
    RunInv(states, steps, i);
    assert NextAt(states, steps, i);
    StepGrows(states[i], steps[i]);
  }

  /** Along every run: hashes are set once, and settled items stay as they are. */
  lemma {:induction false} RunGrows(states: seq<State>, steps: seq<Step>, i: nat, j: nat)
    requires Run(states, steps) && i <= j < |states|
    ensures Grows(states[i], states[j])
    decreases j - i
  {
    if i == j {
      GrowsReflexive(states[i]);
    } else {
      RunGrows(states, steps, i, j - 1);
      RunStepGrows(states, steps, j - 1);
      GrowsTransitive(states[i], states[j - 1], states[j]);
    }
  }

  // ---------- Exactly-once payment ----------

  /**
   In every run, at every moment: a transfer reaches the network only if it is the one its item has stored,
   so two sent transfers of one item are the same; proof attempts and tries stay within the limit; a submitted
   item has a hash; a confirmed item has been paid, and a failed one has not.
   */
  lemma PaysAtMostOnce(states: seq<State>, steps: seq<Step>, i: nat)
    requires Run(states, steps) && i < |states|
    ensures var st := states[i];
            && (forall tx :: tx in st.chain.accepted ==>
                  tx.item < |st.items| && st.items[tx.item].txHash == Some(tx) && tx.amount == st.items[tx.item].amount)
            && (forall tx, tx' :: tx in st.chain.accepted && tx' in st.chain.accepted && tx.item == tx'.item ==> tx == tx')
            && (forall tx :: tx in st.chain.mined ==> tx in st.chain.accepted)
            && |st.proofs| == |st.items|
            && (forall k :: 0 <= k < |st.items| ==> st.proofs[k] <= st.items[k].attempt <= MAX_ATTEMPTS)
            && (forall k :: 0 <= k < |st.items| && st.items[k].status == Submitted ==> st.items[k].txHash.Some?)
            && (forall k :: 0 <= k < |st.items| && st.items[k].status == Confirmed ==> Paid(st.chain, st.items[k]))
            && (forall k :: 0 <= k < |st.items| && st.items[k].status == Failed ==> !Paid(st.chain, st.items[k]))
  {
    RunInv(states, steps, i);
    var st := states[i];
    forall tx | tx in st.chain.accepted
      ensures tx.item < |st.items| && st.items[tx.item].txHash == Some(tx) && tx.amount == st.items[tx.item].amount
    {
      assert ItemOk(st.chain, tx.item, st.items[tx.item], st.proofs[tx.item]);
    }
    forall k | 0 <= k < |st.items|
      ensures st.proofs[k] <= st.items[k].attempt <= MAX_ATTEMPTS
      ensures st.items[k].status == Submitted ==> st.items[k].txHash.Some?
      ensures st.items[k].status == Confirmed ==> Paid(st.chain, st.items[k])
      ensures st.items[k].status == Failed ==> !Paid(st.chain, st.items[k])
    {
      assert ItemOk(st.chain, k, st.items[k], st.proofs[k]);
    }
  }

  /** Once an item has failed, no later moment of the run pays it; once confirmed, it stays paid. */
  lemma SettledIsTheLastWord(states: seq<State>, steps: seq<Step>, i: nat, j: nat, k: nat)
    requires Run(states, steps) && i <= j < |states| && k < |states[i].items| && Settled(states[i].items[k])
    ensures k < |states[j].items| && states[j].items[k] == states[i].items[k]
    ensures states[i].items[k].status == Confirmed <==> Paid(states[j].chain, states[j].items[k])
  {
    RunGrows(states, steps, i, j);
    assert ItemGrows(states[i].items[k], states[j].items[k]);
    PaysAtMostOnce(states, steps, j);
  }

  // ---------- Money ----------

  function FundSum(steps: seq<Step>): nat {
    if steps == [] then 0
    else FundSum(steps[..|steps| - 1]) + if steps[|steps| - 1].Fund? then steps[|steps| - 1].amount else 0
  }

  lemma {:induction false} FundedIsPaidIn(states: seq<State>, steps: seq<Step>, i: nat)
    requires Run(states, steps) && i < |states|
    ensures states[i].funded == states[0].chain.balance + FundSum(steps[..i])
  {
    if i > 0 {
      FundedIsPaidIn(states, steps, i - 1);
      assert NextAt(states, steps, i - 1);
      assert steps[..i][..i - 1] == steps[..i - 1];
    }
  }

  predicate BothPaid(st: State, a: nat, b: nat)
    requires a < |st.items| && b < |st.items|
  {
    Paid(st.chain, st.items[a]) && Paid(st.chain, st.items[b]) && st.items[a].run == st.items[b].run
  }

  /**
   In every run the money is conserved: what was in the treasury plus what was paid in is what is left plus the
   amounts of the items paid, item by item; the balance is never negative; no run pays more than its total; and
   within a run no recipient is paid for two items.
   */
  lemma MoneyIsConserved(states: seq<State>, steps: seq<Step>, i: nat)
    requires Run(states, steps) && i < |states|
    ensures var st := states[i];
            && states[0].chain.balance + FundSum(steps[..i]) == st.chain.balance + PaidSum(st.chain, st.items, None)
            && st.chain.balance >= 0
            && (forall r :: 0 <= r < |st.runs| ==> PaidSum(st.chain, st.items, Some(r)) <= st.runs[r].total)
            && (forall a, b :: 0 <= a < b < |st.items| && BothPaid(st, a, b) ==> st.items[a].address != st.items[b].address)
  {
    RunInv(states, steps, i);
    FundedIsPaidIn(states, steps, i);
    var st := states[i];
    forall k | 0 <= k < |st.items| ensures Paid(st.chain, st.items[k]) ==> st.items[k].valid {
      assert ItemOk(st.chain, k, st.items[k], st.proofs[k]);
    }
    forall r | 0 <= r < |st.runs| ensures PaidSum(st.chain, st.items, Some(r)) <= st.runs[r].total {
      PaidWithinValid(st.chain, st.items, r);
    }
  }

  // ---------- Run statuses ----------

  /** A route call writes the run's status in this step. */
  predicate WritesRun(st: State, step: Step, r: nat) {
    step.WriteRoute? && step.call in st.calls && st.calls[step.call].run == r
  }

  /** The job that holds the lock is about to write the run's status. */
  predicate Rewrites(st: State, r: nat)
    requires InRange(st)
  {
    var w := st.worker;
    if w.Finalizing? then w.run == r
    else w.Starting? && st.items[w.item].run == r && st.runs[r].status in {Ready, Running}
  }

  lemma WriteHoldsStatus(st: State, r: nat)
    requires InRange(st) && Writes(st.worker) && r < |st.runs| && !Rewrites(st, r)
    ensures r < |DoWrite(st).runs| && DoWrite(st).runs[r].status == st.runs[r].status
  {
  }

  /** Only a route that has passed its check and the job that holds the lock write a run's status. */
  lemma StatusHolds(st: State, step: Step, r: nat)
    requires Enabled(st, step) && r < |st.runs| && !WritesRun(st, step, r) && !Rewrites(st, r)
    ensures r < |Apply(st, step).runs| && Apply(st, step).runs[r].status == st.runs[r].status
  {
    if step.Write? || step.WriteUnacknowledged? {
      WriteHoldsStatus(st, r);
    }
  }

  lemma PauseHoldsStep(st: State, step: Step, r: nat)
    requires Inv(st) && Enabled(st, step) && !WritesRun(st, step, r)
    requires r < |st.runs| && st.runs[r].status == Paused
    ensures r < |Apply(st, step).runs|
    ensures Apply(st, step).runs[r].status == Paused || Final(Apply(st, step).runs[r].status)
  {
    if !Rewrites(st, r) {
      StatusHolds(st, step, r);
    }
  }

  lemma FinalHoldsStep(st: State, step: Step, r: nat)
    requires Inv(st) && Enabled(st, step) && !WritesRun(st, step, r)
    requires r < |st.runs| && Final(st.runs[r].status)
    ensures r < |Apply(st, step).runs| && Apply(st, step).runs[r].status == st.runs[r].status
  {
    assert WorkerOk(st);
    assert !Rewrites(st, r);
    StatusHolds(st, step, r);
  }

  predicate HeldOrFinal(st: State, r: nat) {
    r < |st.runs| && (st.runs[r].status == Paused || Final(st.runs[r].status))
  }

  lemma HeldOrFinalStep(states: seq<State>, steps: seq<Step>, i: nat, r: nat)
    requires Run(states, steps) && i < |steps| && HeldOrFinal(states[i], r) && !WritesRun(states[i], steps[i], r)
    ensures HeldOrFinal(states[i + 1], r)
  {
    RunInv(states, steps, i);
    assert NextAt(states, steps, i);
    if states[i].runs[r].status == Paused {
      PauseHoldsStep(states[i], steps[i], r);
    } else {
      FinalHoldsStep(states[i], steps[i], r);
    }
  }

  lemma {:induction false} HeldOrFinalRun(states: seq<State>, steps: seq<Step>, i: nat, j: nat, r: nat)
    requires Run(states, steps) && i <= j < |states| && HeldOrFinal(states[i], r)
    requires forall k :: i <= k < j ==> !WritesRun(states[k], steps[k], r)
    ensures HeldOrFinal(states[j], r)
  {
    if i < j {
      HeldOrFinalRun(states, steps, i, j - 1, r);
      HeldOrFinalStep(states, steps, j - 1, r);
    }
  }

  /**
   However jobs, the chain, crashes and the routes of other runs go on, a paused run stays paused until a route
   writes it, or becomes final because all its items are settled.
   */
  lemma PauseHolds(states: seq<State>, steps: seq<Step>, i: nat, j: nat, r: nat)
    requires Run(states, steps) && i <= j < |states|
    requires r < |states[i].runs| && states[i].runs[r].status == Paused
    requires forall k :: i <= k < j ==> !WritesRun(states[k], steps[k], r)
    ensures r < |states[j].runs|
    ensures states[j].runs[r].status == Paused || (Final(states[j].runs[r].status) && AllSettled(states[j].items, r))
  {
    HeldOrFinalRun(states, steps, i, j, r);
    RunInv(states, steps, j);
  }

  /** In every run a final status is the verdict on settled items: complete exactly when some item is confirmed. */
  lemma FinalIsTrue(states: seq<State>, steps: seq<Step>, i: nat, r: nat)
    requires Run(states, steps) && i < |states| && r < |states[i].runs| && Final(states[i].runs[r].status)
    ensures AllSettled(states[i].items, r)
    ensures states[i].runs[r].status == Complete <==> SomeConfirmed(states[i].items, r)
  {
    RunInv(states, steps, i);
  }
}
