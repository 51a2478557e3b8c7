/**
 processPayrollItem as it is written, over the tables it updates. Every write and every answer of the outside
 world is recorded as a step of the worker machine, so a job is a path of that machine and keeps what it keeps.
 */
module PayrollJob {
  import opened Prelude
  import opened PayrollWorker
  import opened PayrollSafety
  import opened PayrollRuns
  import opened PayrollOutcome

  /** Steps taken one after the other, each of them enabled, from a state that keeps the invariant. */
  ghost function Play(st: State, steps: seq<Step>): Option<State> {
    if steps == [] then if Inv(st) then Some(st) else None
    else
      var before := Play(st, steps[..|steps| - 1]);
      var step := steps[|steps| - 1];
      if before.None? || !Enabled(before.value, step) then None else Some(Apply(before.value, step))
  }

  lemma PlayOne(st: State, steps: seq<Step>, step: Step)
    requires Play(st, steps).Some? && Enabled(Play(st, steps).value, step)
    ensures Play(st, steps + [step]) == Some(Apply(Play(st, steps).value, step))
  {
    assert (steps + [step])[..|steps|] == steps;
  }

  lemma {:induction false} PlayGrows(st: State, steps: seq<Step>)
    requires Play(st, steps).Some?
    ensures Inv(st) && Inv(Play(st, steps).value) && Grows(st, Play(st, steps).value)
  {
    if steps == [] {
      GrowsReflexive(st);
    } else {
      var before := Play(st, steps[..|steps| - 1]).value;
      PlayGrows(st, steps[..|steps| - 1]);
      StepKeepsInv(before, steps[|steps| - 1]);
      StepGrows(before, steps[|steps| - 1]);
      GrowsTransitive(st, before, Apply(before, steps[|steps| - 1]));
    }
  }

  /** The item exists and its run may proceed. */
  predicate Runnable(items: seq<Item>, runs: seq<RunRow>, i: nat) {
    i < |items| && items[i].run < |runs| && runs[items[i].run].status in {Running, Ready}
  }

  /** Only the item at an index may have changed. */
  predicate OnlyItem(before: seq<Item>, after: seq<Item>, i: nat)
    requires i < |after|
  {
    |after| == |before| && before[i := after[i]] == after && after[i].run == before[i].run
  }

  /** Only the status of one run may have changed. */
  predicate OnlyRun(before: seq<RunRow>, after: seq<RunRow>, r: nat) {
    |after| == |before| && (after == before || (r < |after| && after == before[r := before[r].(status := after[r].status)]))
  }

  /** An item has a run, and a hash when it is submitted. */
  lemma ItemPlayed(first: State, steps: seq<Step>, i: nat)
    requires Play(first, steps).Some? && i < |Play(first, steps).value.items|
    ensures var st := Play(first, steps).value;
            && st.items[i].run < |st.runs| && (st.items[i].status == Submitted ==> st.items[i].txHash.Some?)
            && (Fresh(st.items[i]) ==> Untried(i, st.items[i], st.chain))
  {
    var st := Play(first, steps).value;
    PlayGrows(first, steps);
    assert ItemOk(st.chain, i, st.items[i], st.proofs[i]);
  }

  lemma Unchanged(items: seq<Item>, i: nat)
    requires i < |items|
    ensures items[i := items[i]] == items
  {
  }

  lemma Overwritten(items: seq<Item>, i: nat, a: Item, b: Item)
    requires i < |items|
    ensures items[i := a][i := b] == items[i := b]
  {
  }

  class PayrollJob {
    var items: seq<Item>
    var runs: seq<RunRow>
    var chain: Chain
    ghost var proofs: seq<nat>
    ghost var funded: int
    ghost const calls: map<nat, RouteCall>
    ghost var worker: Worker
    ghost const first: State
    ghost var trace: seq<Step>

    constructor (st: State)
      requires Inv(st)
      ensures Valid() && first == st && Now() == st && trace == []
    {
      items, runs, chain := st.items, st.runs, st.chain;
      proofs, funded, worker := st.proofs, st.funded, st.worker;
      calls, first, trace := st.calls, st, [];
    }

    ghost function Now(): State
      reads this
    {
      State(items, proofs, runs, chain, worker, funded, calls)
    }

    /** The tables are where the recorded steps lead. */
    ghost predicate Valid()
      reads this
    {
      Play(first, trace) == Some(Now()) && InRange(Now())
    }

    ghost method Record(before: State, step: Step)
      requires Play(first, trace) == Some(before) && Enabled(before, step) && Now() == Apply(before, step)
      modifies this`trace
      ensures Valid() && trace == old(trace) + [step]
    {
      PlayOne(first, trace, step);
      PlayGrows(first, trace + [step]);
      trace := trace + [step];
    }

    /** An answer of the outside moves the job on. */
    ghost method Move(step: Step)
      requires Valid() && Enabled(Now(), step)
      requires var after := Apply(Now(), step);
               after.items == items && after.runs == runs && after.chain == chain && after.calls == calls
      modifies this`trace, this`worker, this`proofs, this`funded
      ensures Valid() && Now() == Apply(old(Now()), step)
    {
      var before := Now();
      var after := Apply(before, step);
      proofs, funded, worker := after.proofs, after.funded, after.worker;
      Record(before, step);
    }

    /** One update of the item the job holds, as the database acknowledges it. */
    method UpdateItem(ghost step: Step, i: nat, item: Item)
      requires Valid() && Writes(worker) && HasItem(worker) && worker.item == i && !worker.Starting?
      requires step == Write || (step == WriteUnacknowledged && worker.Persisting?)
      requires item == WrittenItem(worker, items[i])
      modifies this
      ensures Valid() && Now() == Apply(old(Now()), step)
    {
      ghost var before := Now();
      items := items[i := item];
      worker := Apply(before, step).worker;
      Record(before, step);
    }

    method FinalizeRunIfSettled(run: nat)
      requires Valid() && worker == Counting(run)
      modifies this
      ensures Valid() && worker == Idle && items == old(items) && chain == old(chain)
      ensures run < |old(runs)| && runs == SettledRuns(old(runs), items, run)
    {
      var counts := GetPayrollProgressCounts(items, run);
      Move(Count);
      if counts.pending > 0 || counts.proving > 0 || counts.submitted > 0 {
        return;
      }
      var nextStatus := if counts.confirmed > 0 then Complete else RunFailed;
      ghost var before := Now();
      runs := runs[run := runs[run].(status := nextStatus)];
      worker := Idle;
      Record(before, Write);
    }

    /** The network receives the stored transfer; it tells the job, or fails to. */
    method SubmitPreparedTransfer(i: nat, tx: Tx, send: Send) returns (threw: bool)
      requires Valid() && worker == Sending(i, tx)
      modifies this
      ensures Valid() && items == old(items) && runs == old(runs)
      ensures threw <==> send == Rejected || send == AcceptedUnseen
      ensures worker == if threw then Deferring(i, tx) else Waiting(i, tx)
      ensures chain == if send == Accepted || send == AcceptedUnseen then Taken(old(chain), tx) else old(chain)
    {
      threw := send == Rejected || send == AcceptedUnseen;
      if send == Accepted || send == AcceptedUnseen {
        ghost var before := Now();
        chain := chain.(accepted := chain.accepted + {tx});
        worker := if send == Accepted then Waiting(i, tx) else Deferring(i, tx);
        Record(before, if send == Accepted then SendAccepted else SendUnacknowledged);
      } else {
        Move(if send == AlreadyKnown then SendKnown else SendRejected);
      }
    }

    /** The chain may mine the transfer while the job waits for it. */
    method WaitForConfirmations(i: nat, tx: Tx, world: World) returns (outcome: Option<bool>)
      requires Valid() && worker == Waiting(i, tx)
      modifies this
      ensures Valid() && items == old(items) && runs == old(runs)
      ensures chain == Waited(old(chain), tx, world)
      ensures outcome.None? <==> world.gaveUp || tx !in chain.mined
      ensures outcome.Some? ==> chain.mined[tx] == outcome.value
      ensures worker == if outcome == Some(true) then Confirming(i, tx)
                        else if outcome == Some(false) then Reverting(i) else Deferring(i, tx)
    {
      if world.mined.Some? && tx in chain.accepted && tx !in chain.mined
         && (world.mined.value ==> tx.basis == chain.version) {
        ghost var before := Now();
        chain := Mined(chain, tx, world.mined.value);
        Record(before, Mine(tx, world.mined.value));
      }
      if world.gaveUp || tx !in chain.mined {
        Move(WaitFails);
        return None;
      }
      outcome := Some(chain.mined[tx]);
      Move(if chain.mined[tx] then SeeMined else SeeReverted);
    }

    method MarkSubmitted(i: nat, tx: Tx, raw: Option<Tx>)
      requires Valid() && worker == Marking(i, tx, raw)
      modifies this
      ensures Valid() && i < |items| == |old(items)| && chain == old(chain) && runs == old(runs)
      ensures worker == if raw.Some? then Sending(i, tx) else Waiting(i, tx)
      ensures items == old(items)[i := Marked(old(items)[i], tx, raw)]
    {
      var item := items[i];
      UpdateItem(Write, i, item.(status := Submitted, txHash := Some(tx), rawTx := if raw.Some? then raw else item.rawTx));
    }

    method MarkConfirmed(i: nat, tx: Tx)
      requires Valid() && worker == Confirming(i, tx)
      modifies this
      ensures Valid() && i < |items| == |old(items)| && chain == old(chain) && runs == old(runs)
      ensures worker == Counting(items[i].run)
      ensures items == old(items)[i := Ended(old(items)[i], tx, Some(true))]
    {
      UpdateItem(Write, i, items[i].(confirmationAttempt := 0, status := Confirmed, rawTx := None, txHash := Some(tx)));
    }

    method MarkItemFailed(i: nat)
      requires Valid() && (worker == Reverting(i) || worker == Refusing(i))
      modifies this
      ensures Valid() && i < |items| == |old(items)| && chain == old(chain) && runs == old(runs)
      ensures worker == Counting(items[i].run)
      ensures items == old(items)[i := old(items)[i].(status := Failed, rawTx := None)]
    {
      UpdateItem(Write, i, items[i].(status := Failed, rawTx := None));
    }

    method DeferItem(i: nat, tx: Tx)
      requires Valid() && worker == Deferring(i, tx)
      modifies this
      ensures Valid() && i < |items| == |old(items)| && chain == old(chain) && runs == old(runs)
      ensures worker == Idle
      ensures items == old(items)[i := Ended(old(items)[i], tx, None)]
    {
      UpdateItem(Write, i, items[i].(confirmationAttempt := items[i].confirmationAttempt + 1, status := Submitted,
                                     txHash := Some(tx)));
    }

    /** Send the transfer if the job still holds it, then wait for it. */
    method SendAndWait(i: nat, tx: Tx, raw: Option<Tx>, world: World) returns (outcome: Option<bool>)
      requires Valid() && worker == if raw.Some? then Sending(i, tx) else Waiting(i, tx)
      modifies this
      ensures Valid() && items == old(items) && runs == old(runs)
      ensures (chain, outcome) == Reached(old(chain), tx, raw, world)
      ensures worker == if outcome == Some(true) then Confirming(i, tx)
                        else if outcome == Some(false) then Reverting(i) else Deferring(i, tx)
    {
      if raw.Some? {
        var threw := SubmitPreparedTransfer(i, tx, world.send);
        if threw {
          return None;
        }
      }
      outcome := WaitForConfirmations(i, tx, world);
    }

    /** A confirmed transfer settles its item, and perhaps its run. */
    method SettlePaid(i: nat, tx: Tx)
      requires Valid() && worker == Confirming(i, tx)
      modifies this
      ensures Valid() && worker == Idle && i < |items| == |old(items)| && chain == old(chain)
      ensures items == old(items)[i := Ended(old(items)[i], tx, Some(true))]
      ensures items[i].run < |old(runs)| && runs == SettledRuns(old(runs), items, items[i].run)
    {
      MarkConfirmed(i, tx);
      FinalizeRunIfSettled(items[i].run);
    }

    /** So does one that was reverted, or an item that cannot be tried. */
    method SettleFailed(i: nat)
      requires Valid() && (worker == Reverting(i) || worker == Refusing(i))
      modifies this
      ensures Valid() && worker == Idle && i < |items| == |old(items)| && chain == old(chain)
      ensures items == old(items)[i := old(items)[i].(status := Failed, rawTx := None)]
      ensures items[i].run < |old(runs)| && runs == SettledRuns(old(runs), items, items[i].run)
    {
      MarkItemFailed(i);
      FinalizeRunIfSettled(items[i].run);
    }

    /** What the wait came to: settled either way, or to be tried again. */
    method SettleOutcome(i: nat, tx: Tx, outcome: Option<bool>)
      requires Valid() && worker == if outcome == Some(true) then Confirming(i, tx)
                                    else if outcome == Some(false) then Reverting(i) else Deferring(i, tx)
      modifies this
      ensures Valid() && worker == Idle && i < |items| == |old(items)| && chain == old(chain)
      ensures items == old(items)[i := Ended(old(items)[i], tx, outcome)]
      ensures items[i].run < |old(runs)|
              && runs == if outcome.None? then old(runs) else SettledRuns(old(runs), items, items[i].run)
    {
      if outcome.None? {
        DeferItem(i, tx);
      } else if outcome.value {
        SettlePaid(i, tx);
      } else {
        SettleFailed(i);
      }
    }

    /** The item ends confirmed, failed after a revert, or submitted for a later try, in which case the job throws. */
    method ConfirmSubmittedItem(i: nat, tx: Tx, raw: Option<Tx>, world: World) returns (threw: bool)
      requires Valid() && worker == Marking(i, tx, raw)
      modifies this
      ensures Valid() && worker == Idle && i < |items| == |old(items)|
      ensures var ended := Confirmation(old(items)[i], old(chain), tx, raw, world);
              items == old(items)[i := ended.0] && chain == ended.1
      ensures threw <==> !Settled(items[i])
      ensures items[i].run < |old(runs)|
              && runs == if threw then old(runs) else SettledRuns(old(runs), items, items[i].run)
    {
      MarkSubmitted(i, tx, raw);
      var outcome := SendAndWait(i, tx, raw, world);
      threw := outcome.None?;
      SettleOutcome(i, tx, outcome);
    }

    /** The catch branch of preparing a transfer: failed for good on the last try, otherwise pending again. */
    method FailAttempt(i: nat, attempt: nat) returns (threw: bool)
      requires Valid() && worker == Failing(i, attempt)
      modifies this
      ensures Valid() && worker == Idle && i < |items| == |old(items)| && chain == old(chain)
      ensures threw <==> attempt < MAX_ATTEMPTS
      ensures items == old(items)[i := old(items)[i].(status := if threw then Pending else Failed)]
      ensures items[i].run < |old(runs)| && runs == SettledRuns(old(runs), items, items[i].run)
    {
      UpdateItem(Write, i, items[i].(status := if attempt >= MAX_ATTEMPTS then Failed else Pending));
      FinalizeRunIfSettled(items[i].run);
      threw := attempt < MAX_ATTEMPTS;
    }

    /** Mark the run as running, unless it has just been paused. */
    method MarkRunning(i: nat, attempt: nat)
      requires Valid() && worker == Starting(i, attempt)
      modifies this
      ensures Valid() && i < |items| && items == old(items) && chain == old(chain)
      ensures worker == Claiming(i, attempt)
      ensures items[i].run < |old(runs)| && runs == StartedRuns(old(runs), items[i].run)
    {
      var run := items[i].run;
      ghost var before := Now();
      if runs[run].status == Ready || runs[run].status == Running {
        runs := runs[run := runs[run].(status := Running)];
      }
      worker := Claiming(i, attempt);
      assert items == items[i := items[i]];
      Record(before, Write);
    }

    /** Take the next attempt of the item. */
    method ClaimItem(i: nat, attempt: nat)
      requires Valid() && worker == Claiming(i, attempt) && i < |items| && items[i].attempt == attempt
      modifies this
      ensures Valid() && i < |items| == |old(items)| && chain == old(chain) && runs == old(runs)
      ensures worker == Loading(i, attempt + 1)
      ensures items == old(items)[i := Claim(old(items)[i])]
    {
      UpdateItem(Write, i, items[i].(attempt := attempt + 1, status := Proving));
    }

    /** The write that stores the signed transfer before it is ever sent. */
    method StoreTransfer(i: nat, attempt: nat, tx: Tx, ack: Ack) returns (prepared: Option<Tx>)
      requires Valid() && worker == Persisting(i, attempt, tx)
      modifies this
      ensures Valid()
      ensures worker == if prepared.Some? then Marking(i, tx, Some(tx)) else Failing(i, attempt)
      ensures prepared == if ack == Stored then Some(tx) else None
      ensures i < |old(items)| && chain == old(chain) && runs == old(runs)
      ensures items == if ack == Refused then old(items)
                       else old(items)[i := old(items)[i].(status := Submitted, rawTx := Some(tx), txHash := Some(tx))]
    {
      if ack == Refused {
        Move(Throw);
        return None;
      }
      UpdateItem(if ack == Stored then Write else WriteUnacknowledged, i,
                 items[i].(status := Submitted, rawTx := Some(tx), txHash := Some(tx)));
      prepared := if ack == Stored then Some(tx) else None;
    }

    /** Load the balance, prove, sign and store: a signed transfer, or an error. */
    method PrepareTransfer(i: nat, attempt: nat, prepare: Prepare) returns (prepared: Option<Tx>)
      requires Valid() && worker == Loading(i, attempt)
      modifies this
      ensures Valid()
      ensures worker == if prepared.Some? then Marking(i, prepared.value, prepared) else Failing(i, attempt)
      ensures i < |items| == |old(items)| && chain == old(chain) && runs == old(runs)
      ensures (items, prepared) == (old(items)[i := Preparing(i, old(items)[i], old(chain), prepare).0],
                                    Preparing(i, old(items)[i], old(chain), prepare).1)
      ensures prepared.Some? <==> prepare.Signed? && prepare.ack == Stored && old(chain).balance >= old(items)[i].amount
      ensures prepared.Some? ==> items[i].txHash == prepared && items[i].rawTx == prepared
                                 && prepared.value.amount == old(items)[i].amount
                                 && prepared.value.funds == old(chain).balance >= prepared.value.amount
    {
      Unchanged(items, i);
      if prepare.ContextFails? {
        Move(Throw);
        return None;
      }
      var basis, funds, amount := chain.version, chain.balance, items[i].amount;
      Prove(i, attempt);
      if funds < amount {
        return None;
      }
      if !prepare.Signed? {
        Move(Throw);
        return None;
      }
      var tx := Tx(i, amount, basis, funds, prepare.nonce);
      Move(Sign(prepare.nonce));
      prepared := StoreTransfer(i, attempt, tx, prepare.ack);
    }

    /** Load the treasury's balance and call the prover, which refuses an amount above it. */
    ghost method Prove(i: nat, attempt: nat)
      requires Valid() && worker == Loading(i, attempt)
      modifies this`trace, this`worker, this`proofs, this`funded
      ensures Valid() && i < |items|
      ensures worker == if chain.balance < items[i].amount then Failing(i, attempt)
                        else Signing(i, attempt, chain.version, chain.balance)
    {
      Move(LoadContext);
      Move(CallProver);
    }

    /** Take the next attempt, up to a signed and stored transfer. */
    method StartAttempt(i: nat, attempt: nat, prepare: Prepare) returns (prepared: Option<Tx>)
      requires Valid() && worker == Starting(i, attempt) && i < |items| && items[i].attempt == attempt
      modifies this
      ensures Valid() && chain == old(chain) && i < |items| == |old(items)|
      ensures worker == if prepared.Some? then Marking(i, prepared.value, prepared) else Failing(i, attempt + 1)
      ensures (items, prepared) == (old(items)[i := Preparing(i, Claim(old(items)[i]), old(chain), prepare).0],
                                    Preparing(i, Claim(old(items)[i]), old(chain), prepare).1)
      ensures items[i].run < |old(runs)| && runs == StartedRuns(old(runs), items[i].run)
    {
      ghost var before := items;
      MarkRunning(i, attempt);
      ClaimItem(i, attempt);
      prepared := PrepareTransfer(i, attempt + 1, prepare);
      Overwritten(before, i, Claim(before[i]), items[i]);
    }

    method AttemptTransfer(i: nat, attempt: nat, world: World) returns (threw: bool)
      requires Valid() && worker == Starting(i, attempt) && i < |items| && items[i].attempt == attempt
      modifies this
      ensures Valid() && worker == Idle && i < |items| == |old(items)|
      ensures var ended := Attempted(i, old(items)[i], old(chain), world);
              items == old(items)[i := ended.0] && chain == ended.1
      ensures threw <==> !Settled(items[i])
      ensures items[i].run < |old(runs)|
              && runs == SettledRuns(StartedRuns(old(runs), items[i].run), items, items[i].run)
    {
      ghost var before := items;
      var prepared := StartAttempt(i, attempt, world.prepare);
      ghost var claimed := items[i];
      if prepared.None? {
        threw := FailAttempt(i, attempt + 1);
      } else {
        threw := ConfirmSubmittedItem(i, prepared.value, prepared, world);
        if threw {
          OpenRun(runs, items, i);
        }
      }
      Overwritten(before, i, claimed, items[i]);
    }

    /**
     One job, with nothing else between its steps but the answers of the outside. It leaves a run that may not
     proceed alone; otherwise it throws, so that the queue retries it, exactly when the item is not settled yet. What
     becomes of the item, of the treasury and of the run is said by the item, the chain and the answers alone.
     */
    method ProcessPayrollItem(i: nat, world: World) returns (threw: bool)
      requires Valid() && worker == Idle
      modifies this
      ensures Valid() && worker == Idle
      ensures !Runnable(old(items), old(runs), i) ==>
                !threw && items == old(items) && runs == old(runs) && chain == old(chain)
      ensures Runnable(old(items), old(runs), i) ==>
                i < |items| && (threw <==> !Settled(items[i]))
                && OnlyItem(old(items), items, i) && OnlyRun(old(runs), runs, items[i].run)
      // A settled item only has its run counted.
      ensures Runnable(old(items), old(runs), i) && Settled(old(items)[i]) ==> items == old(items) && chain == old(chain)
      // An item that cannot be tried fails.
      ensures Runnable(old(items), old(runs), i) && !Settled(old(items)[i]) && old(items)[i].txHash.None?
              && (old(items)[i].address.None? || old(items)[i].attempt >= 5) ==>
                items[i].status == Failed && items[i].txHash.None? && chain == old(chain)
      // Without a signed and stored transfer the try is lost.
      ensures Runnable(old(items), old(runs), i) && Fresh(old(items)[i])
              && !(world.prepare.Signed? && world.prepare.ack == Stored && old(chain).balance >= old(items)[i].amount) ==>
                chain == old(chain) && items[i].attempt == old(items)[i].attempt + 1
                && items[i].status == if old(items)[i].attempt + 1 < 5 then Pending else Failed
      // With one, the network and the chain decide.
      ensures Runnable(old(items), old(runs), i) && Fresh(old(items)[i])
              && world.prepare.Signed? && world.prepare.ack == Stored && old(chain).balance >= old(items)[i].amount ==>
                && items[i].txHash == Some(Tx(i, old(items)[i].amount, old(chain).version, old(chain).balance,
                                              world.prepare.nonce))
                && Counted(old(items)[i], items[i], items[i].txHash)
                && items[i].status == (if world.send != Accepted || world.mined.None? || world.gaveUp then Submitted
                                       else if world.mined.value then Confirmed else Failed)
                && chain.balance == old(chain).balance - (if world.send == Accepted && world.mined == Some(true)
                                                          then old(items)[i].amount else 0)
      // A transfer stored by an earlier job is the one that is sent and waited for.
      ensures Runnable(old(items), old(runs), i) && !Settled(old(items)[i]) && old(items)[i].txHash.Some? ==>
                ResumedAs(old(items)[i], old(chain), world, items[i], chain)
      // The run is settled when all its items are; until then a try makes it running.
      ensures Runnable(old(items), old(runs), i) ==>
                var r := items[i].run;
                runs[r].status == if AllSettled(items, r) then (if SomeConfirmed(items, r) then Complete else RunFailed)
                                  else if Fresh(old(items)[i]) then Running else old(runs)[r].status
    {
      threw := false;
      if i >= |items| {
        return;
      }
      TakeItem(i);
      var run := runs[items[i].run];
      if run.status == Paused || (run.status != Running && run.status != Ready) {
        return;
      }
      ghost var item, c, before, r := items[i], chain, runs, items[i].run;
      threw := ActOnItem(i, world);
      JobMeans(i, item, c, world);
      RunMeans(before, items, r, Fresh(item));
    }

    /** The item and its run are loaded. */
    ghost method TakeItem(i: nat)
      requires Valid() && worker == Idle && i < |items|
      modifies this`trace, this`worker, this`proofs, this`funded
      ensures Valid() && items[i].run < |runs| && worker == Dispatch(Now(), i)
      ensures items[i].status == Submitted ==> items[i].txHash.Some?
      ensures Fresh(items[i]) ==> Untried(i, items[i], chain)
    {
      ItemPlayed(first, trace, i);
      Move(TakeJob(i));
    }

    /** The branches on the item, once its run may proceed. */
    method ActOnItem(i: nat, world: World) returns (threw: bool)
      requires Valid() && Runnable(items, runs, i) && worker == Dispatch(Now(), i)
      requires items[i].status == Submitted ==> items[i].txHash.Some?
      modifies this
      ensures Valid() && worker == Idle && i < |items| == |old(items)| && (threw <==> !Settled(items[i]))
      ensures var ended := AfterJob(i, old(items)[i], old(chain), world);
              items == old(items)[i := ended.0] && chain == ended.1
      ensures items[i].run < |old(runs)|
              && runs == SettledRuns(if Fresh(old(items)[i]) then StartedRuns(old(runs), items[i].run) else old(runs),
                                     items, items[i].run)
    {
      threw := false;
      var item := items[i];
      if item.status == Confirmed || item.status == Failed {
        Unchanged(items, i);
        FinalizeRunIfSettled(item.run);
      } else if item.status == Submitted || item.txHash.Some? {
        // A submitted item has a hash: PayrollRuns.PaysAtMostOnce. So no item is left unreconciled here.
        threw := ResumeItem(i, item.txHash.value, world);
      } else if item.address.None? || item.attempt >= MAX_ATTEMPTS {
        SettleFailed(i);
      } else {
        threw := AttemptTransfer(i, item.attempt, world);
      }
    }

    method ResumeItem(i: nat, tx: Tx, world: World) returns (threw: bool)
      requires Valid() && i < |items| && items[i].txHash == Some(tx) && worker == Marking(i, tx, items[i].rawTx)
      modifies this
      ensures Valid() && worker == Idle && i < |items| == |old(items)| && (threw <==> !Settled(items[i]))
      ensures var ended := Confirmation(old(items)[i], old(chain), tx, old(items)[i].rawTx, world);
              items == old(items)[i := ended.0] && chain == ended.1
      ensures items[i].run < |old(runs)| && runs == SettledRuns(old(runs), items, items[i].run)
    {
      threw := ConfirmSubmittedItem(i, tx, items[i].rawTx, world);
      if threw {
        OpenRun(runs, items, i);
      }
    }
  }
}
