/** What every run of the payroll worker keeps: exactly-once payment, stable verdicts, conserved money. */
module PayrollSafety {
  import opened Prelude
  import opened PayrollWorker

  predicate MinedOk(c: Chain, tx: Tx) {
    tx in c.mined && c.mined[tx]
  }

  predicate MinedReverted(c: Chain, tx: Tx) {
    tx in c.mined && !c.mined[tx]
  }

  predicate Paid(c: Chain, item: Item) {
    item.txHash.Some? && MinedOk(c, item.txHash.value)
  }

  /** The balance that a transfer was built on, unless the chain has moved past it. */
  predicate BasisOk(c: Chain, basis: nat, funds: int) {
    basis <= c.version && (basis == c.version ==> funds == c.balance)
  }

  predicate TxOk(c: Chain, i: nat, item: Item, tx: Tx) {
    tx.item == i && tx.amount == item.amount && item.amount <= tx.funds && BasisOk(c, tx.basis, tx.funds)
  }

  predicate ItemOk(c: Chain, i: nat, item: Item, proofs: nat) {
    && (item.txHash.Some? ==> TxOk(c, i, item, item.txHash.value))
    && (item.rawTx.Some? ==> item.txHash == item.rawTx)
    && (item.status == Submitted ==> item.txHash.Some?)
    && (item.status == Confirmed ==> Paid(c, item))
    && (item.status == Failed && item.txHash.Some? ==>
          item.txHash.value !in c.accepted || MinedReverted(c, item.txHash.value))
    && proofs <= item.attempt <= MAX_ATTEMPTS
    && (item.valid ==> item.address.Some?)
    && (!item.valid ==> item.status == Failed && item.txHash.None?)
  }

  ghost predicate ItemsOk(st: State) {
    && |st.proofs| == |st.items|
    && (forall i :: 0 <= i < |st.items| ==>
          st.items[i].run < |st.runs| && ItemOk(st.chain, i, st.items[i], st.proofs[i]))
  }

  /** Only a transfer that its item has stored is ever sent, and only a sent one is mined. */
  ghost predicate ChainOk(st: State) {
    && (forall tx :: tx in st.chain.accepted ==> tx.item < |st.items| && st.items[tx.item].txHash == Some(tx))
    && st.chain.mined.Keys <= st.chain.accepted
    && st.chain.balance >= 0
  }

  predicate AllSettled(items: seq<Item>, run: nat) {
    forall i :: 0 <= i < |items| && items[i].run == run ==> Settled(items[i])
  }

  predicate SomeConfirmed(items: seq<Item>, run: nat) {
    exists i :: 0 <= i < |items| && items[i].run == run && items[i].status == Confirmed
  }

  /** A final status is the true verdict on a run whose items are all settled. */
  predicate VerdictOk(items: seq<Item>, run: nat, status: RunStatus) {
    AllSettled(items, run) && status == if SomeConfirmed(items, run) then Complete else RunFailed
  }

  ghost predicate RunsOk(st: State) {
    forall r :: 0 <= r < |st.runs| && Final(st.runs[r].status) ==> VerdictOk(st.items, r, st.runs[r].status)
  }

  /** What the job knows at each of its awaits. */
  predicate WorkerOk(st: State)
    requires InRange(st)
  {
    var w, c := st.worker, st.chain;
    (HasItem(w) ==>
       var item, proofs := st.items[w.item], st.proofs[w.item];
       && !Settled(item)
       && !Final(st.runs[item.run].status)
       && match w
          case Starting(_, attempt) => item.txHash.None? && attempt == item.attempt < MAX_ATTEMPTS
          case Claiming(_, attempt) => item.txHash.None? && attempt == item.attempt < MAX_ATTEMPTS
          case Loading(_, attempt) =>
            item.txHash.None? && item.status == Proving && attempt == item.attempt && proofs < attempt
          case ProofDue(_, attempt, basis, funds) =>
            item.txHash.None? && item.status == Proving && attempt == item.attempt && proofs < attempt
            && BasisOk(c, basis, funds)
          case Signing(_, attempt, basis, funds) =>
            item.txHash.None? && item.status == Proving && attempt == item.attempt
            && BasisOk(c, basis, funds) && item.amount <= funds
          case Persisting(i, attempt, tx) =>
            item.txHash.None? && item.status == Proving && attempt == item.attempt && TxOk(c, i, item, tx)
          case Failing(_, attempt) =>
            attempt == item.attempt && (item.txHash.Some? ==> item.txHash.value !in c.accepted)
          case Refusing(_) => item.txHash.None?
          case Unreconciled(_) => false
          case Marking(_, tx, raw) => item.txHash == Some(tx) && (raw.Some? ==> raw == Some(tx))
          case Sending(_, tx) => item.txHash == Some(tx)
          case Waiting(_, tx) => item.txHash == Some(tx)
          case Reverting(_) => item.txHash.Some? && MinedReverted(c, item.txHash.value)
          case Deferring(_, tx) => item.txHash == Some(tx)
          case Confirming(_, tx) => item.txHash == Some(tx) && MinedOk(c, tx)
          case _ => true)
    && (w.Counting? ==> !Final(st.runs[w.run].status))
    && (w.Finalizing? ==> !Final(st.runs[w.run].status) && VerdictOk(st.items, w.run, w.verdict))
  }

  /** The amounts of a run's items (or of all items) that have been paid. */
  function PaidSum(c: Chain, items: seq<Item>, run: Option<nat>): nat {
    if items == [] then 0
    else
      var last := items[|items| - 1];
      PaidSum(c, items[..|items| - 1], run)
      + if (run.None? || run.value == last.run) && Paid(c, last) then last.amount else 0
  }

  function ValidSum(items: seq<Item>, run: nat): nat {
    if items == [] then 0
    else
      var last := items[|items| - 1];
      ValidSum(items[..|items| - 1], run) + if last.run == run && last.valid then last.amount else 0
  }

  ghost predicate MoneyOk(st: State) {
    && st.funded == st.chain.balance + PaidSum(st.chain, st.items, None)
    && (forall r :: 0 <= r < |st.runs| ==> st.runs[r].total == ValidSum(st.items, r))
  }

  ghost predicate DistinctRecipients(st: State) {
    forall i, j :: 0 <= i < j < |st.items| && st.items[i].valid && st.items[j].valid && st.items[i].run == st.items[j].run
      ==> st.items[i].address != st.items[j].address
  }

  ghost predicate Inv(st: State) {
    InRange(st) && ItemsOk(st) && ChainOk(st) && RunsOk(st) && WorkerOk(st) && MoneyOk(st) && DistinctRecipients(st)
  }

  // ---------- Counting ----------

  /** The places of a run's items with a status. */
  function Places(items: seq<Item>, run: nat, status: ItemStatus): set<nat> {
    set i: nat | i < |items| && items[i].run == run && items[i].status == status
  }

  /** A counter is the number of the run's items with its status. */
  lemma {:induction false} CountIsNumber(items: seq<Item>, run: nat, status: ItemStatus)
    ensures CountStatus(items, run, status) == |Places(items, run, status)|
  {
    if items == [] {
      assert Places(items, run, status) == {};
    } else {
      var front := items[..|items| - 1];
      CountIsNumber(front, run, status);
      PlacesSnoc(items, run, status);
    }
  }

  lemma PlacesSnoc(items: seq<Item>, run: nat, status: ItemStatus)
    requires items != []
    ensures var n := |items| - 1;
            var front := Places(items[..n], run, status);
            n !in front
            && Places(items, run, status) == front + if items[n].run == run && items[n].status == status then {n} else {}
  {
    var n := |items| - 1;
    var front := Places(items[..n], run, status);
    forall i: nat
      ensures i in Places(items, run, status)
              <==> i in front || (i == n && items[n].run == run && items[n].status == status)
    {
      assert i < n ==> items[..n][i] == items[i];
    }
  }

  lemma {:induction false} CountPositive(items: seq<Item>, run: nat, status: ItemStatus)
    ensures CountStatus(items, run, status) > 0
            <==> exists i :: 0 <= i < |items| && items[i].run == run && items[i].status == status
  {
    if items != [] {
      var front, last := items[..|items| - 1], items[|items| - 1];
      CountPositive(front, run, status);
      if CountStatus(front, run, status) > 0 {
        var i :| 0 <= i < |front| && front[i].run == run && front[i].status == status;
        assert items[i] == front[i];
      } else {
        assert forall i :: 0 <= i < |front| ==> front[i] == items[i];
      }
    }
  }

  /** The three counters are zero exactly when the run is settled, and the verdict reads the fourth. */
  lemma CountsDecide(items: seq<Item>, run: nat)
    ensures Unsettled(items, run) <==> !AllSettled(items, run)
    ensures Verdict(items, run) == if SomeConfirmed(items, run) then Complete else RunFailed
  {
    CountPositive(items, run, Pending);
    CountPositive(items, run, Proving);
    CountPositive(items, run, Submitted);
    CountPositive(items, run, Confirmed);
    if !Unsettled(items, run) {
      forall i | 0 <= i < |items| && items[i].run == run ensures Settled(items[i]) {
        assert items[i].status != Pending && items[i].status != Proving && items[i].status != Submitted;
      }
    }
  }

  // ---------- Sums ----------

  /** A change of one item moves the sum by that item's share; a change elsewhere does not. */
  lemma {:induction false} PaidSumChange(c: Chain, items: seq<Item>, c': Chain, items': seq<Item>, run: Option<nat>, i: nat)
    requires |items'| == |items|
    requires forall j :: 0 <= j < |items| && j != i ==> (Paid(c', items'[j]) <==> Paid(c, items[j]))
    requires forall j :: 0 <= j < |items| ==> items'[j].run == items[j].run && items'[j].amount == items[j].amount
    ensures PaidSum(c', items', run) - PaidSum(c, items, run)
            == if i < |items| && (run.None? || run.value == items[i].run)
               then (if Paid(c', items'[i]) then items[i].amount else 0) - (if Paid(c, items[i]) then items[i].amount else 0)
               else 0
  {
    if items != [] {
      var n := |items| - 1;
      assert forall j :: 0 <= j < n ==> items[..n][j] == items[j] && items'[..n][j] == items'[j];
      PaidSumChange(c, items[..n], c', items'[..n], run, i);
    }
  }

  lemma {:induction false} ValidSumSame(items: seq<Item>, items': seq<Item>, run: nat)
    requires |items'| == |items|
    requires forall j :: 0 <= j < |items| ==>
      items'[j].run == items[j].run && items'[j].amount == items[j].amount && items'[j].valid == items[j].valid
    ensures ValidSum(items', run) == ValidSum(items, run)
  {
    if items != [] {
      var n := |items| - 1;
      assert forall j :: 0 <= j < n ==> items[..n][j] == items[j] && items'[..n][j] == items'[j];
      ValidSumSame(items[..n], items'[..n], run);
    }
  }

  lemma {:induction false} PaidWithinValid(c: Chain, items: seq<Item>, run: nat)
    requires forall j :: 0 <= j < |items| && Paid(c, items[j]) ==> items[j].valid
    ensures PaidSum(c, items, Some(run)) <= ValidSum(items, run)
  {
    if items != [] {
      var n := |items| - 1;
      assert forall j :: 0 <= j < n ==> items[..n][j] == items[j];
      PaidWithinValid(c, items[..n], run);
    }
  }

  lemma {:induction false} SumsOfDraft(c: Chain, items: seq<Item>, run: nat, rows: seq<DraftRow>, r: nat)
    requires forall j :: 0 <= j < |items| ==> items[j].run < run
    ensures PaidSum(c, items + NewItems(run, rows), None) == PaidSum(c, items, None)
    ensures ValidSum(items + NewItems(run, rows), r) == (if r == run then DraftTotal(rows) else ValidSum(items, r))
  {
    if rows == [] {
      assert items + NewItems(run, rows) == items;
      if r == run {
        ValidSumOfOthers(items, run);
      }
    } else {
      var n := |rows| - 1;
      SumsOfDraft(c, items, run, rows[..n], r);
      assert (items + NewItems(run, rows))[..|items| + n] == items + NewItems(run, rows[..n]);
    }
  }

  lemma {:induction false} ValidSumOfOthers(items: seq<Item>, run: nat)
    requires forall j :: 0 <= j < |items| ==> items[j].run != run
    ensures ValidSum(items, run) == 0
  {
    if items != [] {
      ValidSumOfOthers(items[..|items| - 1], run);
    }
  }

  // ---------- One step ----------

  lemma CreateItems(st: State, rows: seq<DraftRow>)
    requires InRange(st) && ItemsOk(st) && ChainOk(st) && DistinctRecipients(st) && Draft(rows)
    ensures var st' := Apply(st, CreateRun(rows)); ItemsOk(st') && ChainOk(st') && DistinctRecipients(st')
  {
    var st' := Apply(st, CreateRun(rows));
    var n := |st.items|;
    forall i | 0 <= i < |st'.items|
      ensures st'.items[i].run < |st'.runs| && ItemOk(st'.chain, i, st'.items[i], st'.proofs[i])
    {
      if i < n {
        assert ItemOk(st.chain, i, st.items[i], st.proofs[i]);
      } else {
        assert st'.items[i] == NewItems(|st.runs|, rows)[i - n];
      }
    }
    forall i, j | 0 <= i < j < |st'.items| && st'.items[i].valid && st'.items[j].valid && st'.items[i].run == st'.items[j].run
      ensures st'.items[i].address != st'.items[j].address
    {
      if j >= n {
        assert i >= n;
        assert rows[i - n].address != rows[j - n].address;
      }
    }
  }

  lemma CreateMoney(st: State, rows: seq<DraftRow>)
    requires InRange(st) && ItemsOk(st) && MoneyOk(st) && Draft(rows)
    ensures MoneyOk(Apply(st, CreateRun(rows)))
  {
    var st' := Apply(st, CreateRun(rows));
    forall r | 0 <= r < |st'.runs| ensures st'.runs[r].total == ValidSum(st'.items, r) {
      SumsOfDraft(st.chain, st.items, |st.runs|, rows, r);
    }
    SumsOfDraft(st.chain, st.items, |st.runs|, rows, 0);
  }

  lemma CreateRuns(st: State, rows: seq<DraftRow>)
    requires InRange(st) && ItemsOk(st) && RunsOk(st) && WorkerOk(st) && Draft(rows)
    ensures var st' := Apply(st, CreateRun(rows)); RunsOk(st') && InRange(st') && WorkerOk(st')
  {
    var st' := Apply(st, CreateRun(rows));
    var run, n := |st.runs|, |st.items|;
    forall r | 0 <= r < |st'.runs| && Final(st'.runs[r].status) ensures VerdictOk(st'.items, r, st'.runs[r].status) {
      if r < run {
        VerdictKept(st.items, st'.items, r, st.runs[r].status);
      } else {
        assert forall i :: 0 <= i < |rows| ==> !rows[i].valid;
        assert forall i :: n <= i < |st'.items| ==> st'.items[i] == NewItems(run, rows)[i - n];
      }
    }
    if st.worker.Finalizing? {
      VerdictKept(st.items, st'.items, st.worker.run, st.worker.verdict);
    }
  }

  lemma CreateKeepsInv(st: State, rows: seq<DraftRow>)
    requires Inv(st) && Enabled(st, CreateRun(rows))
    ensures Inv(Apply(st, CreateRun(rows)))
  {
    CreateItems(st, rows);
    CreateMoney(st, rows);
    CreateRuns(st, rows);
  }

  /** Items of other runs, and further items, do not touch a run's verdict. */
  lemma VerdictKept(items: seq<Item>, items': seq<Item>, run: nat, status: RunStatus)
    requires VerdictOk(items, run, status) && |items| <= |items'|
    requires forall i :: 0 <= i < |items| && (items[i].run == run || items'[i].run == run) ==> items'[i] == items[i]
    requires forall i :: |items| <= i < |items'| ==> items'[i].run != run
    ensures VerdictOk(items', run, status)
  {
    if SomeConfirmed(items, run) {
      var i :| 0 <= i < |items| && items[i].run == run && items[i].status == Confirmed;
      assert items'[i].status == Confirmed;
    }
  }

  lemma RouteRuns(st: State, step: Step)
    requires Inv(st) && Enabled(st, step) && (step.CheckRoute? || step.WriteRoute? || step.DropRoute?)
    ensures RunsOk(Apply(st, step)) && InRange(Apply(st, step)) && WorkerOk(Apply(st, step))
  {
  }

  lemma RouteKeepsInv(st: State, step: Step)
    requires Inv(st) && Enabled(st, step) && (step.CheckRoute? || step.WriteRoute? || step.DropRoute?)
    ensures Inv(Apply(st, step))
  {
    RouteRuns(st, step);
  }

  lemma FundKeepsInv(st: State, amount: nat)
    requires Inv(st) && Enabled(st, Fund(amount))
    ensures Inv(Apply(st, Fund(amount)))
  {
    var st' := Apply(st, Fund(amount));
    PaidSumChange(st.chain, st.items, st'.chain, st'.items, None, |st.items|);
  }

  lemma MineItems(st: State, tx: Tx, ok: bool)
    requires InRange(st) && ItemsOk(st) && ChainOk(st) && Enabled(st, Mine(tx, ok))
    ensures var st' := Apply(st, Mine(tx, ok)); ItemsOk(st') && ChainOk(st')
    ensures forall j :: 0 <= j < |st.items| && j != tx.item ==>
      (Paid(Mined(st.chain, tx, ok), st.items[j]) <==> Paid(st.chain, st.items[j]))
  {
    var st' := Apply(st, Mine(tx, ok));
    assert ItemOk(st.chain, tx.item, st.items[tx.item], st.proofs[tx.item]);
    forall j | 0 <= j < |st.items|
      ensures ItemOk(st'.chain, j, st.items[j], st.proofs[j])
      ensures j != tx.item ==> (Paid(st'.chain, st.items[j]) <==> Paid(st.chain, st.items[j]))
    {
      assert ItemOk(st.chain, j, st.items[j], st.proofs[j]);
    }
  }

  /** What is known of a balance and of a transfer stays known when another transfer is mined. */
  lemma MineWorker(st: State, tx: Tx, ok: bool)
    requires InRange(st) && WorkerOk(st) && Enabled(st, Mine(tx, ok))
    ensures InRange(Apply(st, Mine(tx, ok))) && WorkerOk(Apply(st, Mine(tx, ok)))
  {
  }

  lemma MineMoney(st: State, tx: Tx, ok: bool)
    requires InRange(st) && ItemsOk(st) && ChainOk(st) && MoneyOk(st) && Enabled(st, Mine(tx, ok))
    ensures MoneyOk(Apply(st, Mine(tx, ok)))
  {
    var st' := Apply(st, Mine(tx, ok));
    MineItems(st, tx, ok);
    assert ItemOk(st.chain, tx.item, st.items[tx.item], st.proofs[tx.item]);
    PaidSumChange(st.chain, st.items, st'.chain, st'.items, None, tx.item);
  }

  lemma MineKeepsInv(st: State, tx: Tx, ok: bool)
    requires Inv(st) && Enabled(st, Mine(tx, ok))
    ensures Inv(Apply(st, Mine(tx, ok)))
  {
    MineItems(st, tx, ok);
    MineMoney(st, tx, ok);
    MineWorker(st, tx, ok);
  }

  lemma SendItems(st: State, step: Step)
    requires Inv(st) && Enabled(st, step) && (step.SendAccepted? || step.SendUnacknowledged?)
    ensures ItemsOk(Apply(st, step)) && ChainOk(Apply(st, step))
  {
    var st' := Apply(st, step);
    forall j | 0 <= j < |st.items| ensures ItemOk(st'.chain, j, st.items[j], st.proofs[j]) {
      assert ItemOk(st.chain, j, st.items[j], st.proofs[j]);
    }
  }

  lemma SendWorker(st: State, step: Step)
    requires Inv(st) && Enabled(st, step) && (step.SendAccepted? || step.SendUnacknowledged?)
    ensures InRange(Apply(st, step)) && WorkerOk(Apply(st, step)) && RunsOk(Apply(st, step))
  {
  }

  lemma SendKeepsInv(st: State, step: Step)
    requires Inv(st) && Enabled(st, step) && (step.SendAccepted? || step.SendUnacknowledged?)
    ensures Inv(Apply(st, step))
  {
    var st' := Apply(st, step);
    SendItems(st, step);
    SendWorker(st, step);
    PaidSumChange(st.chain, st.items, st'.chain, st'.items, None, |st.items|);
  }

  /** A transfer that its item has not stored yet has not been sent. */
  lemma UnstoredUnsent(st: State, tx: Tx)
    requires ChainOk(st) && tx.item < |st.items| && st.items[tx.item].txHash.None?
    ensures tx !in st.chain.accepted
  {
  }

  /** The item the job holds after its write. */
  lemma WrittenItemOk(st: State)
    requires Inv(st) && Writes(st.worker) && HasItem(st.worker)
    ensures var w := st.worker;
            var item := st.items[w.item];
            var item' := WrittenItem(w, item);
            && ItemOk(st.chain, w.item, item', st.proofs[w.item])
            && item'.run == item.run && item'.amount == item.amount && item'.valid == item.valid
            && item'.address == item.address
            && (item.txHash.Some? ==> item'.txHash == item.txHash)
            && (Paid(st.chain, item') <==> Paid(st.chain, item))
            && (item'.txHash.Some? && item.txHash.None? ==> item'.txHash.value !in st.chain.accepted)
  {
    var w := st.worker;
    assert ItemOk(st.chain, w.item, st.items[w.item], st.proofs[w.item]);
    if w.Persisting? {
      UnstoredUnsent(st, w.tx);
    }
  }

  lemma WriteItems(st: State)
    requires Inv(st) && Writes(st.worker) && HasItem(st.worker)
    ensures ItemsOk(DoWrite(st)) && ChainOk(DoWrite(st)) && DistinctRecipients(DoWrite(st))
  {
    var w, st' := st.worker, DoWrite(st);
    WrittenItemOk(st);
    forall j | 0 <= j < |st.items| ensures ItemOk(st.chain, j, st'.items[j], st.proofs[j]) {
      assert ItemOk(st.chain, j, st.items[j], st.proofs[j]);
    }
    forall tx | tx in st.chain.accepted ensures tx.item < |st'.items| && st'.items[tx.item].txHash == Some(tx) {
      assert st.items[tx.item].txHash == Some(tx);
    }
  }

  lemma WriteMoney(st: State)
    requires Inv(st) && Writes(st.worker) && HasItem(st.worker)
    ensures MoneyOk(DoWrite(st))
  {
    var w, st' := st.worker, DoWrite(st);
    WrittenItemOk(st);
    forall r | 0 <= r < |st.runs| ensures st'.runs[r].total == ValidSum(st'.items, r) {
      ValidSumSame(st.items, st'.items, r);
    }
    PaidSumChange(st.chain, st.items, st'.chain, st'.items, None, w.item);
  }

  lemma WriteRuns(st: State)
    requires Inv(st) && Writes(st.worker) && HasItem(st.worker)
    ensures RunsOk(DoWrite(st))
  {
    var w, st' := st.worker, DoWrite(st);
    var run := st.items[w.item].run;
    assert WrittenItem(w, st.items[w.item]).run == run;
    forall r | 0 <= r < |st.runs| && Final(st'.runs[r].status) ensures VerdictOk(st'.items, r, st'.runs[r].status) {
      assert r != run && st'.runs[r] == st.runs[r];
      VerdictKept(st.items, st'.items, r, st.runs[r].status);
    }
  }

  lemma WriteWorker(st: State)
    requires Inv(st) && Writes(st.worker) && HasItem(st.worker)
    ensures InRange(DoWrite(st)) && WorkerOk(DoWrite(st))
  {
    WrittenItemOk(st);
    assert ItemOk(st.chain, st.worker.item, st.items[st.worker.item], st.proofs[st.worker.item]);
  }

  lemma UnacknowledgedWorker(st: State)
    requires Inv(st) && st.worker.Persisting?
    ensures InRange(Apply(st, WriteUnacknowledged)) && WorkerOk(Apply(st, WriteUnacknowledged))
  {
    WrittenItemOk(st);
    assert ItemOk(st.chain, st.worker.item, st.items[st.worker.item], st.proofs[st.worker.item]);
  }

  lemma WriteKeepsInv(st: State)
    requires Inv(st) && Writes(st.worker) && HasItem(st.worker)
    ensures Inv(DoWrite(st))
    ensures st.worker.Persisting? ==> Inv(Apply(st, WriteUnacknowledged))
  {
    WriteItems(st);
    WriteMoney(st);
    WriteRuns(st);
    WriteWorker(st);
    if st.worker.Persisting? {
      UnacknowledgedWorker(st);
    }
  }

  lemma FinalizeKeepsInv(st: State)
    requires Inv(st) && st.worker.Finalizing?
    ensures Inv(DoWrite(st))
  {
  }

  lemma CountKeepsInv(st: State)
    requires Inv(st) && st.worker.Counting?
    ensures Inv(Apply(st, Count))
  {
    CountsDecide(st.items, st.worker.run);
  }

  /** The invariant of a job that moves on without writing is what it knows at its new await. */
  lemma WorkerMoved(st: State, w: Worker)
    requires Inv(st) && InRange(st.(worker := w)) && WorkerOk(st.(worker := w))
    ensures Inv(st.(worker := w))
  {
  }

  lemma TakeWorker(st: State, i: nat)
    requires InRange(st) && Enabled(st, TakeJob(i)) && ItemOk(st.chain, i, st.items[i], st.proofs[i])
    ensures InRange(st.(worker := Dispatch(st, i))) && WorkerOk(st.(worker := Dispatch(st, i)))
  {
  }

  lemma TakeKeepsInv(st: State, i: nat)
    requires Inv(st) && Enabled(st, TakeJob(i))
    ensures Inv(Apply(st, TakeJob(i)))
  {
    TakeWorker(st, i);
    WorkerMoved(st, Dispatch(st, i));
  }

  predicate MemoryOnly(step: Step) {
    step.Throw? || step.LoadContext? || step.Sign? || step.SendKnown? || step.SendRejected? || step.SeeMined?
    || step.SeeReverted? || step.WaitFails? || step.Crash?
  }

  lemma JobWorker(st: State, step: Step)
    requires InRange(st) && WorkerOk(st) && Enabled(st, step) && MemoryOnly(step)
    ensures var st' := Apply(st, step); st' == st.(worker := st'.worker) && InRange(st') && WorkerOk(st')
  {
  }

  /** Steps that change nothing but the job's memory. */
  lemma JobKeepsInv(st: State, step: Step)
    requires Inv(st) && Enabled(st, step) && MemoryOnly(step)
    ensures Inv(Apply(st, step))
  {
    JobWorker(st, step);
    WorkerMoved(st, Apply(st, step).worker);
  }

  lemma ProverKeepsInv(st: State)
    requires Inv(st) && st.worker.ProofDue?
    ensures Inv(Apply(st, CallProver))
  {
    var st' := Apply(st, CallProver);
    var i := st.worker.item;
    assert ItemOk(st.chain, i, st.items[i], st.proofs[i]);
    assert st' == st.(worker := st'.worker, proofs := st'.proofs);
    assert WorkerOk(st');
  }

  lemma StepKeepsInv(st: State, step: Step)
    requires Inv(st) && Enabled(st, step)
    ensures Inv(Apply(st, step))
  {
    if step.CreateRun? || step.CheckRoute? || step.WriteRoute? || step.DropRoute? || step.Fund? || step.Mine? {
      OutsideKeepsInv(st, step);
    } else {
      WorkerKeepsInv(st, step);
    }
  }

  lemma OutsideKeepsInv(st: State, step: Step)
    requires Inv(st) && Enabled(st, step)
    requires step.CreateRun? || step.CheckRoute? || step.WriteRoute? || step.DropRoute? || step.Fund? || step.Mine?
    ensures Inv(Apply(st, step))
  {
    match step
    case CreateRun(rows) => CreateKeepsInv(st, rows);
    case Fund(amount) => FundKeepsInv(st, amount);
    case Mine(tx, ok) => MineKeepsInv(st, tx, ok);
    case _ => RouteKeepsInv(st, step);
  }

  lemma WorkerKeepsInv(st: State, step: Step)
    requires Inv(st) && Enabled(st, step)
    requires step.TakeJob? || step.Write? || step.WriteUnacknowledged? || step.SendAccepted? || step.SendUnacknowledged?
             || step.Count? || step.CallProver? || MemoryOnly(step)
    ensures Inv(Apply(st, step))
  {
    if step.Write? || step.WriteUnacknowledged? {
      WriteStepKeepsInv(st, step);
    } else {
      CallKeepsInv(st, step);
    }
  }

  lemma WriteStepKeepsInv(st: State, step: Step)
    requires Inv(st) && Enabled(st, step) && (step.Write? || step.WriteUnacknowledged?)
    ensures Inv(Apply(st, step))
  {
    if HasItem(st.worker) {
      WriteKeepsInv(st);
    } else {
      FinalizeKeepsInv(st);
    }
  }

  lemma CallKeepsInv(st: State, step: Step)
    requires Inv(st) && Enabled(st, step)
    requires step.TakeJob? || step.SendAccepted? || step.SendUnacknowledged? || step.Count? || step.CallProver?
             || MemoryOnly(step)
    ensures Inv(Apply(st, step))
  {
    match step
    case TakeJob(i) => TakeKeepsInv(st, i);
    case SendAccepted => SendKeepsInv(st, step);
    case SendUnacknowledged => SendKeepsInv(st, step);
    case Count => CountKeepsInv(st);
    case CallProver => ProverKeepsInv(st);
    case _ => JobKeepsInv(st, step);
  }
}
