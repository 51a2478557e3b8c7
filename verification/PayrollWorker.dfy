/**
 The payroll worker as a step machine: one step for every await of processPayrollItem,
 confirmSubmittedItem and finalizeRunIfSettled, two for every route that changes a run (its check and its
 write), and one for every move of the chain. A job holds its organisation's lock, so at most one job of the
 organisation is under way; it may crash before any of its steps, which releases the lock and loses the
 job's memory.
 */
module PayrollWorker {
  import opened Prelude

  const MAX_ATTEMPTS: nat := 5

  type Address = string

  datatype ItemStatus = Pending | Proving | Submitted | Confirmed | Failed

  datatype RunStatus = Ready | Running | Paused | Complete | RunFailed

  /**
   A signed transfer. Its hash identifies it, so the model uses the transfer as its own hash. It was built
   for one item from the treasury balance `funds`, which the chain held at its state `basis`.
   */
  datatype Tx = Tx(item: nat, amount: nat, basis: nat, funds: int, nonce: nat)

  datatype Item = Item(
    run: nat, amount: nat, address: Option<Address>, valid: bool, status: ItemStatus, attempt: nat,
    confirmationAttempt: nat, txHash: Option<Tx>, rawTx: Option<Tx>)

  datatype RunRow = RunRow(status: RunStatus, total: nat)

  /** The treasury's encrypted balance, its version, and the transfers the network has seen and mined. */
  datatype Chain = Chain(balance: int, version: nat, accepted: set<Tx>, mined: map<Tx, bool>)

  /** A validated row of a payroll draft: what the intake route stores. */
  datatype DraftRow = DraftRow(amount: nat, address: Option<Address>, valid: bool)

  /** The next await of the job that holds the lock. */
  datatype Worker =
    | Idle
    | Starting(item: nat, attempt: nat)
    | Claiming(item: nat, attempt: nat)
    | Loading(item: nat, attempt: nat)
    | ProofDue(item: nat, attempt: nat, basis: nat, funds: int)
    | Signing(item: nat, attempt: nat, basis: nat, funds: int)
    | Persisting(item: nat, attempt: nat, tx: Tx)
    | Failing(item: nat, attempt: nat)
    | Refusing(item: nat)
    | Unreconciled(item: nat)
    | Marking(item: nat, tx: Tx, raw: Option<Tx>)
    | Sending(item: nat, tx: Tx)
    | Waiting(item: nat, tx: Tx)
    | Reverting(item: nat)
    | Deferring(item: nat, tx: Tx)
    | Confirming(item: nat, tx: Tx)
    | Counting(run: nat)
    | Finalizing(run: nat, verdict: RunStatus)

  datatype Route = Start | Pause | Resume

  /** A call of a route that has read its run and passed the check, and has not written yet. */
  datatype RouteCall = RouteCall(route: Route, run: nat)

  /**
   `proofs` counts the prover calls of each item; `funded` is everything ever paid into the treasury; `calls` are
   the route calls between their check and their write.
   */
  datatype State = State(
    items: seq<Item>, proofs: seq<nat>, runs: seq<RunRow>, chain: Chain, worker: Worker, funded: int,
    calls: map<nat, RouteCall>)

  datatype Step =
    | CreateRun(rows: seq<DraftRow>)
    | CheckRoute(call: nat, route: Route, run: nat)
    | WriteRoute(call: nat)
    | DropRoute(call: nat)
    | Fund(amount: nat)
    | Mine(tx: Tx, ok: bool)
    | TakeJob(item: nat)
    | Write
    | WriteUnacknowledged
    | Throw
    | LoadContext
    | CallProver
    | Sign(nonce: nat)
    | SendAccepted
    | SendKnown
    | SendRejected
    | SendUnacknowledged
    | SeeMined
    | SeeReverted
    | WaitFails
    | Count
    | Crash

  predicate Settled(item: Item) {
    item.status == Confirmed || item.status == Failed
  }

  predicate Final(status: RunStatus) {
    status == Complete || status == RunFailed
  }

  /** The check of a route on the status it has read. */
  predicate Accepts(route: Route, status: RunStatus) {
    match route
    case Start => status in {Ready, Paused, Running}
    case Pause => !Final(status)
    case Resume => status == Paused
  }

  /** The status a route writes, whatever the run's status is by then. */
  function Writing(route: Route): RunStatus {
    if route == Pause then Paused else Running
  }

  function CountStatus(items: seq<Item>, run: nat, status: ItemStatus): nat {
    if items == [] then 0
    else
      var last := items[|items| - 1];
      CountStatus(items[..|items| - 1], run, status) + if last.run == run && last.status == status then 1 else 0
  }

  predicate Unsettled(items: seq<Item>, run: nat) {
    CountStatus(items, run, Pending) > 0 || CountStatus(items, run, Proving) > 0 || CountStatus(items, run, Submitted) > 0
  }

  function Verdict(items: seq<Item>, run: nat): RunStatus {
    if CountStatus(items, run, Confirmed) > 0 then Complete else RunFailed
  }

  function NewItems(run: nat, rows: seq<DraftRow>): (items: seq<Item>)
    ensures |items| == |rows|
  {
    seq(|rows|, i requires 0 <= i < |rows| =>
      Item(run, rows[i].amount, rows[i].address, rows[i].valid, if rows[i].valid then Pending else Failed, 0, 0, None, None))
  }

  function DraftTotal(rows: seq<DraftRow>): nat {
    if rows == [] then 0
    else DraftTotal(rows[..|rows| - 1]) + if rows[|rows| - 1].valid then rows[|rows| - 1].amount else 0
  }

  /** The intake route only accepts rows with a recipient, and a recipient once. */
  ghost predicate Draft(rows: seq<DraftRow>) {
    && (forall i :: 0 <= i < |rows| && rows[i].valid ==> rows[i].address.Some?)
    && (forall i, j :: 0 <= i < j < |rows| && rows[i].valid && rows[j].valid ==> rows[i].address != rows[j].address)
  }

  /** The next await after the item and its run have been loaded. */
  function Dispatch(st: State, i: nat): Worker
    requires i < |st.items| && st.items[i].run < |st.runs|
  {
    var item, run := st.items[i], st.runs[st.items[i].run];
    if run.status == Paused then Idle
    else if run.status != Running && run.status != Ready then Idle
    else if Settled(item) then Counting(item.run)
    else if item.status == Submitted || item.txHash.Some? then
      if item.txHash.None? then Unreconciled(i) else Marking(i, item.txHash.value, item.rawTx)
    else if item.address.None? then Refusing(i)
    else if item.attempt >= MAX_ATTEMPTS then Refusing(i)
    else Starting(i, item.attempt)
  }

  predicate HasItem(w: Worker) {
    !w.Idle? && !w.Counting? && !w.Finalizing?
  }

  predicate InRange(st: State) {
    var w := st.worker;
    && |st.proofs| == |st.items|
    && (HasItem(w) ==> w.item < |st.items| && st.items[w.item].run < |st.runs|)
    && (w.Counting? || w.Finalizing? ==> w.run < |st.runs|)
  }

  predicate Writes(w: Worker) {
    w.Starting? || w.Claiming? || w.Persisting? || w.Failing? || w.Refusing? || w.Unreconciled? || w.Marking?
    || w.Reverting? || w.Deferring? || w.Confirming? || w.Finalizing?
  }

  ghost predicate Enabled(st: State, step: Step) {
    var w := st.worker;
    && InRange(st)
    && match step
       case CreateRun(rows) => Draft(rows)
       case CheckRoute(call, route, r) => call !in st.calls && r < |st.runs| && Accepts(route, st.runs[r].status)
       case WriteRoute(call) => call in st.calls && st.calls[call].run < |st.runs|
       case DropRoute(call) => call in st.calls
       case Fund(_) => true
       case Mine(tx, ok) =>
         tx in st.chain.accepted && tx !in st.chain.mined && (ok ==> tx.basis == st.chain.version)
       case TakeJob(i) => w.Idle? && i < |st.items| && st.items[i].run < |st.runs|
       case Write => Writes(w)
       case WriteUnacknowledged => w.Persisting?
       case Throw => w.Loading? || w.ProofDue? || w.Signing? || w.Persisting?
       case LoadContext => w.Loading?
       case CallProver => w.ProofDue?
       case Sign(_) => w.Signing?
       case SendAccepted => w.Sending?
       case SendKnown => w.Sending?
       case SendRejected => w.Sending?
       case SendUnacknowledged => w.Sending?
       case SeeMined => w.Waiting? && w.tx in st.chain.mined && st.chain.mined[w.tx]
       case SeeReverted => w.Waiting? && w.tx in st.chain.mined && !st.chain.mined[w.tx]
       case WaitFails => w.Waiting?
       case Count => w.Counting?
       case Crash => true
  }

  /** The item's columns after the write that the job is about to make. */
  function WrittenItem(w: Worker, item: Item): Item
    requires Writes(w) && HasItem(w)
  {
    match w
    case Claiming(_, attempt) => item.(attempt := attempt + 1, status := Proving)
    case Persisting(_, _, tx) => item.(status := Submitted, rawTx := Some(tx), txHash := Some(tx))
    case Failing(_, attempt) => item.(status := if attempt >= MAX_ATTEMPTS then Failed else Pending)
    case Refusing(_) => item.(status := Failed, rawTx := None)
    case Unreconciled(_) => item.(status := Submitted)
    case Marking(_, tx, raw) =>
      item.(status := Submitted, txHash := Some(tx), rawTx := if raw.Some? then raw else item.rawTx)
    case Reverting(_) => item.(status := Failed, rawTx := None)
    case Deferring(_, tx) =>
      item.(confirmationAttempt := item.confirmationAttempt + 1, status := Submitted, txHash := Some(tx))
    case Confirming(_, tx) => item.(confirmationAttempt := 0, status := Confirmed, rawTx := None, txHash := Some(tx))
    case Starting(_, _) => item
  }

  /** The next await after the write has been acknowledged. */
  function AfterWrite(w: Worker, run: nat): Worker
    requires Writes(w)
  {
    match w
    case Starting(i, attempt) => Claiming(i, attempt)
    case Claiming(i, attempt) => Loading(i, attempt + 1)
    case Persisting(i, _, tx) => Marking(i, tx, Some(tx))
    case Failing(_, _) => Counting(run)
    case Refusing(_) => Counting(run)
    case Unreconciled(_) => Idle
    case Marking(i, tx, raw) => if raw.Some? then Sending(i, tx) else Waiting(i, tx)
    case Reverting(_) => Counting(run)
    case Deferring(_, _) => Idle
    case Confirming(_, _) => Counting(run)
    case Finalizing(_, _) => Idle
  }

  function SetRun(st: State, r: nat, status: RunStatus): State
    requires r < |st.runs|
  {
    st.(runs := st.runs[r := st.runs[r].(status := status)])
  }

  function DoWrite(st: State): State
    requires InRange(st) && Writes(st.worker)
  {
    var w := st.worker;
    if w.Finalizing? then SetRun(st, w.run, w.verdict).(worker := Idle)
    else
      var run := st.items[w.item].run;
      var written := st.(items := st.items[w.item := WrittenItem(w, st.items[w.item])], worker := AfterWrite(w, run));
      if w.Starting? && (st.runs[run].status == Ready || st.runs[run].status == Running)
      then SetRun(written, run, Running)
      else written
  }

  /** The network takes the transfer once; it succeeds only against the balance it was built on. */
  function Mined(c: Chain, tx: Tx, ok: bool): Chain {
    if ok then c.(balance := c.balance - tx.amount, version := c.version + 1, mined := c.mined[tx := true])
    else c.(mined := c.mined[tx := false])
  }

  ghost function Apply(st: State, step: Step): State
    requires Enabled(st, step)
  {
    var w := st.worker;
    match step
    case CreateRun(rows) =>
      var status := if exists i :: 0 <= i < |rows| && rows[i].valid then Ready else RunFailed;
      st.(items := st.items + NewItems(|st.runs|, rows), proofs := st.proofs + seq(|rows|, _ => 0),
          runs := st.runs + [RunRow(status, DraftTotal(rows))])
    case CheckRoute(call, route, r) => st.(calls := st.calls[call := RouteCall(route, r)])
    case WriteRoute(call) =>
      SetRun(st, st.calls[call].run, Writing(st.calls[call].route)).(calls := st.calls - {call})
    case DropRoute(call) => st.(calls := st.calls - {call})
    case Fund(amount) =>
      st.(chain := st.chain.(balance := st.chain.balance + amount, version := st.chain.version + 1),
          funded := st.funded + amount)
    case Mine(tx, ok) => st.(chain := Mined(st.chain, tx, ok))
    case TakeJob(i) => st.(worker := Dispatch(st, i))
    case Write => DoWrite(st)
    case WriteUnacknowledged => DoWrite(st).(worker := Failing(w.item, w.attempt))
    case Throw => st.(worker := Failing(w.item, w.attempt))
    case LoadContext => st.(worker := ProofDue(w.item, w.attempt, st.chain.version, st.chain.balance))
    case CallProver =>
      if w.funds < st.items[w.item].amount then st.(worker := Failing(w.item, w.attempt))
      else st.(proofs := st.proofs[w.item := st.proofs[w.item] + 1],
               worker := Signing(w.item, w.attempt, w.basis, w.funds))
    case Sign(nonce) =>
      st.(worker := Persisting(w.item, w.attempt, Tx(w.item, st.items[w.item].amount, w.basis, w.funds, nonce)))
    case SendAccepted =>
      st.(chain := st.chain.(accepted := st.chain.accepted + {w.tx}), worker := Waiting(w.item, w.tx))
    case SendKnown => st.(worker := Waiting(w.item, w.tx))
    case SendRejected => st.(worker := Deferring(w.item, w.tx))
    case SendUnacknowledged =>
      st.(chain := st.chain.(accepted := st.chain.accepted + {w.tx}), worker := Deferring(w.item, w.tx))
    case SeeMined => st.(worker := Confirming(w.item, w.tx))
    case SeeReverted => st.(worker := Reverting(w.item))
    case WaitFails => st.(worker := Deferring(w.item, w.tx))
    case Count =>
      if Unsettled(st.items, w.run) then st.(worker := Idle)
      else st.(worker := Finalizing(w.run, Verdict(st.items, w.run)))
    case Crash => st.(worker := Idle)
  }

  ghost predicate Next(st: State, step: Step, st': State) {
    Enabled(st, step) && st' == Apply(st, step)
  }

  ghost predicate Init(st: State) {
    && st.items == [] && st.proofs == [] && st.runs == [] && st.worker == Idle
    && st.chain.accepted == {} && st.chain.mined == map[] && st.calls == map[]
    && st.chain.balance >= 0 && st.funded == st.chain.balance
  }

  ghost predicate NextAt(states: seq<State>, steps: seq<Step>, i: nat)
    requires i < |steps| && |states| == |steps| + 1
  {
    Next(states[i], steps[i], states[i + 1])
  }

  ghost predicate Run(states: seq<State>, steps: seq<Step>) {
    && |states| == |steps| + 1
    && Init(states[0])
    && (forall i :: 0 <= i < |steps| ==> NextAt(states, steps, i))
  }

  datatype Counts = Counts(
    confirmed: nat, failed: nat, pending: nat, proved: nat, proving: nat, submitted: nat, total: nat)

  function CountRun(items: seq<Item>, run: nat): nat {
    if items == [] then 0
    else CountRun(items[..|items| - 1], run) + if items[|items| - 1].run == run then 1 else 0
  }

  lemma {:induction false} CountRunSplits(items: seq<Item>, run: nat)
    ensures CountRun(items, run) == CountStatus(items, run, Pending) + CountStatus(items, run, Proving)
                                    + CountStatus(items, run, Submitted) + CountStatus(items, run, Confirmed)
                                    + CountStatus(items, run, Failed)
  {
    if items != [] {
      CountRunSplits(items[..|items| - 1], run);
    }
  }

  /** The counters that the progress stream shows and that finalisation reads. */
  method GetPayrollProgressCounts(items: seq<Item>, run: nat) returns (counts: Counts)
    ensures counts.pending == CountStatus(items, run, Pending) && counts.proving == CountStatus(items, run, Proving)
    ensures counts.submitted == CountStatus(items, run, Submitted) && counts.failed == CountStatus(items, run, Failed)
    ensures counts.confirmed == counts.proved == CountStatus(items, run, Confirmed)
    ensures counts.total == CountRun(items, run)
  {
    var rows := [Pending, Proving, Submitted, Confirmed, Failed];
    counts := Counts(0, 0, 0, 0, 0, 0, 0);
    for i := 0 to |rows|
      invariant counts.pending == (if i > 0 then CountStatus(items, run, Pending) else 0)
      invariant counts.proving == (if i > 1 then CountStatus(items, run, Proving) else 0)
      invariant counts.submitted == (if i > 2 then CountStatus(items, run, Submitted) else 0)
      invariant counts.confirmed == (if i > 3 then CountStatus(items, run, Confirmed) else 0)
      invariant counts.failed == (if i > 4 then CountStatus(items, run, Failed) else 0)
      invariant counts.total == counts.pending + counts.proving + counts.submitted + counts.confirmed + counts.failed
    {
      var count := CountStatus(items, run, rows[i]);
      match rows[i] {
        case Pending => counts := counts.(pending := count);
        case Proving => counts := counts.(proving := count);
        case Submitted => counts := counts.(submitted := count);
        case Confirmed => counts := counts.(confirmed := count);
        case Failed => counts := counts.(failed := count);
      }
      counts := counts.(total := counts.total + count);
    }
    counts := counts.(proved := counts.confirmed);
    CountRunSplits(items, run);
  }
}
