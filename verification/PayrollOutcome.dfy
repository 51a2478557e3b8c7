/** What one undisturbed job makes of its item and of the chain, as the outside answers it. */
module PayrollOutcome {
  import opened Prelude
  import opened PayrollWorker
  import opened PayrollSafety

  /** How the write that stores a signed transfer ends. */
  datatype Ack = Stored | StoredUnseen | Refused

  /** How preparing a transfer ends: with an error on the way, or with a signed transfer. */
  datatype Prepare = ContextFails | ProverFails | SigningFails | Signed(nonce: nat, ack: Ack)

  datatype Send = Accepted | AlreadyKnown | Rejected | AcceptedUnseen

  /** What the outside answers to one job; `mined` is what the chain does with the transfer while the job waits. */
  datatype World = World(prepare: Prepare, send: Send, mined: Option<bool>, gaveUp: bool)

  // ---------- Sending and waiting ----------

  function Taken(c: Chain, tx: Tx): Chain {
    c.(accepted := c.accepted + {tx})
  }

  function Waited(c: Chain, tx: Tx, world: World): Chain {
    if world.mined.Some? && tx in c.accepted && tx !in c.mined && (world.mined.value ==> tx.basis == c.version)
    then Mined(c, tx, world.mined.value)
    else c
  }

  function Heard(c: Chain, tx: Tx, world: World): Option<bool> {
    if world.gaveUp || tx !in c.mined then None else Some(c.mined[tx])
  }

  function Listened(c: Chain, tx: Tx, world: World): (Chain, Option<bool>) {
    (Waited(c, tx, world), Heard(Waited(c, tx, world), tx, world))
  }

  /** The chain and the job's answer after a transfer is sent, when the job still holds it, and waited for. */
  function Reached(c: Chain, tx: Tx, raw: Option<Tx>, world: World): (Chain, Option<bool>) {
    if raw.None? then Listened(c, tx, world)
    else
      match world.send
      case Accepted => Listened(Taken(c, tx), tx, world)
      case AlreadyKnown => Listened(c, tx, world)
      case Rejected => (c, None)
      case AcceptedUnseen => (Taken(c, tx), None)
  }

  // ---------- The item ----------

  function Marked(item: Item, tx: Tx, raw: Option<Tx>): Item {
    item.(status := Submitted, txHash := Some(tx), rawTx := if raw.Some? then raw else item.rawTx)
  }

  function Ended(item: Item, tx: Tx, outcome: Option<bool>): Item {
    match outcome
    case None =>
      item.(confirmationAttempt := item.confirmationAttempt + 1, status := Submitted, txHash := Some(tx))
    case Some(ok) =>
      if ok then item.(confirmationAttempt := 0, status := Confirmed, rawTx := None, txHash := Some(tx))
      else item.(status := Failed, rawTx := None)
  }

  function Confirmation(item: Item, c: Chain, tx: Tx, raw: Option<Tx>, world: World): (Item, Chain) {
    var reached := Reached(c, tx, raw, world);
    (Ended(Marked(item, tx, raw), tx, reached.1), reached.0)
  }

  function Claim(item: Item): Item {
    item.(attempt := item.attempt + 1, status := Proving)
  }

  /** The item after its transfer is prepared, and the transfer if the job knows that it is stored. */
  function Preparing(i: nat, item: Item, c: Chain, prepare: Prepare): (Item, Option<Tx>) {
    if !prepare.Signed? || c.balance < item.amount || prepare.ack == Refused then (item, None)
    else
      var tx := Tx(i, item.amount, c.version, c.balance, prepare.nonce);
      (item.(status := Submitted, rawTx := Some(tx), txHash := Some(tx)), if prepare.ack == Stored then Some(tx) else None)
  }

  function Attempted(i: nat, item: Item, c: Chain, world: World): (Item, Chain) {
    var prepared := Preparing(i, Claim(item), c, world.prepare);
    if prepared.1.None? then
      (prepared.0.(status := if prepared.0.attempt >= MAX_ATTEMPTS then Failed else Pending), c)
    else Confirmation(prepared.0, c, prepared.1.value, prepared.1, world)
  }

  /** The item has to be tried: it has not settled, nothing was stored for it, and it may be paid. */
  predicate Fresh(item: Item) {
    !Settled(item) && item.txHash.None? && item.address.Some? && item.attempt < MAX_ATTEMPTS
  }

  function AfterJob(i: nat, item: Item, c: Chain, world: World): (Item, Chain) {
    if Settled(item) then (item, c)
    else if item.txHash.Some? then Confirmation(item, c, item.txHash.value, item.rawTx, world)
    else if item.address.None? || item.attempt >= MAX_ATTEMPTS then (item.(status := Failed, rawTx := None), c)
    else Attempted(i, item, c, world)
  }

  // ---------- The run ----------

  /** The run's status after it is counted. */
  function SettledRuns(runs: seq<RunRow>, items: seq<Item>, r: nat): seq<RunRow>
    requires r < |runs|
  {
    if Unsettled(items, r) then runs else runs[r := runs[r].(status := Verdict(items, r))]
  }

  function StartedRuns(runs: seq<RunRow>, r: nat): seq<RunRow>
    requires r < |runs|
  {
    if runs[r].status in {Ready, Running} then runs[r := runs[r].(status := Running)] else runs
  }

  /** Counting settles a run exactly when all its items are settled, and for its confirmed items. */
  lemma SettledRunsAre(runs: seq<RunRow>, items: seq<Item>, r: nat)
    requires r < |runs|
    ensures var after := SettledRuns(runs, items, r);
            && |after| == |runs| && (forall k :: 0 <= k < |runs| && k != r ==> after[k] == runs[k])
            && after[r].total == runs[r].total
            && after[r].status == if !AllSettled(items, r) then runs[r].status
                                  else if SomeConfirmed(items, r) then Complete else RunFailed
  {
    CountsDecide(items, r);
  }

  // ---------- What it all comes to ----------

  /** An item that has to be tried, and that the chain has not seen. */
  predicate Untried(i: nat, item: Item, c: Chain) {
    Fresh(item) && c.mined.Keys <= c.accepted && forall tx :: tx in c.accepted ==> tx.item != i
  }

  /** Without a stored transfer the try is lost: the item is pending again, or failed on its fifth. */
  lemma LostTry(i: nat, item: Item, c: Chain, world: World)
    requires Fresh(item) && !(world.prepare.Signed? && world.prepare.ack == Stored && c.balance >= item.amount)
    ensures var (after, c') := AfterJob(i, item, c, world);
            && c' == c && after.attempt == item.attempt + 1
            && after.status == (if item.attempt + 1 < 5 then Pending else Failed)
            && (if world.prepare.Signed? && world.prepare.ack == StoredUnseen && c.balance >= item.amount
                then after.txHash == after.rawTx == Some(Tx(i, item.amount, c.version, c.balance, world.prepare.nonce))
                else after.txHash.None? && after.rawTx == item.rawTx)
  {
  }

  /**
   With enough balance, a signature and a stored transfer: what the network and the chain then do decides the item,
   and the treasury pays exactly when the chain mines the transfer.
   */
  lemma StoredTry(i: nat, item: Item, c: Chain, world: World)
    requires Untried(i, item, c)
    requires world.prepare.Signed? && world.prepare.ack == Stored && c.balance >= item.amount
    ensures var (after, c') := AfterJob(i, item, c, world);
            && after.attempt == item.attempt + 1
            && after.txHash == Some(Tx(i, item.amount, c.version, c.balance, world.prepare.nonce))
            && Counted(item, after, after.txHash)
            && after.status == (if world.send != Accepted || world.mined.None? || world.gaveUp then Submitted
                                else if world.mined.value then Confirmed else Failed)
            && c'.balance == c.balance - (if world.send == Accepted && world.mined == Some(true) then item.amount else 0)
  {
    var tx := Tx(i, item.amount, c.version, c.balance, world.prepare.nonce);
    assert tx !in c.accepted && tx !in c.mined;
  }

  /** A submitted item keeps its transfer for the next job, one wait more; a settled one has none to send. */
  predicate Counted(item: Item, after: Item, raw: Option<Tx>) {
    if after.status == Submitted then after.rawTx == raw && after.confirmationAttempt == item.confirmationAttempt + 1
    else after.rawTx.None?
  }

  /** The job gets to wait for its transfer. */
  predicate Waits(item: Item, world: World) {
    item.rawTx.None? || world.send == Accepted || world.send == AlreadyKnown
  }

  /** While the job waits the chain mines the transfer, which it had not mined before. */
  predicate MinesNow(item: Item, c: Chain, tx: Tx, world: World) {
    && Waits(item, world) && tx !in c.mined && (tx in c.accepted || (item.rawTx.Some? && world.send == Accepted))
    && world.mined.Some? && (world.mined.value ==> tx.basis == c.version)
  }

  /** How a job leaves an item with a stored transfer: as the chain has that transfer, and never prepared again. */
  predicate ResumedAs(item: Item, c: Chain, world: World, after: Item, c': Chain)
    requires item.txHash.Some?
  {
    var tx := item.txHash.value;
    var now := MinesNow(item, c, tx, world);
    && after.txHash == Some(tx) && after.attempt == item.attempt && Counted(item, after, item.rawTx)
    && after.status == (if !Waits(item, world) || world.gaveUp || (tx !in c.mined && !now) then Submitted
                        else if (if tx in c.mined then c.mined[tx] else world.mined.value) then Confirmed else Failed)
    && c'.balance == c.balance - (if now && world.mined.value then tx.amount else 0)
  }

  lemma ResumedTry(i: nat, item: Item, c: Chain, world: World)
    requires !Settled(item) && item.txHash.Some?
    ensures var ended := AfterJob(i, item, c, world); ResumedAs(item, c, world, ended.0, ended.1)
  {
  }

  /** The item and the treasury after one job, by what the item was and what the outside answered. */
  lemma JobMeans(i: nat, item: Item, c: Chain, world: World)
    requires Fresh(item) ==> Untried(i, item, c)
    ensures var (after, c') := AfterJob(i, item, c, world);
            && after.run == item.run
            && (Settled(item) ==> after == item && c' == c)
            && (!Settled(item) && item.txHash.None? && (item.address.None? || item.attempt >= 5) ==>
                  after.status == Failed && after.txHash.None? && c' == c)
            && (Fresh(item) && !(world.prepare.Signed? && world.prepare.ack == Stored && c.balance >= item.amount) ==>
                  c' == c && after.attempt == item.attempt + 1
                  && after.status == if item.attempt + 1 < 5 then Pending else Failed)
            && (Fresh(item) && world.prepare.Signed? && world.prepare.ack == Stored && c.balance >= item.amount ==>
                  && after.txHash == Some(Tx(i, item.amount, c.version, c.balance, world.prepare.nonce))
                  && Counted(item, after, after.txHash)
                  && after.status == (if world.send != Accepted || world.mined.None? || world.gaveUp then Submitted
                                      else if world.mined.value then Confirmed else Failed)
                  && c'.balance == c.balance - (if world.send == Accepted && world.mined == Some(true) then item.amount else 0))
            && (!Settled(item) && item.txHash.Some? ==> ResumedAs(item, c, world, after, c'))
  {
    if !Settled(item) && item.txHash.Some? {
      ResumedTry(i, item, c, world);
    }
    if Fresh(item) {
      if world.prepare.Signed? && world.prepare.ack == Stored && c.balance >= item.amount {
        StoredTry(i, item, c, world);
      } else {
        LostTry(i, item, c, world);
      }
    }
  }

  /** A run with an open item is not settled. */
  lemma OpenRun(runs: seq<RunRow>, items: seq<Item>, i: nat)
    requires i < |items| && items[i].run < |runs| && !Settled(items[i])
    ensures SettledRuns(runs, items, items[i].run) == runs
  {
    CountsDecide(items, items[i].run);
  }

  lemma RunMeans(runs: seq<RunRow>, items: seq<Item>, r: nat, tried: bool)
    requires r < |runs| && runs[r].status in {RunStatus.Ready, Running}
    ensures var after := SettledRuns(if tried then StartedRuns(runs, r) else runs, items, r);
            && |after| == |runs| && after == runs[r := runs[r].(status := after[r].status)]
            && after[r].status == if AllSettled(items, r) then (if SomeConfirmed(items, r) then Complete else RunFailed)
                                  else if tried then Running else runs[r].status
  {
    SettledRunsAre(if tried then StartedRuns(runs, r) else runs, items, r);
  }
}
