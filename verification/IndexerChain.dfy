/**
 The chain the indexer reads, and the events it must index.

 A block hash commits to the block and all its ancestors. The model takes this literally: the hash of
 block b of chain c is the sequence c[..b+1], and the parent hash is c[..b]. Two chains that show the
 same hash at a height are therefore equal up to that height, and nothing else is assumed of hashes.
 */
module IndexerChain {
  import opened Prelude

  type Address = nat

  /** Postgres keeps one row for each (transaction hash, log index). */
  datatype Key = Key(txHash: nat, logIndex: nat)

  datatype EventName =
    | PrivateTransfer | PrivateMint | PrivateBurn | Withdraw | Deposit | Register | AuditorChanged
    | UnindexedEvent

  datatype ArgName = From | To | User | AuditorPct | OldAuditor | NewAuditor

  datatype Arg = AddressArg(address: Address) | UintsArg(words: seq<nat>) | OtherArg

  /** What the contract's ABI makes of a log: nothing, or a name with named arguments. */
  datatype AbiEvent = Undecodable | Decoded(name: EventName, args: map<ArgName, Arg>)

  datatype Log = Log(contract: Address, key: Key, transactionIndex: Option<nat>, event: AbiEvent)

  datatype Block = Block(time: nat, logs: seq<Log>)

  type Chain = seq<Block>

  datatype DecodedEvent = DecodedEvent(
    name: EventName, amountPct: Option<seq<nat>>, fromAddr: Option<Address>, toAddr: Option<Address>)

  datatype Row = Row(
    key: Key, contract: Address, blockNumber: nat, blockHash: Chain, blockTime: nat,
    transactionIndex: Option<nat>, event: DecodedEvent)

  function AddressOf(args: map<ArgName, Arg>, name: ArgName): Option<Address> {
    if name in args && args[name].AddressArg? then Some(args[name].address) else None
  }

  /** The seven-word auditor ciphertext; any other shape is a decoding error. */
  function PctOf(args: map<ArgName, Arg>): Option<seq<nat>> {
    if AuditorPct in args && args[AuditorPct].UintsArg? && |args[AuditorPct].words| == 7
    then Some(args[AuditorPct].words) else None
  }

  /** A thrown decoding error and an event outside the switch both yield no row. */
  function DecodeIndexedEvent(event: AbiEvent): Option<DecodedEvent> {
    match event
    case Undecodable => None
    case Decoded(name, args) =>
      var user := AddressOf(args, User);
      match name
      case PrivateTransfer =>
        var from, to, pct := AddressOf(args, From), AddressOf(args, To), PctOf(args);
        if from.Some? && to.Some? && pct.Some? then Some(DecodedEvent(name, pct, from, to)) else None
      case PrivateMint =>
        if user.Some? && PctOf(args).Some? then Some(DecodedEvent(name, PctOf(args), None, user)) else None
      case PrivateBurn =>
        if user.Some? && PctOf(args).Some? then Some(DecodedEvent(name, PctOf(args), user, None)) else None
      case Withdraw =>
        if user.Some? && PctOf(args).Some? then Some(DecodedEvent(name, PctOf(args), user, user)) else None
      case Deposit => if user.Some? then Some(DecodedEvent(name, None, user, user)) else None
      case Register => if user.Some? then Some(DecodedEvent(name, None, user, user)) else None
      case AuditorChanged =>
        var from, to := AddressOf(args, OldAuditor), AddressOf(args, NewAuditor);
        if from.Some? && to.Some? then Some(DecodedEvent(name, None, from, to)) else None
      case UnindexedEvent => None
  }

  /** The row that log j of block b yields for a contract, if any. */
  function EntryAt(c: Chain, contract: Address, b: nat, j: nat): Option<Row>
    requires b < |c| && j < |c[b].logs|
  {
    var log := c[b].logs[j];
    var decoded := DecodeIndexedEvent(log.event);
    if log.contract == contract && decoded.Some?
    then Some(Row(log.key, contract, b, c[..b + 1], c[b].time, log.transactionIndex, decoded.value))
    else None
  }

  ghost predicate Emits(c: Chain, contract: Address, b: int, j: int, r: Row) {
    && 0 <= b < |c|
    && 0 <= j < |c[b].logs|
    && EntryAt(c, contract, b, j) == Some(r)
  }

  /** The direct filter: every decodable log of the contract in blocks lo..hi of the chain. */
  ghost function Events(c: Chain, contract: Address, lo: int, hi: int): set<Row> {
    set b: int, j: int | 0 <= b < |c| && lo <= b <= hi && 0 <= j < |c[b].logs| && EntryAt(c, contract, b, j).Some?
      :: EntryAt(c, contract, b, j).value
  }

  lemma EventAt(c: Chain, contract: Address, lo: int, hi: int, r: Row) returns (b: int, j: int)
    requires r in Events(c, contract, lo, hi)
    ensures lo <= b <= hi && Emits(c, contract, b, j, r) && b == r.blockNumber && r.contract == contract
    ensures r.key == c[b].logs[j].key && c[b].logs[j].contract == contract
  {
    b, j :| 0 <= b < |c| && lo <= b <= hi && 0 <= j < |c[b].logs| && EntryAt(c, contract, b, j).Some?
            && EntryAt(c, contract, b, j).value == r;
  }

  predicate GivenBy(args: map<ArgName, Arg>, name: ArgName, address: Option<Address>) {
    name in args && args[name].AddressArg? && address == Some(args[name].address)
  }

  predicate CiphertextOf(args: map<ArgName, Arg>, words: Option<seq<nat>>) {
    AuditorPct in args && args[AuditorPct].UintsArg? && words == Some(args[AuditorPct].words) && |args[AuditorPct].words| == 7
  }

  /** Which named arguments a row's two addresses and its ciphertext come from, for each event. */
  predicate ComesFrom(name: EventName, args: map<ArgName, Arg>, e: DecodedEvent) {
    && e.name == name
    && match name
       case PrivateTransfer => GivenBy(args, From, e.fromAddr) && GivenBy(args, To, e.toAddr) && CiphertextOf(args, e.amountPct)
       case PrivateMint => e.fromAddr.None? && GivenBy(args, User, e.toAddr) && CiphertextOf(args, e.amountPct)
       case PrivateBurn => GivenBy(args, User, e.fromAddr) && e.toAddr.None? && CiphertextOf(args, e.amountPct)
       case Withdraw => GivenBy(args, User, e.fromAddr) && GivenBy(args, User, e.toAddr) && CiphertextOf(args, e.amountPct)
       case Deposit => GivenBy(args, User, e.fromAddr) && GivenBy(args, User, e.toAddr) && e.amountPct.None?
       case Register => GivenBy(args, User, e.fromAddr) && GivenBy(args, User, e.toAddr) && e.amountPct.None?
       case AuditorChanged =>
         GivenBy(args, OldAuditor, e.fromAddr) && GivenBy(args, NewAuditor, e.toAddr) && e.amountPct.None?
       case UnindexedEvent => false
  }

  /** A log is decoded to an event exactly when its arguments give it. */
  lemma DecodesIff(event: AbiEvent, e: DecodedEvent)
    ensures DecodeIndexedEvent(event) == Some(e) <==> event.Decoded? && ComesFrom(event.name, event.args, e)
  {
  }

  /** The rows of a block range are those that some log of the contract in the range gives, column by column. */
  lemma EventsAre(c: Chain, contract: Address, lo: int, hi: int, r: Row)
    ensures r in Events(c, contract, lo, hi)
            <==> exists b: int, j: int ::
                   0 <= b < |c| && lo <= b <= hi && 0 <= j < |c[b].logs| && GivesRow(c, contract, b, j, r)
  {
    if r in Events(c, contract, lo, hi) {
      var b, j := EventAt(c, contract, lo, hi, r);
      DecodesIff(c[b].logs[j].event, r.event);
      assert GivesRow(c, contract, b, j, r);
    }
    forall b: int, j: int | 0 <= b < |c| && lo <= b <= hi && 0 <= j < |c[b].logs| && GivesRow(c, contract, b, j, r)
      ensures r in Events(c, contract, lo, hi)
    {
      DecodesIff(c[b].logs[j].event, r.event);
      EventIn(c, contract, lo, hi, b, j, r);
    }
  }

  predicate GivesRow(c: Chain, contract: Address, b: nat, j: nat, r: Row)
    requires b < |c| && j < |c[b].logs|
  {
    var log := c[b].logs[j];
    && log.contract == contract && r.contract == contract && r.key == log.key && r.blockNumber == b
    && r.blockHash == c[..b + 1] && r.blockTime == c[b].time && r.transactionIndex == log.transactionIndex
    && log.event.Decoded? && ComesFrom(log.event.name, log.event.args, r.event)
  }

  lemma EventIn(c: Chain, contract: Address, lo: int, hi: int, b: int, j: int, r: Row)
    requires lo <= b <= hi && Emits(c, contract, b, j, r)
    ensures r in Events(c, contract, lo, hi)
  {
    assert EntryAt(c, contract, b, j).Some?;
  }

  /** On one chain a log key names one log. */
  ghost predicate UniqueKeys(c: Chain) {
    forall b1: nat, j1: nat, b2: nat, j2: nat ::
      b1 < |c| && j1 < |c[b1].logs| && b2 < |c| && j2 < |c[b2].logs| && c[b1].logs[j1].key == c[b2].logs[j2].key
      ==> b1 == b2 && j1 == j2
  }

  /** A log key is owned by one contract, whatever the branch. */
  ghost predicate OwnedBy(c: Chain, owner: Key -> Address) {
    forall b: nat, j: nat :: b < |c| && j < |c[b].logs| ==> owner(c[b].logs[j].key) == c[b].logs[j].contract
  }

  lemma EventsSplit(c: Chain, contract: Address, lo: int, mid: int, hi: int)
    requires lo <= mid + 1 && mid <= hi
    ensures Events(c, contract, lo, hi) == Events(c, contract, lo, mid) + Events(c, contract, mid + 1, hi)
  {
  }

  lemma EntryOnPrefix(c: Chain, p: Chain, contract: Address, b: nat, j: nat)
    requires b < |c| && b < |p| && c[..b + 1] == p[..b + 1] && j < |c[b].logs|
    ensures j < |p[b].logs| && EntryAt(c, contract, b, j) == EntryAt(p, contract, b, j)
  {
    assert c[b] == c[..b + 1][b] == p[..b + 1][b] == p[b];
  }

  lemma EventsSubPrefix(c: Chain, p: Chain, contract: Address, lo: int, hi: int)
    requires hi < |c| && hi < |p| && (0 <= hi ==> c[..hi + 1] == p[..hi + 1])
    ensures Events(c, contract, lo, hi) <= Events(p, contract, lo, hi)
  {
    forall r | r in Events(c, contract, lo, hi) ensures r in Events(p, contract, lo, hi) {
      var b, j := EventAt(c, contract, lo, hi, r);
      assert c[..b + 1] == c[..hi + 1][..b + 1] == p[..hi + 1][..b + 1] == p[..b + 1];
      EntryOnPrefix(c, p, contract, b, j);
      EventIn(p, contract, lo, hi, b, j, r);
    }
  }

  /** Chains that agree up to a height have the same events up to it. */
  lemma EventsOnPrefix(c: Chain, p: Chain, contract: Address, lo: int, hi: int)
    requires hi < |c| && hi < |p| && (0 <= hi ==> c[..hi + 1] == p[..hi + 1])
    ensures Events(c, contract, lo, hi) == Events(p, contract, lo, hi)
  {
    EventsSubPrefix(c, p, contract, lo, hi);
    EventsSubPrefix(p, c, contract, lo, hi);
  }

  lemma UniqueRows(c: Chain, k1: Address, lo1: int, hi1: int, r1: Row, k2: Address, lo2: int, hi2: int, r2: Row)
    requires UniqueKeys(c)
    requires r1 in Events(c, k1, lo1, hi1) && r2 in Events(c, k2, lo2, hi2) && r1.key == r2.key
    ensures r1 == r2 && k1 == k2
  {
    var b1, j1 := EventAt(c, k1, lo1, hi1, r1);
    var b2, j2 := EventAt(c, k2, lo2, hi2, r2);
    assert b1 == b2 && j1 == j2;
  }

  lemma PrefixUnique(c: Chain, n: nat)
    requires UniqueKeys(c) && n <= |c|
    ensures UniqueKeys(c[..n])
  {
    var p := c[..n];
    forall b1: nat, j1: nat, b2: nat, j2: nat |
      b1 < |p| && j1 < |p[b1].logs| && b2 < |p| && j2 < |p[b2].logs| && p[b1].logs[j1].key == p[b2].logs[j2].key
      ensures b1 == b2 && j1 == j2
    {
      assert c[b1].logs[j1].key == c[b2].logs[j2].key;
    }
  }

  lemma PrefixOwned(c: Chain, n: nat, owner: Key -> Address)
    requires OwnedBy(c, owner) && n <= |c|
    ensures OwnedBy(c[..n], owner)
  {
    var p := c[..n];
    forall b: nat, j: nat | b < |p| && j < |p[b].logs| ensures owner(p[b].logs[j].key) == p[b].logs[j].contract {
      assert c[b].logs[j] == p[b].logs[j];
    }
  }
}
