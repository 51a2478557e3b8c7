/**
 What the hypotheses of the indexer are for: exactly when a rewind, a window read across a reorganisation or a
 backfill leaves the index right, and a run in which one does not.
 */
module IndexerReorgs {
  import opened Prelude
  import opened IndexerChain
  import opened IndexerTable
  import opened IndexerScan
  import opened IndexerBackfill
  import opened IndexerRuns

  /** The events of the cursor's branch below the landing block are those of the branch that the rewind found. */
  ghost predicate RewindRight(cfg: Config, contract: Address, cursor: Cursor, below: Cursor) {
    var landing := Landing(cfg.start, cfg.window, cursor.lastBlock);
    Events(BranchOf(below), contract, cfg.start, landing - 1)
    == Events(BranchOf(cursor), contract, cfg.start, landing - 1)
  }

  /** The contract's rows are the events of the branch of the cursor a job works from. */
  ghost predicate RowsOfCursor(cfg: Config, db: Db, contract: Address, cursor: Cursor) {
    cursor.lastBlock >= cfg.start - 1
    && Slice(db.events, contract) == Events(BranchOf(cursor), contract, cfg.start, cursor.lastBlock)
  }

  /** A rewind keeps the index canonical exactly when the events below its landing block survived the reorg. */
  lemma RewindCanonicalIff(cfg: Config, db: Db, contract: Address, cursor: Cursor, below: Cursor)
    requires cfg.window >= 1 && RowsOfCursor(cfg, db, contract, cursor)
    requires below.lastBlock == Landing(cfg.start, cfg.window, cursor.lastBlock) - 1
    ensures Canonical(cfg, RewindDb(db, contract, cursor, below.lastBlock + 1, below), contract)
            <==> RewindRight(cfg, contract, cursor, below)
  {
    RewindSlice(cfg.start, cfg.window, db.events, contract, BranchOf(cursor), cursor.lastBlock);
  }

  lemma DisjointHalves(a: set<Row>, b: set<Row>, a': set<Row>, b': set<Row>, n: int)
    requires AtOrBelow(a, n) && AtOrBelow(a', n) && Above(b, n) && Above(b', n)
    ensures a + b == a' + b' <==> a == a' && b == b'
  {
    if a + b == a' + b' {
      assert forall r :: r in a + b <==> r in a' + b';
    }
  }

  /** The rows of a branch up to a block that an upsert leaves alone. */
  ghost function Surviving(branch: Chain, contract: Address, lo: int, hi: int, rows: seq<Row>): set<Row> {
    set r | r in Events(branch, contract, lo, hi) && !Mentions(rows, r.key)
  }

  /** Rows of one contract as one read of a window gives them: each key once, no block outside the window. */
  ghost predicate ReadRows(contract: Address, n: int, toBlock: int, rows: seq<Row>) {
    && DistinctKeys(rows)
    && forall a :: 0 <= a < |rows| ==> rows[a].contract == contract && n < rows[a].blockNumber <= toBlock
  }

  ghost function RowSet(rows: seq<Row>): set<Row> {
    set r | r in rows
  }

  lemma TornSlice(t: Table, contract: Address, branch: Chain, lo: int, n: int, toBlock: int, rows: seq<Row>)
    requires ReadRows(contract, n, toBlock, rows) && Slice(t, contract) == Events(branch, contract, lo, n)
    ensures Slice(Upsert(t, rows), contract) == Surviving(branch, contract, lo, n, rows) + RowSet(rows)
  {
    forall r ensures r in Slice(Upsert(t, rows), contract) <==> r in Surviving(branch, contract, lo, n, rows) + RowSet(rows) {
      UpsertSlice(t, rows, contract, r);
      if r in Events(branch, contract, lo, n) {
        var _, _ := EventAt(branch, contract, lo, n, r);
      }
    }
  }

  /** The head's branch has the surviving rows up to the cursor, and the window's rows above it. */
  ghost predicate CommitRight(cfg: Config, contract: Address, cursor: Cursor, rows: seq<Row>, head: Chain) {
    var n := cursor.lastBlock;
    && Surviving(BranchOf(cursor), contract, cfg.start, n, rows) == Events(head, contract, cfg.start, n)
    && RowSet(rows) == Events(head, contract, n + 1, |head| - 1)
  }

  lemma RowsBounded(contract: Address, n: int, toBlock: int, rows: seq<Row>)
    requires ReadRows(contract, n, toBlock, rows)
    ensures Above(RowSet(rows), n)
  {
    forall r | r in RowSet(rows) ensures r.blockNumber > n {
      var a :| 0 <= a < |rows| && rows[a] == r;
    }
  }

  /**
   A window whose logs, head and block times may come from different chains keeps the index canonical exactly when
   the head's branch has the surviving rows up to the cursor and, in the window, the very rows that were read.
   */
  lemma TornWindowCanonicalIff(cfg: Config, db: Db, contract: Address, cursor: Cursor, rows: seq<Row>, head: Chain)
    requires RowsOfCursor(cfg, db, contract, cursor) && cursor.lastBlock < |head| - 1
    requires ReadRows(contract, cursor.lastBlock, |head| - 1, rows)
    ensures Canonical(cfg, CommitDb(db, contract, cursor.lastBlock + 1, |head| - 1, rows, head, false), contract)
            <==> CommitRight(cfg, contract, cursor, rows, head)
  {
    var n, toBlock, branch := cursor.lastBlock, |head| - 1, BranchOf(cursor);
    TornSlice(db.events, contract, branch, cfg.start, n, toBlock, rows);
    EventsSplit(head, contract, cfg.start, n, toBlock);
    EventsBounded(branch, contract, cfg.start, n);
    EventsBounded(head, contract, cfg.start, n);
    EventsBounded(head, contract, n + 1, toBlock);
    RowsBounded(contract, n, toBlock, rows);
    DisjointHalves(Surviving(branch, contract, cfg.start, n, rows), RowSet(rows),
                   Events(head, contract, cfg.start, n), Events(head, contract, n + 1, toBlock), n);
  }

  // ---------- A torn read ----------

  // A chain with one indexed log, and a branch that lost it.
  const CONTRACT: Address := 7
  const TORN_LOG := Log(CONTRACT, Key(1, 0), None, Decoded(Deposit, map[User := AddressArg(5)]))
  const OLD_CHAIN: Chain := [Block(0, [TORN_LOG]), Block(1, [])]
  const NEW_CHAIN: Chain := [Block(9, []), Block(1, [])]
  const TORN_HEAD: Chain := [Block(0, [TORN_LOG])]
  const TORN_ROW: Row := Row(Key(1, 0), CONTRACT, 0, TORN_HEAD, 0, None, DecodedEvent(Deposit, None, Some(5), Some(5)))
  const TORN_CURSOR := Cursor(0, Some(TORN_HEAD))
  const NO_CURSOR := Cursor(-1, None)
  const TORN_CONFIG := Config(10, 0, (k: Key) => CONTRACT)
  const EMPTY_DB := Db(map[], map[])
  const TORN_DB := Db(map[Key(1, 0) := TORN_ROW], map[CONTRACT := TORN_CURSOR])

  /** The indexer stores the log's row, and begins again; its boundary check on the next block passes. */
  const TORN_STEPS: seq<Step> :=
    [Begin(CONTRACT, 0), CheckBoundary, ReadLogs, ReadHead, ReadTimes, CommitWindow, Finish, Begin(CONTRACT, 1), CheckBoundary]

  const TORN_STATES: seq<State> := [
    State(OLD_CHAIN, EMPTY_DB, Idle),
    State(OLD_CHAIN, EMPTY_DB, AtBoundary(CONTRACT, NO_CURSOR, 0)),
    State(OLD_CHAIN, EMPTY_DB, Fetching(CONTRACT, NO_CURSOR, 0, None, None, false)),
    State(OLD_CHAIN, EMPTY_DB, Fetching(CONTRACT, NO_CURSOR, 0, Some([TORN_ROW]), None, false)),
    State(OLD_CHAIN, EMPTY_DB, Fetching(CONTRACT, NO_CURSOR, 0, Some([TORN_ROW]), Some(TORN_HEAD), false)),
    State(OLD_CHAIN, EMPTY_DB, Fetching(CONTRACT, NO_CURSOR, 0, Some([TORN_ROW]), Some(TORN_HEAD), true)),
    State(OLD_CHAIN, TORN_DB, AtBoundary(CONTRACT, TORN_CURSOR, 0)),
    State(OLD_CHAIN, TORN_DB, Idle),
    State(OLD_CHAIN, TORN_DB, AtBoundary(CONTRACT, TORN_CURSOR, 1)),
    CHECKED]

  const CHECKED := State(OLD_CHAIN, TORN_DB, Fetching(CONTRACT, TORN_CURSOR, 1, None, None, false))
  const SWITCHED := State(NEW_CHAIN, TORN_DB, Fetching(CONTRACT, TORN_CURSOR, 1, None, None, false))
  const LOGGED := State(NEW_CHAIN, TORN_DB, Fetching(CONTRACT, TORN_CURSOR, 1, Some([]), None, false))
  const HEADED := State(NEW_CHAIN, TORN_DB, Fetching(CONTRACT, TORN_CURSOR, 1, Some([]), Some(NEW_CHAIN[..2]), false))
  const TIMED := State(NEW_CHAIN, TORN_DB, Fetching(CONTRACT, TORN_CURSOR, 1, Some([]), Some(NEW_CHAIN[..2]), true))
  const COMMITTED := State(NEW_CHAIN, CommitDb(TORN_DB, CONTRACT, 1, 1, [], NEW_CHAIN[..2], false),
                           AtBoundary(CONTRACT, Cursor(1, Some(NEW_CHAIN[..2])), 1))

  lemma TornWindowRows()
    ensures WindowRows(OLD_CHAIN, CONTRACT, 0, 0) == [TORN_ROW] && OLD_CHAIN[..1] == TORN_HEAD
  {
    assert OLD_CHAIN[0] == Block(0, [TORN_LOG]);
    assert BlockLogs(OLD_CHAIN, CONTRACT, 0, 0) == [];
    assert BlockLogs(OLD_CHAIN, CONTRACT, 0, 1) == [ChainLog(0, TORN_LOG)];
    assert GetLogs(OLD_CHAIN, CONTRACT, 0, -1) == [];
    assert GetLogs(OLD_CHAIN, CONTRACT, 0, 0) == [ChainLog(0, TORN_LOG)];
    assert OLD_CHAIN[..1] == TORN_HEAD;
    assert [ChainLog(0, TORN_LOG)][..0] == [] && RowsOf(OLD_CHAIN, CONTRACT, []) == [];
    assert RowOf(OLD_CHAIN, CONTRACT, ChainLog(0, TORN_LOG)) == Some(TORN_ROW);
  }

  lemma TornFetch()
    ensures NextAt(TORN_CONFIG, TORN_STATES, TORN_STEPS, 0) && NextAt(TORN_CONFIG, TORN_STATES, TORN_STEPS, 1)
    ensures NextAt(TORN_CONFIG, TORN_STATES, TORN_STEPS, 2) && NextAt(TORN_CONFIG, TORN_STATES, TORN_STEPS, 3)
  {
    TornWindowRows();
  }

  lemma TornStore()
    ensures NextAt(TORN_CONFIG, TORN_STATES, TORN_STEPS, 4) && NextAt(TORN_CONFIG, TORN_STATES, TORN_STEPS, 5)
    ensures NextAt(TORN_CONFIG, TORN_STATES, TORN_STEPS, 6)
  {
    assert Retimed(OLD_CHAIN, [TORN_ROW], TORN_HEAD, 0) == [TORN_ROW];
    assert Upsert(map[], [TORN_ROW]) == map[Key(1, 0) := TORN_ROW] by {
      assert [TORN_ROW][..0] == [];
    }
  }

  lemma TornBeginAgain()
    ensures NextAt(TORN_CONFIG, TORN_STATES, TORN_STEPS, 7) && NextAt(TORN_CONFIG, TORN_STATES, TORN_STEPS, 8)
  {
    assert OLD_CHAIN[..1] == TORN_HEAD;
  }

  lemma TornChains()
    ensures UniqueKeys(OLD_CHAIN) && OwnedBy(OLD_CHAIN, TORN_CONFIG.owner)
    ensures UniqueKeys(NEW_CHAIN) && OwnedBy(NEW_CHAIN, TORN_CONFIG.owner)
  {
  }

  lemma TornCommitNotCanonical()
    ensures WindowRows(NEW_CHAIN, CONTRACT, 1, 1) == []
    ensures !Canonical(TORN_CONFIG, COMMITTED.db, CONTRACT)
  {
    assert BlockLogs(NEW_CHAIN, CONTRACT, 1, 0) == [];
    assert GetLogs(NEW_CHAIN, CONTRACT, 1, 0) == [];
    assert NEW_CHAIN[1] == Block(1, []);
    assert GetLogs(NEW_CHAIN, CONTRACT, 1, 1) == [];
    assert NEW_CHAIN[..2] == NEW_CHAIN;
    forall r ensures r !in Events(NEW_CHAIN, CONTRACT, 0, 1) {
      if r in Events(NEW_CHAIN, CONTRACT, 0, 1) {
        var b, j := EventAt(NEW_CHAIN, CONTRACT, 0, 1, r);
        assert false;
      }
    }
    SliceHas(TORN_DB.events, CONTRACT, TORN_ROW);
  }

  lemma TornReads()
    ensures Next(TORN_CONFIG, SWITCHED, ReadLogs, LOGGED) && Next(TORN_CONFIG, LOGGED, ReadHead, HEADED)
    ensures Next(TORN_CONFIG, HEADED, ReadTimes, TIMED) && Next(TORN_CONFIG, TIMED, CommitWindow, COMMITTED)
  {
    TornCommitNotCanonical();
    assert Retimed(NEW_CHAIN, [], NEW_CHAIN[..2], 1) == [];
  }

  lemma TornRun()
    ensures Run(TORN_CONFIG, TORN_STATES, TORN_STEPS) && TORN_STATES[9] == CHECKED
  {
    TornChains();
    TornFetch();
    TornStore();
    TornBeginAgain();
    forall i | 0 <= i < |TORN_STEPS| ensures NextAt(TORN_CONFIG, TORN_STATES, TORN_STEPS, i) {
      if i < 4 {
        assert i == 0 || i == 1 || i == 2 || i == 3;
      } else if i < 7 {
        assert i == 4 || i == 5 || i == 6;
      } else {
        assert i == 7 || i == 8;
      }
    }
  }

  lemma TornSwitch()
    ensures SWITCHED == Apply(TORN_CONFIG, CHECKED, Switch(NEW_CHAIN))
    ensures UniqueKeys(NEW_CHAIN) && OwnedBy(NEW_CHAIN, TORN_CONFIG.owner)
    ensures WithinDepth(NEW_CHAIN, TORN_CONFIG.window, TORN_CONFIG.start, TORN_CURSOR)
  {
    TornChains();
  }

  /**
   A run from the start in which the boundary is checked on one branch, the chain switches below the cursor but
   within the depth a rewind repairs, and the window is then read from the other branch: the index goes wrong.
   */
  lemma TornReadBreaksIndex()
    ensures Run(TORN_CONFIG, TORN_STATES, TORN_STEPS) && TORN_STATES[9] == CHECKED
    ensures SWITCHED == Apply(TORN_CONFIG, CHECKED, Switch(NEW_CHAIN))
    ensures UniqueKeys(NEW_CHAIN) && OwnedBy(NEW_CHAIN, TORN_CONFIG.owner)
    ensures WithinDepth(NEW_CHAIN, TORN_CONFIG.window, TORN_CONFIG.start, TORN_CURSOR)
    ensures Next(TORN_CONFIG, SWITCHED, ReadLogs, LOGGED) && Next(TORN_CONFIG, LOGGED, ReadHead, HEADED)
    ensures Next(TORN_CONFIG, HEADED, ReadTimes, TIMED) && Next(TORN_CONFIG, TIMED, CommitWindow, COMMITTED)
    ensures !Canonical(TORN_CONFIG, COMMITTED.db, CONTRACT)
  {
    TornRun();
    TornSwitch();
    TornReads();
    TornCommitNotCanonical();
  }

  // ---------- A gap ----------

  /** A backfill of block 1 of an empty index misses the log of block 0, and so does every later scan of the same chain. */
  lemma BackfillLeavesAGap(c: Chain, target: nat)
    requires UniqueKeys(c) && 1 <= target < |c| && c[..2] == OLD_CHAIN
    ensures var after := ScanContractDb(OLD_CHAIN, 10, 1, CONTRACT, EMPTY_DB, 1, true);
            && ValidCursors(after) && !Canonical(TORN_CONFIG, after, CONTRACT)
            && TORN_ROW in Events(c, CONTRACT, 0, target)
            && TORN_ROW !in Slice(ScanContractDb(c, 10, 0, CONTRACT, after, target, false).events, CONTRACT)
  {
    var after := ScanContractDb(OLD_CHAIN, 10, 1, CONTRACT, EMPTY_DB, 1, true);
    GapIsThere();
    GapIsMissed(c, target);
    assert OLD_CHAIN[..2] == c[..2];
    LaterScansLeave(c, 10, 0, CONTRACT, after, CursorBelow(OLD_CHAIN, 2), target, 0, TORN_ROW);
  }

  lemma GapIsThere()
    ensures var after := ScanContractDb(OLD_CHAIN, 10, 1, CONTRACT, EMPTY_DB, 1, true);
            && !Canonical(TORN_CONFIG, after, CONTRACT) && TORN_ROW !in Slice(after.events, CONTRACT)
            && after.cursors == map[CONTRACT := CursorBelow(OLD_CHAIN, 2)]
  {
    TornChains();
    TornRowIsEvent();
    BackfillCanonicalIff(TORN_CONFIG, OLD_CHAIN, EMPTY_DB, CONTRACT, 1, 1);
    assert Outside(OLD_CHAIN, CONTRACT, map[], 1, 1) == {};
    BackfillCursors(OLD_CHAIN, 10, EMPTY_DB, CONTRACT, 1, 1);
    BackfillStarts(OLD_CHAIN, CONTRACT, map[], 1);
    BackfillLeaves(OLD_CHAIN, 10, CONTRACT, map[], EMPTY_DB, 1, 0, 1);
    EventsBounded(OLD_CHAIN, CONTRACT, 1, 1);
  }

  lemma GapIsMissed(c: Chain, target: nat)
    requires 1 <= target < |c| && c[..2] == OLD_CHAIN
    ensures TORN_ROW in Events(c, CONTRACT, 0, target)
  {
    TornRowIsEvent();
    assert c[..1] == c[..2][..1] == OLD_CHAIN[..1];
    EventsOnPrefix(OLD_CHAIN, c, CONTRACT, 0, 0);
    EventsSplit(c, CONTRACT, 0, 0, target);
  }

  lemma TornRowIsEvent()
    ensures TORN_ROW in Events(OLD_CHAIN, CONTRACT, 0, 0)
  {
    TornChains();
    TornWindowRows();
    WindowRowsExact(OLD_CHAIN, CONTRACT, 0, 0);
    assert TORN_ROW in (set r | r in [TORN_ROW]);
  }
}
