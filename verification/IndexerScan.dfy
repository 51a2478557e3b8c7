/**
 One indexer run on a chain that does not change while it runs: windows, parent-hash checks, rewinds,
 backfills, for several contracts that share one events table.
 */
module IndexerScan {
  import opened Prelude
  import opened IndexerChain
  import opened IndexerTable

  datatype Cursor = Cursor(lastBlock: int, lastBlockHash: Option<Chain>)

  /** What the database keeps for the indexer. */
  datatype Db = Db(events: Table, cursors: map<Address, Cursor>)

  function PreviousBlockHash(c: Chain, blockNumber: int): Option<Chain>
    requires blockNumber < |c|
  {
    if blockNumber < 0 then None else Some(c[..blockNumber + 1])
  }

  predicate BoundaryNeedsRescan(c: Chain, cursor: Cursor, fromBlock: nat)
    requires fromBlock < |c|
  {
    cursor.lastBlockHash.Some? && cursor.lastBlock >= 0 && c[..fromBlock] != cursor.lastBlockHash.value
  }

  /** The first block that a rewind of the cursor discards. */
  function Landing(start: nat, window: nat, lastBlock: int): nat {
    Max(start, lastBlock - window + 1)
  }

  function WindowEnd(window: nat, lastBlock: int, target: int): int {
    Min(lastBlock + window, target)
  }

  /** The cursor that points just below a block of the chain. */
  function CursorBelow(c: Chain, blockNumber: nat): Cursor
    requires blockNumber <= |c|
  {
    Cursor(blockNumber - 1, PreviousBlockHash(c, blockNumber - 1))
  }

  function RewindDb(db: Db, contract: Address, cursor: Cursor, landing: nat, rewound: Cursor): Db {
    Db(DeleteWindow(db.events, contract, landing, cursor.lastBlock), db.cursors[contract := rewound])
  }

  function CommitDb(db: Db, contract: Address, fromBlock: nat, toBlock: int, rows: seq<Row>, hash: Chain,
                    replace: bool): Db
  {
    var kept := if replace then DeleteWindow(db.events, contract, fromBlock, toBlock) else db.events;
    Db(Upsert(kept, rows), db.cursors[contract := Cursor(toBlock, Some(hash))])
  }

  /** The measure of the scan loop: a mismatch is settled by one rewind, then blocks only go up. */
  function Mismatch(c: Chain, cursor: Cursor, target: int): nat
    requires -1 <= cursor.lastBlock && target < |c|
  {
    if cursor.lastBlock < target && BoundaryNeedsRescan(c, cursor, cursor.lastBlock + 1) then 1 else 0
  }

  /** One turn of the scan loop: a rewind when the parent hash disagrees, otherwise one window. */
  function ScanStep(c: Chain, window: nat, start: nat, contract: Address, db: Db, cursor: Cursor, target: int,
                    replace: bool): (Db, Cursor)
    requires window >= 1 && start <= target < |c| && -1 <= cursor.lastBlock < target
  {
    if BoundaryNeedsRescan(c, cursor, cursor.lastBlock + 1) then
      var landing := Landing(start, window, cursor.lastBlock);
      (RewindDb(db, contract, cursor, landing, CursorBelow(c, landing)), CursorBelow(c, landing))
    else
      var toBlock := WindowEnd(window, cursor.lastBlock, target);
      var rows := WindowRows(c, contract, cursor.lastBlock + 1, toBlock);
      (CommitDb(db, contract, cursor.lastBlock + 1, toBlock, rows, c[..toBlock + 1], replace),
       CursorBelow(c, toBlock + 1))
  }

  /**
   After any turn the cursor is on the chain, so a scan rewinds at most once; other turns gain blocks. A rewind goes
   back by a window but not below the start, and any other turn takes one window or what is left.
   */
  lemma StepProgress(c: Chain, window: nat, start: nat, contract: Address, db: Db, cursor: Cursor, target: int,
                     replace: bool)
    requires window >= 1 && start <= target < |c| && -1 <= cursor.lastBlock < target
    ensures var next := ScanStep(c, window, start, contract, db, cursor, target, replace).1;
            && -1 <= next.lastBlock <= target && next == CursorBelow(c, next.lastBlock + 1)
            && Mismatch(c, next, target) == 0
            && (Mismatch(c, cursor, target) == 0 ==> cursor.lastBlock < next.lastBlock)
    ensures var next := ScanStep(c, window, start, contract, db, cursor, target, replace).1.lastBlock;
            if cursor.lastBlock >= 0 && cursor.lastBlockHash.Some? && cursor.lastBlockHash.value != c[..cursor.lastBlock + 1]
            then next == if cursor.lastBlock - window + 1 > start then cursor.lastBlock - window else start - 1
            else next == if cursor.lastBlock + window < target then cursor.lastBlock + window else target
  {
  }

  /** The database after scanning one contract up to the target. */
  function ScanFrom(c: Chain, window: nat, start: nat, contract: Address, db: Db, cursor: Cursor, target: int,
                    replace: bool): Db
    requires window >= 1 && start <= target < |c| && cursor.lastBlock >= -1
    decreases Mismatch(c, cursor, target), target - cursor.lastBlock
  {
    if cursor.lastBlock >= target then db
    else
      var next := ScanStep(c, window, start, contract, db, cursor, target, replace);
      StepProgress(c, window, start, contract, db, cursor, target, replace);
      ScanFrom(c, window, start, contract, next.0, next.1, target, replace)
  }

  function CursorFor(c: Chain, start: nat, contract: Address, db: Db, backfill: bool): Cursor
    requires start <= |c|
  {
    if !backfill && contract in db.cursors then db.cursors[contract]
    else CursorBelow(c, start)
  }

  ghost predicate ValidCursors(db: Db) {
    forall k :: k in db.cursors ==> db.cursors[k].lastBlock >= -1
  }

  function ScanContractDb(c: Chain, window: nat, start: nat, contract: Address, db: Db, target: int, backfill: bool): Db
    requires window >= 1 && start <= target < |c| && ValidCursors(db)
  {
    ScanFrom(c, window, start, contract, db, CursorFor(c, start, contract, db, backfill), target, backfill)
  }

  lemma {:induction false} ScanKeepsValid(c: Chain, window: nat, start: nat, contract: Address, db: Db, cursor: Cursor,
                                          target: int, replace: bool)
    requires window >= 1 && start <= target < |c| && cursor.lastBlock >= -1 && ValidCursors(db)
    ensures var after := ScanFrom(c, window, start, contract, db, cursor, target, replace);
            && ValidCursors(after)
            && (forall k :: k != contract ==> (k in db.cursors <==> k in after.cursors))
            && (forall k :: k != contract && k in db.cursors ==> db.cursors[k] == after.cursors[k])
    decreases Mismatch(c, cursor, target), target - cursor.lastBlock
  {
    if cursor.lastBlock < target {
      var next := ScanStep(c, window, start, contract, db, cursor, target, replace);
      StepProgress(c, window, start, contract, db, cursor, target, replace);
      ScanKeepsValid(c, window, start, contract, next.0, next.1, target, replace);
    }
  }

  // ---------- When a cursor and its rows can be trusted ----------

  /** The branch that a cursor's hash names. */
  function BranchOf(cursor: Cursor): Chain {
    if cursor.lastBlockHash.Some? then cursor.lastBlockHash.value else []
  }

  /** A cursor never falls below the start block, and its hash is the hash of its last block. */
  predicate CursorShape(start: nat, cursor: Cursor) {
    && cursor.lastBlock >= start - 1
    && (cursor.lastBlockHash.None? <==> cursor.lastBlock < 0)
    && |BranchOf(cursor)| == cursor.lastBlock + 1
  }

  /** The cursor's branch and the chain agree on the blocks that a rewind would keep. */
  ghost predicate WithinDepth(c: Chain, window: nat, start: nat, cursor: Cursor) {
    var landing := Landing(start, window, cursor.lastBlock);
    landing > start ==> landing <= |c| && landing <= |BranchOf(cursor)| && c[..landing] == BranchOf(cursor)[..landing]
  }

  /** The key belongs, on this chain, to a log of another contract. */
  ghost predicate Clobbered(c: Chain, contract: Address, key: Key) {
    exists b: int, j: int ::
      0 <= b < |c| && 0 <= j < |c[b].logs| && c[b].logs[j].key == key && c[b].logs[j].contract != contract
  }

  /**
   The contract's rows are those of its cursor's branch, except that rows whose key now names another
   contract's log may have been overwritten.
   */
  ghost predicate Residual(c: Chain, start: nat, contract: Address, t: Table, cursor: Cursor) {
    var wanted := Events(BranchOf(cursor), contract, start, cursor.lastBlock);
    && (forall r :: r in Slice(t, contract) ==> r in wanted)
    && (forall r :: r in wanted ==> r in Slice(t, contract) || Clobbered(c, contract, r.key))
  }

  lemma NotClobbered(c: Chain, contract: Address, lo: int, hi: int, r: Row)
    requires UniqueKeys(c) && r in Events(c, contract, lo, hi)
    ensures !Clobbered(c, contract, r.key)
  {
    var b, j := EventAt(c, contract, lo, hi, r);
    forall b': int, j': int | 0 <= b' < |c| && 0 <= j' < |c[b'].logs| && c[b'].logs[j'].key == r.key
      ensures c[b'].logs[j'].contract == contract
    {
      assert c[b'].logs[j'].key == c[b].logs[j].key;
    }
  }

  /** On the chain the rows were meant for, nothing can be missing. */
  lemma ResidualExact(c: Chain, start: nat, contract: Address, t: Table, cursor: Cursor)
    requires UniqueKeys(c) && CursorShape(start, cursor) && cursor.lastBlock < |c|
    requires Residual(c, start, contract, t, cursor)
    requires cursor.lastBlock >= 0 ==> BranchOf(cursor) == c[..cursor.lastBlock + 1]
    ensures Slice(t, contract) == Events(c, contract, start, cursor.lastBlock)
  {
    var h, n := BranchOf(cursor), cursor.lastBlock;
    if n >= 0 { assert h[..n + 1] == c[..n + 1]; }
    EventsOnPrefix(h, c, contract, start, n);
    forall r | r in Events(c, contract, start, n) ensures r in Slice(t, contract) {
      NotClobbered(c, contract, start, n, r);
    }
  }

  /** Rewinding a repairable cursor leaves exactly the events below the landing block. */
  lemma RewindExact(c: Chain, window: nat, start: nat, contract: Address, db: Db, cursor: Cursor)
    requires window >= 1 && UniqueKeys(c) && CursorShape(start, cursor)
    requires Residual(c, start, contract, db.events, cursor) && WithinDepth(c, window, start, cursor)
    requires Landing(start, window, cursor.lastBlock) <= |c|
    ensures var landing := Landing(start, window, cursor.lastBlock);
            Slice(RewindDb(db, contract, cursor, landing, CursorBelow(c, landing)).events, contract)
            == Events(c, contract, start, landing - 1)
  {
    var landing := Landing(start, window, cursor.lastBlock);
    var h, n := BranchOf(cursor), cursor.lastBlock;
    var t' := DeleteWindow(db.events, contract, landing, n);
    if landing <= n + 1 {
      EventsSplit(h, contract, start, landing - 1, n);
    }
    if landing > start {
      EventsOnPrefix(h, c, contract, start, landing - 1);
    }
    assert Events(c, contract, start, landing - 1) == Events(h, contract, start, landing - 1);
    forall r ensures r in Slice(t', contract) <==> r in Events(c, contract, start, landing - 1) {
      RewindRow(c, start, contract, db.events, cursor, landing, r);
      if r in Events(c, contract, start, landing - 1) {
        var _, _ := EventAt(c, contract, start, landing - 1, r);
      }
    }
  }

  lemma RewindRow(c: Chain, start: nat, contract: Address, t: Table, cursor: Cursor, landing: nat, r: Row)
    requires UniqueKeys(c) && start <= landing && cursor.lastBlock >= start - 1
    requires Residual(c, start, contract, t, cursor)
    requires Events(c, contract, start, landing - 1) == Events(BranchOf(cursor), contract, start, landing - 1)
    ensures r in Slice(DeleteWindow(t, contract, landing, cursor.lastBlock), contract)
            <==> r in Events(c, contract, start, landing - 1) && r.blockNumber <= cursor.lastBlock
  {
    DeleteSlice(t, contract, landing, cursor.lastBlock, contract, r);
    var h := BranchOf(cursor);
    if r in Events(h, contract, start, cursor.lastBlock) {
      var b, j := EventAt(h, contract, start, cursor.lastBlock, r);
      if b < landing {
        EventIn(h, contract, start, landing - 1, b, j, r);
      }
    }
    if r in Events(h, contract, start, landing - 1) {
      var b, j := EventAt(h, contract, start, landing - 1, r);
      if b <= cursor.lastBlock {
        EventIn(h, contract, start, cursor.lastBlock, b, j, r);
      }
      NotClobbered(c, contract, start, landing - 1, r);
    }
  }

  /** Committing a window extends exactly the events by the window. */
  lemma CommitExact(c: Chain, start: nat, contract: Address, t: Table, n: int, toBlock: int)
    requires UniqueKeys(c) && start - 1 <= n < toBlock < |c|
    requires Slice(t, contract) == Events(c, contract, start, n)
    ensures Slice(Upsert(t, WindowRows(c, contract, n + 1, toBlock)), contract) == Events(c, contract, start, toBlock)
  {
    var rows := WindowRows(c, contract, n + 1, toBlock);
    WindowRowsExact(c, contract, n + 1, toBlock);
    EventsSplit(c, contract, start, n, toBlock);
    forall r ensures r in Slice(Upsert(t, rows), contract) <==> r in Events(c, contract, start, toBlock) {
      CommitRow(c, start, contract, t, n, toBlock, rows, r);
    }
  }

  lemma CommitRow(c: Chain, start: nat, contract: Address, t: Table, n: int, toBlock: int, rows: seq<Row>, r: Row)
    requires UniqueKeys(c) && DistinctKeys(rows) && (set x | x in rows) == Events(c, contract, n + 1, toBlock)
    requires Slice(t, contract) == Events(c, contract, start, n)
    ensures r in Slice(Upsert(t, rows), contract)
            <==> r in Events(c, contract, start, n) || r in Events(c, contract, n + 1, toBlock)
  {
    UpsertSlice(t, rows, contract, r);
    assert r in rows <==> r in (set x | x in rows);
    if r in rows {
      var _, _ := EventAt(c, contract, n + 1, toBlock, r);
    } else if r in Slice(t, contract) && Mentions(rows, r.key) {
      var a :| 0 <= a < |rows| && rows[a].key == r.key;
      assert rows[a] in (set x | x in rows);
      UniqueRows(c, contract, start, n, r, contract, n + 1, toBlock, rows[a]);
      assert false;
    }
  }

  lemma ExactResidual(c: Chain, start: nat, contract: Address, t: Table, n: int)
    requires start - 1 <= n < |c|
    requires Slice(t, contract) == Events(c, contract, start, n)
    ensures CursorShape(start, CursorBelow(c, n + 1)) && Residual(c, start, contract, t, CursorBelow(c, n + 1))
  {
    if n >= 0 {
      EventsOnPrefix(c, c[..n + 1], contract, start, n);
    }
  }

  /** The table, cursor and stored cursor agree on exactly the events up to the cursor. */
  ghost predicate ExactAt(c: Chain, start: nat, contract: Address, db: Db, cursor: Cursor) {
    && Slice(db.events, contract) == Events(c, contract, start, cursor.lastBlock)
    && cursor.lastBlock >= start - 1 && contract in db.cursors && db.cursors[contract] == cursor
  }

  lemma RewindTurnExact(c: Chain, window: nat, start: nat, contract: Address, db: Db, cursor: Cursor)
    requires UniqueKeys(c) && window >= 1 && CursorShape(start, cursor) && Residual(c, start, contract, db.events, cursor)
    requires WithinDepth(c, window, start, cursor) && Landing(start, window, cursor.lastBlock) <= |c|
    ensures var landing := Landing(start, window, cursor.lastBlock);
            var below := CursorBelow(c, landing);
            ExactAt(c, start, contract, RewindDb(db, contract, cursor, landing, below), below)
  {
    RewindExact(c, window, start, contract, db, cursor);
  }

  lemma CommitAt(c: Chain, start: nat, contract: Address, db: Db, n: int, toBlock: int)
    requires UniqueKeys(c) && start - 1 <= n < toBlock < |c|
    requires Slice(db.events, contract) == Events(c, contract, start, n)
    ensures ExactAt(c, start, contract,
                    CommitDb(db, contract, n + 1, toBlock, WindowRows(c, contract, n + 1, toBlock), c[..toBlock + 1], false),
                    CursorBelow(c, toBlock + 1))
  {
    CommitExact(c, start, contract, db.events, n, toBlock);
  }

  lemma CommitTurnExact(c: Chain, window: nat, start: nat, contract: Address, db: Db, cursor: Cursor, target: int)
    requires UniqueKeys(c) && window >= 1 && start <= target < |c| && start - 1 <= cursor.lastBlock < target
    requires !BoundaryNeedsRescan(c, cursor, cursor.lastBlock + 1)
    requires Slice(db.events, contract) == Events(c, contract, start, cursor.lastBlock)
    ensures var next := ScanStep(c, window, start, contract, db, cursor, target, false);
            ExactAt(c, start, contract, next.0, next.1)
  {
    CommitAt(c, start, contract, db, cursor.lastBlock, WindowEnd(window, cursor.lastBlock, target));
  }

  /** From a repairable cursor, one turn leaves exactly the events up to its new cursor. */
  lemma StepExact(c: Chain, window: nat, start: nat, contract: Address, db: Db, cursor: Cursor, target: int)
    requires UniqueKeys(c) && window >= 1 && start <= target < |c| && CursorShape(start, cursor)
    requires cursor.lastBlock < target && Residual(c, start, contract, db.events, cursor)
    requires BoundaryNeedsRescan(c, cursor, cursor.lastBlock + 1) ==> WithinDepth(c, window, start, cursor)
    ensures var next := ScanStep(c, window, start, contract, db, cursor, target, false);
            ExactAt(c, start, contract, next.0, next.1)
  {
    if BoundaryNeedsRescan(c, cursor, cursor.lastBlock + 1) {
      RewindTurnExact(c, window, start, contract, db, cursor);
    } else {
      assert Slice(db.events, contract) == Events(c, contract, start, cursor.lastBlock) by {
        ResidualExact(c, start, contract, db.events, cursor);
      }
      CommitTurnExact(c, window, start, contract, db, cursor, target);
    }
  }

  /** A scan to a target above the cursor leaves exactly the direct filter of start..target. */
  lemma {:induction false} ScanCanonical(c: Chain, window: nat, start: nat, contract: Address, db: Db, cursor: Cursor,
                                         target: int)
    requires UniqueKeys(c) && window >= 1 && start <= target < |c| && CursorShape(start, cursor)
    requires cursor.lastBlock < target && Residual(c, start, contract, db.events, cursor)
    requires BoundaryNeedsRescan(c, cursor, cursor.lastBlock + 1) ==> WithinDepth(c, window, start, cursor)
    ensures var after := ScanFrom(c, window, start, contract, db, cursor, target, false);
            && Slice(after.events, contract) == Events(c, contract, start, target)
            && contract in after.cursors && after.cursors[contract] == CursorBelow(c, target + 1)
    decreases Mismatch(c, cursor, target), target - cursor.lastBlock
  {
    var next := ScanStep(c, window, start, contract, db, cursor, target, false);
    StepProgress(c, window, start, contract, db, cursor, target, false);
    StepExact(c, window, start, contract, db, cursor, target);
    if next.1.lastBlock < target {
      ExactResidual(c, start, contract, next.0.events, next.1.lastBlock);
      ScanCanonical(c, window, start, contract, next.0, next.1, target);
    }
  }

  lemma StepOthers(c: Chain, window: nat, start: nat, contract: Address, db: Db, cursor: Cursor, target: int,
                   replace: bool, other: Address, r: Row)
    requires UniqueKeys(c) && window >= 1 && start <= target < |c| && -1 <= cursor.lastBlock < target
    requires other != contract
    ensures var next := ScanStep(c, window, start, contract, db, cursor, target, replace);
            && (r in Slice(next.0.events, other) ==> r in Slice(db.events, other))
            && (r in Slice(db.events, other) ==> r in Slice(next.0.events, other) || Clobbered(c, other, r.key))
  {
    if BoundaryNeedsRescan(c, cursor, cursor.lastBlock + 1) {
      DeleteSlice(db.events, contract, Landing(start, window, cursor.lastBlock), cursor.lastBlock, other, r);
    } else {
      var fromBlock, toBlock := cursor.lastBlock + 1, WindowEnd(window, cursor.lastBlock, target);
      var rows := WindowRows(c, contract, fromBlock, toBlock);
      var kept := if replace then DeleteWindow(db.events, contract, fromBlock, toBlock) else db.events;
      WindowRowsExact(c, contract, fromBlock, toBlock);
      DeleteSlice(db.events, contract, fromBlock, toBlock, other, r);
      UpsertSlice(kept, rows, other, r);
      forall a | 0 <= a < |rows|
        ensures rows[a].contract == contract && Clobbered(c, other, rows[a].key)
      {
        assert rows[a] in (set x | x in rows);
        var b, j := EventAt(c, contract, fromBlock, toBlock, rows[a]);
        assert c[b].logs[j].contract != other;
      }
    }
  }

  /** Scanning one contract takes from another only rows whose keys are, on this chain, the scanned contract's. */
  lemma {:induction false} ScanOthers(c: Chain, window: nat, start: nat, contract: Address, db: Db, cursor: Cursor,
                                      target: int, replace: bool, other: Address, r: Row)
    requires UniqueKeys(c) && window >= 1 && start <= target < |c| && cursor.lastBlock >= -1 && other != contract
    ensures var after := ScanFrom(c, window, start, contract, db, cursor, target, replace);
            && (r in Slice(after.events, other) ==> r in Slice(db.events, other))
            && (r in Slice(db.events, other) ==> r in Slice(after.events, other) || Clobbered(c, other, r.key))
    decreases Mismatch(c, cursor, target), target - cursor.lastBlock
  {
    if cursor.lastBlock < target {
      var next := ScanStep(c, window, start, contract, db, cursor, target, replace);
      StepProgress(c, window, start, contract, db, cursor, target, replace);
      StepOthers(c, window, start, contract, db, cursor, target, replace, other, r);
      ScanOthers(c, window, start, contract, next.0, next.1, target, replace, other, r);
    }
  }

  lemma ScanKeepsResidual(c: Chain, window: nat, start: nat, contract: Address, db: Db, cursor: Cursor,
                          target: int, replace: bool, other: Address, otherCursor: Cursor)
    requires UniqueKeys(c) && window >= 1 && start <= target < |c| && cursor.lastBlock >= -1 && other != contract
    requires Residual(c, start, other, db.events, otherCursor)
    ensures Residual(c, start, other, ScanFrom(c, window, start, contract, db, cursor, target, replace).events,
                     otherCursor)
  {
    forall r {
      ScanOthers(c, window, start, contract, db, cursor, target, replace, other, r);
    }
  }

  // ---------- Backfill ----------

  ghost function InRange(t: Table, contract: Address, lo: int, hi: int): set<Row> {
    set r | r in Slice(t, contract) && lo <= r.blockNumber <= hi
  }

  lemma ReplaceRow(c: Chain, lo: nat, contract: Address, t: Table, n: int, toBlock: int, rows: seq<Row>, r: Row)
    requires UniqueKeys(c) && lo - 1 <= n < toBlock < |c|
    requires DistinctKeys(rows) && (set x | x in rows) == Events(c, contract, n + 1, toBlock)
    requires InRange(t, contract, lo, n) == Events(c, contract, lo, n)
    ensures r in InRange(Upsert(DeleteWindow(t, contract, n + 1, toBlock), rows), contract, lo, toBlock)
            <==> r in Events(c, contract, lo, n) || r in Events(c, contract, n + 1, toBlock)
  {
    var kept := DeleteWindow(t, contract, n + 1, toBlock);
    UpsertSlice(kept, rows, contract, r);
    DeleteSlice(t, contract, n + 1, toBlock, contract, r);
    assert r in rows <==> r in (set x | x in rows);
    if r in rows {
      var _, _ := EventAt(c, contract, n + 1, toBlock, r);
    } else {
      assert r in InRange(t, contract, lo, n) <==> r in Slice(t, contract) && lo <= r.blockNumber <= n;
      if r in Events(c, contract, lo, n) && Mentions(rows, r.key) {
        var a :| 0 <= a < |rows| && rows[a].key == r.key;
        assert rows[a] in (set x | x in rows);
        UniqueRows(c, contract, lo, n, r, contract, n + 1, toBlock, rows[a]);
        assert false;
      }
    }
  }

  lemma ReplaceExact(c: Chain, lo: nat, contract: Address, t: Table, n: int, toBlock: int)
    requires UniqueKeys(c) && lo - 1 <= n < toBlock < |c|
    requires InRange(t, contract, lo, n) == Events(c, contract, lo, n)
    ensures var rows := WindowRows(c, contract, n + 1, toBlock);
            InRange(Upsert(DeleteWindow(t, contract, n + 1, toBlock), rows), contract, lo, toBlock)
            == Events(c, contract, lo, toBlock)
  {
    var rows := WindowRows(c, contract, n + 1, toBlock);
    WindowRowsExact(c, contract, n + 1, toBlock);
    EventsSplit(c, contract, lo, n, toBlock);
    forall r {
      ReplaceRow(c, lo, contract, t, n, toBlock, rows, r);
    }
  }

  /** The contract's rows in the range are exactly the direct filter of the range. */
  ghost predicate RangeExact(c: Chain, contract: Address, t: Table, lo: int, hi: int) {
    InRange(t, contract, lo, hi) == Events(c, contract, lo, hi)
  }

  lemma BackfillTurn(c: Chain, window: nat, lo: nat, contract: Address, db: Db, n: int, target: int)
    requires UniqueKeys(c) && window >= 1 && lo <= target < |c| && lo - 1 <= n < target
    requires RangeExact(c, contract, db.events, lo, n)
    ensures var next := ScanStep(c, window, lo, contract, db, CursorBelow(c, n + 1), target, true);
            && next.1 == CursorBelow(c, next.1.lastBlock + 1) && n < next.1.lastBlock <= target
            && RangeExact(c, contract, next.0.events, lo, next.1.lastBlock)
  {
    ReplaceExact(c, lo, contract, db.events, n, WindowEnd(window, n, target));
  }

  /** A backfill repairs its range, whatever rows were there before. */
  lemma {:induction false} BackfillRepairs(c: Chain, window: nat, lo: nat, contract: Address, db: Db, n: int, target: int)
    requires UniqueKeys(c) && window >= 1 && lo <= target < |c| && lo - 1 <= n <= target
    requires RangeExact(c, contract, db.events, lo, n)
    ensures RangeExact(c, contract, ScanFrom(c, window, lo, contract, db, CursorBelow(c, n + 1), target, true).events,
                       lo, target)
    decreases target - n
  {
    if n < target {
      var next := ScanStep(c, window, lo, contract, db, CursorBelow(c, n + 1), target, true);
      BackfillTurn(c, window, lo, contract, db, n, target);
      BackfillRepairs(c, window, lo, contract, next.0, next.1.lastBlock, target);
    }
  }
}
