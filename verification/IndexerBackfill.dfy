/** What it is for the index to be right, and exactly when a backfill leaves it so. */
module IndexerBackfill {
  import opened Prelude
  import opened IndexerChain
  import opened IndexerTable
  import opened IndexerScan

  datatype Config = Config(window: nat, start: nat, owner: Key -> Address)

  /**
   The index agrees with the chain: the contract's rows are exactly the decoded logs of start..lastBlock on
   the branch named by the cursor's hash, so none lies above lastBlock; with no cursor there are no rows.
   */
  ghost predicate Canonical(cfg: Config, db: Db, contract: Address) {
    if contract in db.cursors then
      var cursor := db.cursors[contract];
      Slice(db.events, contract) == Events(BranchOf(cursor), contract, cfg.start, cursor.lastBlock)
    else Slice(db.events, contract) == {}
  }

  ghost predicate AtOrBelow(rows: set<Row>, n: int) {
    forall r :: r in rows ==> r.blockNumber <= n
  }

  ghost predicate Above(rows: set<Row>, n: int) {
    forall r :: r in rows ==> r.blockNumber > n
  }

  lemma EventsBounded(c: Chain, contract: Address, lo: int, hi: int)
    ensures AtOrBelow(Events(c, contract, lo, hi), hi) && Above(Events(c, contract, lo, hi), lo - 1)
  {
    forall r | r in Events(c, contract, lo, hi) ensures lo <= r.blockNumber <= hi {
      var _, _ := EventAt(c, contract, lo, hi, r);
    }
  }

  /** A row that a backfill of lo..target neither deletes nor overwrites. */
  ghost predicate OutOfReach(c: Chain, contract: Address, lo: int, target: int, r: Row) {
    !(lo <= r.blockNumber <= target) && forall e :: e in Events(c, contract, lo, target) ==> e.key != r.key
  }

  ghost function Outside(c: Chain, contract: Address, t: Table, lo: int, target: int): set<Row> {
    set r | r in Slice(t, contract) && OutOfReach(c, contract, lo, target, r)
  }

  /** After scanning lo..n of a backfill: the events of lo..n and, of the rest, what was there and out of reach of lo..n. */
  ghost predicate Backfilled(c: Chain, contract: Address, before: Table, t: Table, lo: int, n: int) {
    Slice(t, contract) == Events(c, contract, lo, n) + Outside(c, contract, before, lo, n)
  }

  lemma BackfillWindow(c: Chain, contract: Address, before: Table, t: Table, lo: nat, n: int, toBlock: int)
    requires UniqueKeys(c) && lo - 1 <= n < toBlock < |c| && Backfilled(c, contract, before, t, lo, n)
    ensures Backfilled(c, contract, before,
                       Upsert(DeleteWindow(t, contract, n + 1, toBlock), WindowRows(c, contract, n + 1, toBlock)), lo, toBlock)
  {
    var rows, kept := WindowRows(c, contract, n + 1, toBlock), DeleteWindow(t, contract, n + 1, toBlock);
    WindowRowsExact(c, contract, n + 1, toBlock);
    EventsSplit(c, contract, lo, n, toBlock);
    EventsBounded(c, contract, lo, n);
    EventsBounded(c, contract, n + 1, toBlock);
    forall r
      ensures r in Slice(Upsert(kept, rows), contract)
              <==> r in Events(c, contract, lo, toBlock) || r in Outside(c, contract, before, lo, toBlock)
    {
      BackfillWindowRow(c, contract, before, t, lo, n, toBlock, rows, r);
    }
  }

  lemma BackfillWindowRow(c: Chain, contract: Address, before: Table, t: Table, lo: nat, n: int, toBlock: int,
                          rows: seq<Row>, r: Row)
    requires UniqueKeys(c) && lo - 1 <= n < toBlock < |c| && Backfilled(c, contract, before, t, lo, n)
    requires DistinctKeys(rows) && (set x | x in rows) == Events(c, contract, n + 1, toBlock)
    requires Events(c, contract, lo, toBlock) == Events(c, contract, lo, n) + Events(c, contract, n + 1, toBlock)
    requires AtOrBelow(Events(c, contract, lo, n), n) && Above(Events(c, contract, n + 1, toBlock), n)
    requires AtOrBelow(Events(c, contract, n + 1, toBlock), toBlock) && Above(Events(c, contract, lo, n), lo - 1)
    ensures r in Slice(Upsert(DeleteWindow(t, contract, n + 1, toBlock), rows), contract)
            <==> r in Events(c, contract, lo, toBlock) || r in Outside(c, contract, before, lo, toBlock)
  {
    UpsertSlice(DeleteWindow(t, contract, n + 1, toBlock), rows, contract, r);
    DeleteSlice(t, contract, n + 1, toBlock, contract, r);
    assert r in rows <==> r in (set x | x in rows);
    MentionedIff(c, contract, n + 1, toBlock, rows, r.key);
    if r in Events(c, contract, lo, toBlock) {
      var _, _ := EventAt(c, contract, lo, toBlock, r);
    }
    if r in Events(c, contract, lo, n) {
      forall e | e in Events(c, contract, n + 1, toBlock) ensures e.key != r.key {
        if e.key == r.key {
          UniqueRows(c, contract, lo, n, r, contract, n + 1, toBlock, e);
        }
      }
    }
  }

  lemma MentionedIff(c: Chain, contract: Address, lo: int, hi: int, rows: seq<Row>, key: Key)
    requires (set x | x in rows) == Events(c, contract, lo, hi)
    ensures Mentions(rows, key) <==> exists e :: e in Events(c, contract, lo, hi) && e.key == key
  {
    if Mentions(rows, key) {
      var a :| 0 <= a < |rows| && rows[a].key == key;
      assert rows[a] in (set x | x in rows);
    }
    forall e | e in Events(c, contract, lo, hi) && e.key == key ensures Mentions(rows, key) {
      assert e in (set x | x in rows);
      var a :| 0 <= a < |rows| && rows[a] == e;
    }
  }

  lemma BackfillTurnLeaves(c: Chain, window: nat, contract: Address, before: Table, db: Db, lo: nat, n: int, target: int)
    requires UniqueKeys(c) && window >= 1 && lo <= target < |c| && lo - 1 <= n < target
    requires Backfilled(c, contract, before, db.events, lo, n)
    ensures var next := ScanStep(c, window, lo, contract, db, CursorBelow(c, n + 1), target, true);
            && next.1 == CursorBelow(c, next.1.lastBlock + 1) && n < next.1.lastBlock <= target
            && Backfilled(c, contract, before, next.0.events, lo, next.1.lastBlock)
            && contract in next.0.cursors && next.0.cursors[contract] == next.1
  {
    BackfillWindow(c, contract, before, db.events, lo, n, WindowEnd(window, n, target));
  }

  /** A backfill leaves its range exact and, of the contract's other rows, those whose keys the range does not take. */
  lemma {:induction false} BackfillLeaves(c: Chain, window: nat, contract: Address, before: Table, db: Db, lo: nat, n: int,
                                          target: int)
    requires UniqueKeys(c) && window >= 1 && lo <= target < |c| && lo - 1 <= n <= target
    requires Backfilled(c, contract, before, db.events, lo, n)
    requires n == target ==> contract in db.cursors && db.cursors[contract] == CursorBelow(c, target + 1)
    ensures var after := ScanFrom(c, window, lo, contract, db, CursorBelow(c, n + 1), target, true);
            && Backfilled(c, contract, before, after.events, lo, target)
            && contract in after.cursors && after.cursors[contract] == CursorBelow(c, target + 1)
    decreases target - n
  {
    if n < target {
      var next := ScanStep(c, window, lo, contract, db, CursorBelow(c, n + 1), target, true);
      BackfillTurnLeaves(c, window, contract, before, db, lo, n, target);
      BackfillLeaves(c, window, contract, before, next.0, lo, next.1.lastBlock, target);
    }
  }

  lemma BackfillStarts(c: Chain, contract: Address, t: Table, lo: nat)
    ensures Backfilled(c, contract, t, t, lo, lo - 1)
  {
    forall r ensures r in Slice(t, contract) <==> r in Outside(c, contract, t, lo, lo - 1) {
      EventsBounded(c, contract, lo, lo - 1);
    }
    EventsBounded(c, contract, lo, lo - 1);
  }

  /** The rows a backfill does not reach are the chain's events below it, and it stores no event below the start block. */
  ghost predicate BackfillRight(cfg: Config, c: Chain, t: Table, contract: Address, lo: nat, target: int) {
    && Outside(c, contract, t, lo, target) == Events(c, contract, cfg.start, lo - 1)
    && Events(c, contract, lo, cfg.start - 1) == {}
  }

  /**
   A backfill of lo..target leaves the contract canonical exactly when the rows it does not reach are the chain's
   events below lo, and no event lies between lo and the start block. So a backfill that starts above the cursor,
   or above a reorganised part, leaves a gap or stale rows, which later scans leave too while the chain keeps the
   cursor's hash: LaterScansLeave.
   */
  lemma BackfillCanonicalIff(cfg: Config, c: Chain, db: Db, contract: Address, lo: nat, target: int)
    requires cfg.window >= 1 && UniqueKeys(c) && lo <= target < |c| && cfg.start <= target && ValidCursors(db)
    ensures Canonical(cfg, ScanContractDb(c, cfg.window, lo, contract, db, target, true), contract)
            <==> BackfillRight(cfg, c, db.events, contract, lo, target)
  {
    BackfillStarts(c, contract, db.events, lo);
    BackfillLeaves(c, cfg.window, contract, db.events, db, lo, lo - 1, target);
    EventsOnPrefix(c, c[..target + 1], contract, cfg.start, target);
    OutsideSplits(c, contract, Outside(c, contract, db.events, lo, target), cfg.start, lo, target);
  }

  lemma OutsideSplits(c: Chain, contract: Address, outside: set<Row>, start: nat, lo: nat, target: int)
    requires start <= target && lo <= target && forall r :: r in outside ==> !(lo <= r.blockNumber <= target)
    ensures Events(c, contract, lo, target) + outside == Events(c, contract, start, target)
            <==> outside == Events(c, contract, start, lo - 1) && Events(c, contract, lo, start - 1) == {}
  {
    EventsBounded(c, contract, lo, target);
    EventsBounded(c, contract, start, target);
    EventsBounded(c, contract, start, lo - 1);
    EventsBounded(c, contract, lo, start - 1);
    var whole := Events(c, contract, start, target);
    if start <= lo {
      EventsSplit(c, contract, start, lo - 1, target);
      assert Events(c, contract, lo, start - 1) == {};
    } else {
      EventsSplit(c, contract, lo, start - 1, target);
      assert Events(c, contract, start, lo - 1) == {};
    }
    if Events(c, contract, lo, target) + outside == whole {
      assert forall r :: r in outside <==> r in whole && !(lo <= r.blockNumber <= target);
    }
  }

  /** A backfill that starts no later than the cursor's next block, on a branch that agrees below it, is safe. */
  lemma OverlappingBackfill(cfg: Config, c: Chain, db: Db, contract: Address, lo: nat, target: int)
    requires cfg.window >= 1 && UniqueKeys(c) && cfg.start <= lo <= target < |c| && ValidCursors(db)
    requires contract in db.cursors && CursorShape(cfg.start, db.cursors[contract]) && Canonical(cfg, db, contract)
    requires lo <= db.cursors[contract].lastBlock + 1 <= target + 1
    requires BranchOf(db.cursors[contract])[..lo] == c[..lo]
    ensures BackfillRight(cfg, c, db.events, contract, lo, target)
    ensures Canonical(cfg, ScanContractDb(c, cfg.window, lo, contract, db, target, true), contract)
  {
    var branch, n := BranchOf(db.cursors[contract]), db.cursors[contract].lastBlock;
    EventsSplit(branch, contract, cfg.start, lo - 1, n);
    EventsOnPrefix(branch, c, contract, cfg.start, lo - 1);
    EventsBounded(c, contract, cfg.start, lo - 1);
    EventsBounded(branch, contract, lo, n);
    EventsBounded(c, contract, lo, cfg.start - 1);
    forall r ensures r in Outside(c, contract, db.events, lo, target) <==> r in Events(c, contract, cfg.start, lo - 1) {
      if r in Events(c, contract, cfg.start, lo - 1) {
        forall e | e in Events(c, contract, lo, target) ensures e.key != r.key {
          EventsBounded(c, contract, lo, target);
          if e.key == r.key {
            UniqueRows(c, contract, cfg.start, lo - 1, r, contract, lo, target, e);
          }
        }
      }
    }
    BackfillCanonicalIff(cfg, c, db, contract, lo, target);
  }

  /** What a backfill does to the cursors: its own points at its target, the others stay. */
  lemma BackfillCursors(c: Chain, window: nat, db: Db, contract: Address, lo: nat, target: int)
    requires UniqueKeys(c) && window >= 1 && lo <= target < |c| && ValidCursors(db)
    ensures ScanContractDb(c, window, lo, contract, db, target, true).cursors
            == db.cursors[contract := CursorBelow(c, target + 1)]
  {
    BackfillStarts(c, contract, db.events, lo);
    BackfillLeaves(c, window, contract, db.events, db, lo, lo - 1, target);
    ScanKeepsValid(c, window, lo, contract, db, CursorBelow(c, lo), target, true);
  }

  /** Where log keys keep their contract, a backfill leaves other contracts alone. */
  lemma BackfillOther(cfg: Config, c: Chain, db: Db, contract: Address, lo: nat, target: int, k: Address)
    requires UniqueKeys(c) && OwnedBy(c, cfg.owner) && cfg.window >= 1 && lo <= target < |c| && ValidCursors(db)
    requires k != contract && Canonical(cfg, db, k)
    requires k in db.cursors ==> OwnedBy(BranchOf(db.cursors[k]), cfg.owner)
    ensures Canonical(cfg, ScanContractDb(c, cfg.window, lo, contract, db, target, true), k)
  {
    var after := ScanContractDb(c, cfg.window, lo, contract, db, target, true);
    BackfillCursors(c, cfg.window, db, contract, lo, target);
    forall r ensures r in Slice(after.events, k) <==> r in Slice(db.events, k) {
      ScanOthers(c, cfg.window, lo, contract, db, CursorBelow(c, lo), target, true, k, r);
      if r in Slice(db.events, k) {
        var _, _ := EventAt(BranchOf(db.cursors[k]), k, cfg.start, db.cursors[k].lastBlock, r);
        assert cfg.owner(r.key) == k;
      }
    }
  }

  // ---------- What later scans make of it ----------

  lemma LaterStep(c: Chain, window: nat, start: nat, contract: Address, db: Db, cursor: Cursor, target: int, n: int, r: Row)
    requires UniqueKeys(c) && window >= 1 && start <= target < |c| && -1 <= n <= cursor.lastBlock < target
    requires Mismatch(c, cursor, target) == 0 && r.blockNumber <= n
    ensures var next := ScanStep(c, window, start, contract, db, cursor, target, false);
            r in Slice(next.0.events, contract)
            <==> r in Slice(db.events, contract)
                 && forall e :: e in Events(c, contract, cursor.lastBlock + 1, next.1.lastBlock) ==> e.key != r.key
  {
    var fromBlock, toBlock := cursor.lastBlock + 1, WindowEnd(window, cursor.lastBlock, target);
    var rows := WindowRows(c, contract, fromBlock, toBlock);
    WindowRowsExact(c, contract, fromBlock, toBlock);
    UpsertSlice(db.events, rows, contract, r);
    MentionedIff(c, contract, fromBlock, toBlock, rows, r.key);
    if r in rows {
      assert r in (set x | x in rows);
      var _, _ := EventAt(c, contract, fromBlock, toBlock, r);
      assert false;
    }
  }

  /**
   Later scans, as long as the chain keeps the cursor's hash, neither fill a gap at or below the cursor nor take a
   stale row there, unless an event above the cursor has its key.
   */
  lemma {:induction false} LaterScansLeave(c: Chain, window: nat, start: nat, contract: Address, db: Db, cursor: Cursor,
                                           target: int, n: int, r: Row)
    requires UniqueKeys(c) && window >= 1 && start <= target < |c| && -1 <= n <= cursor.lastBlock
    requires Mismatch(c, cursor, target) == 0 && r.blockNumber <= n
    ensures r in Slice(ScanFrom(c, window, start, contract, db, cursor, target, false).events, contract)
            <==> r in Slice(db.events, contract)
                 && forall e :: e in Events(c, contract, cursor.lastBlock + 1, target) ==> e.key != r.key
    decreases target - cursor.lastBlock
  {
    if cursor.lastBlock < target {
      var next := ScanStep(c, window, start, contract, db, cursor, target, false);
      StepProgress(c, window, start, contract, db, cursor, target, false);
      LaterStep(c, window, start, contract, db, cursor, target, n, r);
      LaterScansLeave(c, window, start, contract, next.0, next.1, target, n, r);
      EventsSplit(c, contract, cursor.lastBlock + 1, next.1.lastBlock, target);
    } else {
      EventsBounded(c, contract, cursor.lastBlock + 1, target);
    }
  }
}
