/** The indexer job: every contract is scanned in turn over one shared database. */
module Indexer {
  import opened Prelude
  import opened IndexerChain
  import opened IndexerTable
  import opened IndexerScan

  /** The database after scanning the contracts in order. */
  function RunAll(c: Chain, window: nat, start: nat, contracts: seq<Address>, db: Db, target: int, backfill: bool): (after: Db)
    requires window >= 1 && start <= target < |c| && ValidCursors(db)
    ensures ValidCursors(after)
  {
    if contracts == [] then db
    else
      var before := RunAll(c, window, start, contracts[..|contracts| - 1], db, target, backfill);
      var contract := contracts[|contracts| - 1];
      ScanKeepsValid(c, window, start, contract, before, CursorFor(c, start, contract, before, backfill), target, backfill);
      ScanContractDb(c, window, start, contract, before, target, backfill)
  }

  /** The contract's cursor and rows are such that a scan of this chain can put them right. */
  ghost predicate Repairable(c: Chain, window: nat, start: nat, contract: Address, db: Db, target: int)
    requires start <= target < |c| && ValidCursors(db)
  {
    var cursor := CursorFor(c, start, contract, db, false);
    && CursorShape(start, cursor)
    && Residual(c, start, contract, db.events, cursor)
    && (cursor.lastBlock < target && BoundaryNeedsRescan(c, cursor, cursor.lastBlock + 1)
        ==> WithinDepth(c, window, start, cursor))
  }

  lemma {:induction false} RunKeepsOther(c: Chain, window: nat, start: nat, contracts: seq<Address>, db: Db, target: int,
                                         backfill: bool, other: Address, cursor: Cursor)
    requires UniqueKeys(c) && window >= 1 && start <= target < |c| && ValidCursors(db) && other !in contracts
    requires Residual(c, start, other, db.events, cursor)
    ensures var after := RunAll(c, window, start, contracts, db, target, backfill);
            && Residual(c, start, other, after.events, cursor)
            && (other in after.cursors <==> other in db.cursors)
            && (other in db.cursors ==> after.cursors[other] == db.cursors[other])
  {
    if contracts != [] {
      var front, contract := contracts[..|contracts| - 1], contracts[|contracts| - 1];
      var before := RunAll(c, window, start, front, db, target, backfill);
      RunKeepsOther(c, window, start, front, db, target, backfill, other, cursor);
      var own := CursorFor(c, start, contract, before, backfill);
      ScanKeepsResidual(c, window, start, contract, before, own, target, backfill, other, cursor);
      ScanKeepsValid(c, window, start, contract, before, own, target, backfill);
    }
  }

  /** A contract whose rows are already exact on the chain keeps them while other contracts are scanned. */
  lemma ScanKeepsExact(c: Chain, window: nat, start: nat, contract: Address, db: Db, cursor: Cursor, target: int,
                       replace: bool, other: Address)
    requires UniqueKeys(c) && window >= 1 && start <= target < |c| && cursor.lastBlock >= -1 && other != contract
    requires Slice(db.events, other) == Events(c, other, start, target)
    ensures Slice(ScanFrom(c, window, start, contract, db, cursor, target, replace).events, other)
            == Events(c, other, start, target)
  {
    ExactResidual(c, start, other, db.events, target);
    ScanKeepsResidual(c, window, start, contract, db, cursor, target, replace, other, CursorBelow(c, target + 1));
    ResidualExact(c, start, other, ScanFrom(c, window, start, contract, db, cursor, target, replace).events,
                  CursorBelow(c, target + 1));
  }

  lemma ScanContractCanonical(c: Chain, window: nat, start: nat, contract: Address, db: Db, target: int)
    requires UniqueKeys(c) && window >= 1 && start <= target < |c| && ValidCursors(db)
    requires Repairable(c, window, start, contract, db, target)
    requires CursorFor(c, start, contract, db, false).lastBlock < target
    ensures var after := ScanContractDb(c, window, start, contract, db, target, false);
            ExactAt(c, start, contract, after, CursorBelow(c, target + 1))
  {
    ScanCanonical(c, window, start, contract, db, CursorFor(c, start, contract, db, false), target);
  }

  lemma RunLast(c: Chain, window: nat, start: nat, front: seq<Address>, contract: Address, db: Db, target: int)
    requires UniqueKeys(c) && window >= 1 && start <= target < |c| && ValidCursors(db) && contract !in front
    requires Repairable(c, window, start, contract, db, target)
    requires CursorFor(c, start, contract, db, false).lastBlock < target
    ensures var after := ScanContractDb(c, window, start, contract,
                                        RunAll(c, window, start, front, db, target, false), target, false);
            ExactAt(c, start, contract, after, CursorBelow(c, target + 1))
  {
    RunKeepsOther(c, window, start, front, db, target, false, contract, CursorFor(c, start, contract, db, false));
    ScanContractCanonical(c, window, start, contract, RunAll(c, window, start, front, db, target, false), target);
  }

  lemma NextScanKeeps(c: Chain, window: nat, start: nat, contract: Address, db: Db, target: int, other: Address)
    requires UniqueKeys(c) && window >= 1 && start <= target < |c| && ValidCursors(db) && other != contract
    requires ExactAt(c, start, other, db, CursorBelow(c, target + 1))
    ensures var after := ScanContractDb(c, window, start, contract, db, target, false);
            ExactAt(c, start, other, after, CursorBelow(c, target + 1))
  {
    var own := CursorFor(c, start, contract, db, false);
    ScanKeepsExact(c, window, start, contract, db, own, target, false, other);
    ScanKeepsValid(c, window, start, contract, db, own, target, false);
  }

  lemma {:induction false} RunExact(c: Chain, window: nat, start: nat, contracts: seq<Address>, db: Db, target: int, i: nat)
    requires UniqueKeys(c) && window >= 1 && start <= target < |c| && ValidCursors(db)
    requires forall a, b :: 0 <= a < b < |contracts| ==> contracts[a] != contracts[b]
    requires i < |contracts| && Repairable(c, window, start, contracts[i], db, target)
    requires CursorFor(c, start, contracts[i], db, false).lastBlock < target
    ensures ExactAt(c, start, contracts[i], RunAll(c, window, start, contracts, db, target, false), CursorBelow(c, target + 1))
  {
    var front, contract := contracts[..|contracts| - 1], contracts[|contracts| - 1];
    if i < |front| {
      assert contracts[i] == front[i] && forall a :: 0 <= a < |front| ==> front[a] == contracts[a];
      RunExact(c, window, start, front, db, target, i);
      RunNext(c, window, start, front, contract, db, target, contracts[i]);
    } else {
      RunLast(c, window, start, front, contract, db, target);
    }
  }

  lemma RunNext(c: Chain, window: nat, start: nat, front: seq<Address>, contract: Address, db: Db, target: int,
                other: Address)
    requires UniqueKeys(c) && window >= 1 && start <= target < |c| && ValidCursors(db) && other != contract
    requires ExactAt(c, start, other, RunAll(c, window, start, front, db, target, false), CursorBelow(c, target + 1))
    ensures ExactAt(c, start, other,
                    ScanContractDb(c, window, start, contract, RunAll(c, window, start, front, db, target, false), target, false),
                    CursorBelow(c, target + 1))
  {
    NextScanKeeps(c, window, start, contract, RunAll(c, window, start, front, db, target, false), target, other);
  }

  /**
   One run over several contracts that share the table. Each contract may start on its own stale branch, and
   a scan may overwrite another contract's stale row, yet each contract whose cursor was below the target ends
   with exactly the direct filter of start..target.
   */
  lemma RunCanonical(c: Chain, window: nat, start: nat, contracts: seq<Address>, db: Db, target: int, i: nat)
    requires UniqueKeys(c) && window >= 1 && start <= target < |c| && ValidCursors(db)
    requires forall a, b :: 0 <= a < b < |contracts| ==> contracts[a] != contracts[b]
    requires i < |contracts| && Repairable(c, window, start, contracts[i], db, target)
    requires CursorFor(c, start, contracts[i], db, false).lastBlock < target
    ensures var after := RunAll(c, window, start, contracts, db, target, false);
            && Slice(after.events, contracts[i]) == Events(c, contracts[i], start, target)
            && contracts[i] in after.cursors && after.cursors[contracts[i]] == CursorBelow(c, target + 1)
  {
    RunExact(c, window, start, contracts, db, target, i);
  }

  lemma ScanKeepsRange(c: Chain, window: nat, lo: nat, contract: Address, db: Db, cursor: Cursor, target: int,
                       replace: bool, other: Address)
    requires UniqueKeys(c) && window >= 1 && lo <= target < |c| && cursor.lastBlock >= -1 && other != contract
    requires RangeExact(c, other, db.events, lo, target)
    ensures RangeExact(c, other, ScanFrom(c, window, lo, contract, db, cursor, target, replace).events, lo, target)
  {
    var after := ScanFrom(c, window, lo, contract, db, cursor, target, replace);
    forall r ensures r in InRange(after.events, other, lo, target) <==> r in Events(c, other, lo, target) {
      ScanOthers(c, window, lo, contract, db, cursor, target, replace, other, r);
      if r in Events(c, other, lo, target) {
        assert r in InRange(db.events, other, lo, target);
        NotClobbered(c, other, lo, target, r);
      } else {
        assert r !in InRange(db.events, other, lo, target);
      }
    }
  }

  /** A backfill leaves every contract's rows in its range exact, with no assumption on the rows before it. */
  lemma {:induction false} RunBackfill(c: Chain, window: nat, lo: nat, contracts: seq<Address>, db: Db, target: int, i: nat)
    requires UniqueKeys(c) && window >= 1 && lo <= target < |c| && ValidCursors(db)
    requires forall a, b :: 0 <= a < b < |contracts| ==> contracts[a] != contracts[b]
    requires i < |contracts|
    ensures RangeExact(c, contracts[i], RunAll(c, window, lo, contracts, db, target, true).events, lo, target)
  {
    var front, contract := contracts[..|contracts| - 1], contracts[|contracts| - 1];
    var before := RunAll(c, window, lo, front, db, target, true);
    if i < |front| {
      assert contracts[i] == front[i];
      RunBackfill(c, window, lo, front, db, target, i);
      ScanKeepsRange(c, window, lo, contract, before, CursorBelow(c, lo), target, true, contracts[i]);
    } else {
      BackfillRepairs(c, window, lo, contract, before, lo - 1, target);
    }
  }

  lemma GetLogsSplit(c: Chain, address: Address, lo: nat, mid: int, hi: int)
    requires lo <= mid + 1 && mid <= hi < |c|
    ensures GetLogs(c, address, lo, hi) == GetLogs(c, address, lo, mid) + GetLogs(c, address, mid + 1, hi)
    decreases hi - mid
  {
    if mid < hi {
      GetLogsSplit(c, address, lo, mid, hi - 1);
    }
  }

  lemma WindowRowsSplit(c: Chain, contract: Address, lo: nat, mid: int, hi: int)
    requires lo <= mid + 1 && mid <= hi < |c|
    ensures WindowRows(c, contract, lo, hi) == WindowRows(c, contract, lo, mid) + WindowRows(c, contract, mid + 1, hi)
  {
    GetLogsSplit(c, contract, lo, mid, hi);
    RowsOfConcat(c, contract, GetLogs(c, contract, lo, mid), GetLogs(c, contract, mid + 1, hi));
  }

  /** Where a scan that has work to do starts reading: after its cursor, or where its rewind lands. */
  function FirstScanned(c: Chain, window: nat, start: nat, cursor: Cursor): nat
    requires -1 <= cursor.lastBlock && cursor.lastBlock + 1 < |c|
  {
    if BoundaryNeedsRescan(c, cursor, cursor.lastBlock + 1) then Landing(start, window, cursor.lastBlock)
    else cursor.lastBlock + 1
  }

  datatype ScanResult = ScanResult(
    address: Address, insertedOrUpdated: nat, scannedFrom: Option<int>, scannedTo: Option<int>)

  /** What a turn of the loop indexed: the rows of its window, or nothing when it rewound. */
  function IndexedBy(c: Chain, contract: Address, cursor: Cursor, next: Cursor): Option<nat>
    requires -1 <= cursor.lastBlock && cursor.lastBlock + 1 < |c| && next.lastBlock < |c|
  {
    if BoundaryNeedsRescan(c, cursor, cursor.lastBlock + 1) then None
    else Some(|WindowRows(c, contract, cursor.lastBlock + 1, next.lastBlock)|)
  }

  /** The counters after a turn that moved the loop to a cursor. */
  function Advanced(seen: ScanResult, fromBlock: int, toBlock: int, indexed: Option<nat>): ScanResult {
    if indexed.None? then seen
    else
      seen.(insertedOrUpdated := seen.insertedOrUpdated + indexed.value,
            scannedFrom := if seen.scannedFrom.None? then Some(fromBlock) else seen.scannedFrom,
            scannedTo := Some(toBlock))
  }

  /** What the counters of a scan say when the loop that began at first has reached cursor. */
  ghost predicate Progress(c: Chain, window: nat, start: nat, contract: Address, first: Cursor, cursor: Cursor,
                           target: int, seen: ScanResult)
    requires window >= 1 && start <= target < |c| && -1 <= first.lastBlock
  {
    && seen.address == contract
    && if seen.scannedFrom.None? then
         && seen.scannedTo.None? && seen.insertedOrUpdated == 0
         && (cursor == first || (first.lastBlock < target && Mismatch(c, first, target) == 1
                                 && cursor == CursorBelow(c, Landing(start, window, first.lastBlock))))
       else
         var from := seen.scannedFrom.value;
         && first.lastBlock < target && from == FirstScanned(c, window, start, first)
         && from <= cursor.lastBlock + 1 <= target + 1
         && cursor == CursorBelow(c, cursor.lastBlock + 1) && seen.scannedTo == Some(cursor.lastBlock)
         && seen.insertedOrUpdated == |WindowRows(c, contract, from, cursor.lastBlock)|
  }

  lemma ProgressStep(c: Chain, window: nat, start: nat, contract: Address, first: Cursor, cursor: Cursor, db: Db,
                     target: int, backfill: bool, seen: ScanResult)
    requires window >= 1 && start <= target < |c| && -1 <= first.lastBlock && -1 <= cursor.lastBlock < target
    requires Progress(c, window, start, contract, first, cursor, target, seen)
    ensures var next := ScanStep(c, window, start, contract, db, cursor, target, backfill).1;
            next.lastBlock < |c|
            && Progress(c, window, start, contract, first, next, target,
                        Advanced(seen, cursor.lastBlock + 1, next.lastBlock, IndexedBy(c, contract, cursor, next)))
  {
    StepProgress(c, window, start, contract, db, cursor, target, backfill);
    var next := ScanStep(c, window, start, contract, db, cursor, target, backfill).1;
    if BoundaryNeedsRescan(c, cursor, cursor.lastBlock + 1) {
      RewindProgress(c, window, start, contract, first, cursor, target, seen);
    } else {
      WindowProgress(c, window, start, contract, first, cursor, next.lastBlock, target, seen);
    }
  }

  /** Only the first cursor can be off the chain, so a rewind comes before any window. */
  lemma RewindProgress(c: Chain, window: nat, start: nat, contract: Address, first: Cursor, cursor: Cursor, target: int,
                       seen: ScanResult)
    requires window >= 1 && start <= target < |c| && -1 <= first.lastBlock && -1 <= cursor.lastBlock < target
    requires Progress(c, window, start, contract, first, cursor, target, seen)
    requires BoundaryNeedsRescan(c, cursor, cursor.lastBlock + 1)
    ensures Progress(c, window, start, contract, first, CursorBelow(c, Landing(start, window, cursor.lastBlock)), target, seen)
  {
  }

  lemma WindowProgress(c: Chain, window: nat, start: nat, contract: Address, first: Cursor, cursor: Cursor, toBlock: int,
                       target: int, seen: ScanResult)
    requires window >= 1 && start <= target < |c| && -1 <= first.lastBlock && -1 <= cursor.lastBlock < toBlock <= target
    requires Progress(c, window, start, contract, first, cursor, target, seen)
    requires !BoundaryNeedsRescan(c, cursor, cursor.lastBlock + 1)
    ensures Progress(c, window, start, contract, first, CursorBelow(c, toBlock + 1), target,
                     Advanced(seen, cursor.lastBlock + 1, toBlock,
                              Some(|WindowRows(c, contract, cursor.lastBlock + 1, toBlock)|)))
  {
    if seen.scannedFrom.Some? {
      WindowRowsSplit(c, contract, seen.scannedFrom.value, cursor.lastBlock, toBlock);
    }
  }

  /** A turn of the loop keeps the scan's end and lowers its measure. */
  lemma TurnEffect(c: Chain, window: nat, start: nat, contract: Address, db: Db, cursor: Cursor, target: int,
                   replace: bool)
    requires window >= 1 && start <= target < |c| && -1 <= cursor.lastBlock < target
    ensures var next := ScanStep(c, window, start, contract, db, cursor, target, replace);
            && next.1.lastBlock >= -1
            && ScanFrom(c, window, start, contract, next.0, next.1, target, replace)
               == ScanFrom(c, window, start, contract, db, cursor, target, replace)
            && Mismatch(c, next.1, target) == 0
            && (Mismatch(c, cursor, target) == 0 ==> cursor.lastBlock < next.1.lastBlock)
            && (Mismatch(c, cursor, target) == 1 <==> BoundaryNeedsRescan(c, cursor, cursor.lastBlock + 1))
  {
    StepProgress(c, window, start, contract, db, cursor, target, replace);
  }

  /** The loop is on its way from its first cursor to the scan's end, and its counters say how far. */
  ghost predicate OnTheWay(c: Chain, window: nat, start: nat, contract: Address, initial: Db, first: Cursor, db: Db,
                           cursor: Cursor, target: int, replace: bool, seen: ScanResult)
    requires window >= 1 && start <= target < |c| && -1 <= first.lastBlock
  {
    && -1 <= cursor.lastBlock
    && ScanFrom(c, window, start, contract, db, cursor, target, replace)
       == ScanFrom(c, window, start, contract, initial, first, target, replace)
    && Progress(c, window, start, contract, first, cursor, target, seen)
  }

  lemma TurnOnTheWay(c: Chain, window: nat, start: nat, contract: Address, initial: Db, first: Cursor, db: Db,
                     cursor: Cursor, target: int, replace: bool, seen: ScanResult)
    requires window >= 1 && start <= target < |c| && -1 <= first.lastBlock && cursor.lastBlock < target
    requires OnTheWay(c, window, start, contract, initial, first, db, cursor, target, replace, seen)
    ensures var next := ScanStep(c, window, start, contract, db, cursor, target, replace);
            && next.1.lastBlock < |c|
            && OnTheWay(c, window, start, contract, initial, first, next.0, next.1, target, replace,
                        Advanced(seen, cursor.lastBlock + 1, next.1.lastBlock, IndexedBy(c, contract, cursor, next.1)))
  {
    TurnEffect(c, window, start, contract, db, cursor, target, replace);
    ProgressStep(c, window, start, contract, first, cursor, db, target, replace, seen);
  }

  /** What a scan from a cursor reports: nothing, or the blocks it read and how many rows they yielded. */
  function Report(c: Chain, window: nat, start: nat, contract: Address, first: Cursor, target: int): ScanResult
    requires window >= 1 && start <= target < |c| && -1 <= first.lastBlock
  {
    if first.lastBlock >= target then ScanResult(contract, 0, None, None)
    else
      var from := FirstScanned(c, window, start, first);
      ScanResult(contract, |WindowRows(c, contract, from, target)|, Some(from), Some(target))
  }

  /** The report on one contract of a run, which finds the database as the contracts before it left it. */
  function ReportOf(c: Chain, window: nat, start: nat, contracts: seq<Address>, db: Db, target: int, backfill: bool,
                    i: nat): ScanResult
    requires window >= 1 && start <= target < |c| && ValidCursors(db) && i < |contracts|
  {
    var before := RunAll(c, window, start, contracts[..i], db, target, backfill);
    Report(c, window, start, contracts[i], CursorFor(c, start, contracts[i], before, backfill), target)
  }

  ghost predicate AllReported(c: Chain, window: nat, start: nat, contracts: seq<Address>, db: Db, target: int,
                              backfill: bool, results: seq<ScanResult>)
    requires window >= 1 && start <= target < |c| && ValidCursors(db)
  {
    |results| <= |contracts|
    && forall i :: 0 <= i < |results| ==> results[i] == ReportOf(c, window, start, contracts, db, target, backfill, i)
  }

  /** The next contract's scan continues the run. */
  lemma RunOne(c: Chain, window: nat, start: nat, contracts: seq<Address>, db: Db, target: int, backfill: bool, i: nat)
    requires window >= 1 && start <= target < |c| && ValidCursors(db) && i < |contracts|
    ensures var before := RunAll(c, window, start, contracts[..i], db, target, backfill);
            RunAll(c, window, start, contracts[..i + 1], db, target, backfill)
            == ScanContractDb(c, window, start, contracts[i], before, target, backfill)
  {
    assert contracts[..i + 1][..i] == contracts[..i];
  }

  lemma ReportOne(c: Chain, window: nat, start: nat, contracts: seq<Address>, db: Db, target: int, backfill: bool,
                  results: seq<ScanResult>, result: ScanResult)
    requires window >= 1 && start <= target < |c| && ValidCursors(db) && |results| < |contracts|
    requires AllReported(c, window, start, contracts, db, target, backfill, results)
    requires result == ReportOf(c, window, start, contracts, db, target, backfill, |results|)
    ensures AllReported(c, window, start, contracts, db, target, backfill, results + [result])
  {
  }

  /** The cursor's hash is the chain's, or it has none. */
  predicate OnChain(c: Chain, cursor: Cursor)
    requires cursor.lastBlock < |c|
  {
    cursor.lastBlock < 0 || cursor.lastBlockHash.None? || cursor.lastBlockHash.value == c[..cursor.lastBlock + 1]
  }

  /**
   Where a scan starts and ends. A backfill, and a contract without a cursor, start at the start block; otherwise a scan
   goes on after the stored cursor, or a window lower when the chain has left the cursor's hash.
   */
  predicate ScannedRange(c: Chain, window: nat, start: nat, cursor: Option<Cursor>, target: int, seen: ScanResult)
    requires target < |c|
  {
    if cursor.None? then seen.scannedFrom == Some(start) && seen.scannedTo == Some(target)
    else
      var last := cursor.value.lastBlock;
      if last >= target then seen.scannedFrom.None? && seen.scannedTo.None? && seen.insertedOrUpdated == 0
      else
        && seen.scannedTo == Some(target)
        && seen.scannedFrom == Some(if OnChain(c, cursor.value) then last + 1
                                    else if last - window + 1 > start then last - window + 1 else start)
  }

  lemma ReportStarts(c: Chain, window: nat, start: nat, contract: Address, db: Db, target: int, backfill: bool)
    requires window >= 1 && start <= target < |c| && ValidCursors(db)
    ensures ScannedRange(c, window, start,
                         if !backfill && contract in db.cursors then Some(db.cursors[contract]) else None, target,
                         Report(c, window, start, contract, CursorFor(c, start, contract, db, backfill), target))
  {
    var cursor := CursorFor(c, start, contract, db, backfill);
    if cursor.lastBlock < target {
      assert BoundaryNeedsRescan(c, cursor, cursor.lastBlock + 1) <==> !OnChain(c, cursor);
    }
  }

  // ---------- No block above the target ----------

  /** What a run adds or changes lies at or below a block. */
  ghost predicate NothingAbove(before: Db, after: Db, target: int) {
    && (forall k :: k in after.events && (k !in before.events || after.events[k] != before.events[k]) ==>
          after.events[k].blockNumber <= target)
    && (forall a :: a in after.cursors && (a !in before.cursors || after.cursors[a] != before.cursors[a]) ==>
          after.cursors[a].lastBlock <= target)
  }

  lemma NothingAboveTransitive(a: Db, b: Db, d: Db, target: int)
    requires NothingAbove(a, b, target) && NothingAbove(b, d, target)
    ensures NothingAbove(a, d, target)
  {
  }

  lemma {:induction false} RowsAtOrBelow(c: Chain, contract: Address, logs: seq<ChainLog>, hi: int)
    requires forall a :: 0 <= a < |logs| ==> logs[a].blockNumber < |c| && logs[a].blockNumber <= hi
    ensures forall r :: r in RowsOf(c, contract, logs) ==> r.blockNumber <= hi
  {
    if logs != [] {
      RowsAtOrBelow(c, contract, logs[..|logs| - 1], hi);
    }
  }

  lemma {:induction false} UpsertFrom(t: Table, rows: seq<Row>, k: Key)
    requires k in Upsert(t, rows)
    ensures Upsert(t, rows)[k] in rows || (k in t && Upsert(t, rows)[k] == t[k])
  {
    if rows != [] && rows[|rows| - 1].key != k {
      UpsertFrom(t, rows[..|rows| - 1], k);
    }
  }

  lemma StepAddsBelow(c: Chain, window: nat, start: nat, contract: Address, db: Db, cursor: Cursor, target: int, replace: bool)
    requires window >= 1 && start <= target < |c| && -1 <= cursor.lastBlock < target
    ensures NothingAbove(db, ScanStep(c, window, start, contract, db, cursor, target, replace).0, target)
  {
    StepProgress(c, window, start, contract, db, cursor, target, replace);
    var after := ScanStep(c, window, start, contract, db, cursor, target, replace).0;
    if !BoundaryNeedsRescan(c, cursor, cursor.lastBlock + 1) {
      var fromBlock, toBlock := cursor.lastBlock + 1, WindowEnd(window, cursor.lastBlock, target);
      var rows := WindowRows(c, contract, fromBlock, toBlock);
      var kept := if replace then DeleteWindow(db.events, contract, fromBlock, toBlock) else db.events;
      RowsAtOrBelow(c, contract, GetLogs(c, contract, fromBlock, toBlock), toBlock);
      forall k | k in after.events && (k !in db.events || after.events[k] != db.events[k])
        ensures after.events[k].blockNumber <= target
      {
        UpsertFrom(kept, rows, k);
      }
    }
  }

  lemma {:induction false} ScanAddsBelow(c: Chain, window: nat, start: nat, contract: Address, db: Db, cursor: Cursor,
                                         target: int, replace: bool)
    requires window >= 1 && start <= target < |c| && cursor.lastBlock >= -1
    ensures NothingAbove(db, ScanFrom(c, window, start, contract, db, cursor, target, replace), target)
    decreases Mismatch(c, cursor, target), target - cursor.lastBlock
  {
    if cursor.lastBlock < target {
      var next := ScanStep(c, window, start, contract, db, cursor, target, replace);
      StepProgress(c, window, start, contract, db, cursor, target, replace);
      StepAddsBelow(c, window, start, contract, db, cursor, target, replace);
      ScanAddsBelow(c, window, start, contract, next.0, next.1, target, replace);
      NothingAboveTransitive(db, next.0, ScanFrom(c, window, start, contract, next.0, next.1, target, replace), target);
    }
  }

  /** A run stores no row and no cursor above its target. */
  lemma {:induction false} RunAddsBelow(c: Chain, window: nat, start: nat, contracts: seq<Address>, db: Db, target: int,
                                        backfill: bool)
    requires window >= 1 && start <= target < |c| && ValidCursors(db)
    ensures NothingAbove(db, RunAll(c, window, start, contracts, db, target, backfill), target)
  {
    if contracts != [] {
      var front, contract := contracts[..|contracts| - 1], contracts[|contracts| - 1];
      var before := RunAll(c, window, start, front, db, target, backfill);
      RunAddsBelow(c, window, start, front, db, target, backfill);
      ScanAddsBelow(c, window, start, contract, before, CursorFor(c, start, contract, before, backfill), target, backfill);
      NothingAboveTransitive(db, before, RunAll(c, window, start, contracts, db, target, backfill), target);
    }
  }

  /** A block that is confirmed deep enough, or the first block, and no further than asked. */
  predicate MayIndex(latestBlock: nat, confirmations: nat, toBlock: Option<nat>, block: nat) {
    && (block == 0 || block + confirmations <= latestBlock)
    && (toBlock.Some? ==> block <= toBlock.value)
  }

  lemma TargetIsLargest(latestBlock: nat, confirmations: nat, toBlock: Option<nat>)
    ensures MayIndex(latestBlock, confirmations, toBlock, Target(latestBlock, confirmations, toBlock))
    ensures forall block: nat :: MayIndex(latestBlock, confirmations, toBlock, block) ==>
      block <= Target(latestBlock, confirmations, toBlock)
  {
  }

  /** The last block a run indexes: a number of blocks below the head, and no further than asked. */
  function Target(latestBlock: nat, confirmations: nat, toBlock: Option<nat>): nat {
    var confirmed := if latestBlock < confirmations then 0 else latestBlock - confirmations;
    if toBlock.Some? && toBlock.value < confirmed then toBlock.value else confirmed
  }

  lemma ProgressEnds(c: Chain, window: nat, start: nat, contract: Address, first: Cursor, cursor: Cursor, target: int,
                     seen: ScanResult)
    requires window >= 1 && start <= target < |c| && -1 <= first.lastBlock && cursor.lastBlock >= target
    requires Progress(c, window, start, contract, first, cursor, target, seen)
    ensures seen == Report(c, window, start, contract, first, target)
  {
  }

  lemma WayEnds(c: Chain, window: nat, start: nat, contract: Address, initial: Db, first: Cursor, db: Db,
                cursor: Cursor, target: int, replace: bool, seen: ScanResult)
    requires window >= 1 && start <= target < |c| && -1 <= first.lastBlock && cursor.lastBlock >= target
    requires OnTheWay(c, window, start, contract, initial, first, db, cursor, target, replace, seen)
    ensures db == ScanFrom(c, window, start, contract, initial, first, target, replace)
    ensures seen == Report(c, window, start, contract, first, target)
  {
    ProgressEnds(c, window, start, contract, first, cursor, target, seen);
  }

  /** The indexer process and the two tables it owns. */
  class IndexerJob {
    var events: Table
    var cursors: map<Address, Cursor>
    const window: nat
    const confirmations: nat
    const startBlock: nat

    constructor (window: nat, confirmations: nat, startBlock: nat)
      requires window >= 1
      ensures Valid() && State() == Db(map[], map[])
      ensures this.window == window && this.confirmations == confirmations && this.startBlock == startBlock
    {
      events, cursors := map[], map[];
      this.window, this.confirmations, this.startBlock := window, confirmations, startBlock;
    }

    ghost predicate Valid()
      reads this
    {
      window >= 1 && ValidCursors(State())
    }

    function State(): Db
      reads this
    {
      Db(events, cursors)
    }

    method RewindCursorWindow(c: Chain, contract: Address, cursor: Cursor, start: nat) returns (rewound: Cursor)
      requires Valid() && start <= |c| && cursor.lastBlock < |c|
      modifies this
      ensures Valid()
      ensures rewound == CursorBelow(c, Landing(start, window, cursor.lastBlock))
      ensures State() == RewindDb(old(State()), contract, cursor, Landing(start, window, cursor.lastBlock), rewound)
    {
      var rewindTo := Max(start, cursor.lastBlock - window + 1);
      rewound := Cursor(rewindTo - 1, PreviousBlockHash(c, rewindTo - 1));
      events := DeleteWindow(events, contract, rewindTo, cursor.lastBlock);
      cursors := cursors[contract := rewound];
    }

    /** Decode the logs of a window; the block cache only saves repeated reads of the same block. */
    method ScanWindow(c: Chain, contract: Address, fromBlock: nat, toBlock: int)
      returns (indexed: seq<Row>, lastBlockHash: Chain)
      requires fromBlock <= toBlock < |c|
      ensures indexed == WindowRows(c, contract, fromBlock, toBlock) && lastBlockHash == c[..toBlock + 1]
      ensures UniqueKeys(c) ==> DistinctKeys(indexed) && (set r | r in indexed) == Events(c, contract, fromBlock, toBlock)
    {
      var logs := GetLogs(c, contract, fromBlock, toBlock);
      indexed, lastBlockHash := [], c[..toBlock + 1];
      for i := 0 to |logs|
        invariant indexed == RowsOf(c, contract, logs[..i])
      {
        assert logs[..i + 1][..i] == logs[..i];
        var decoded := DecodeIndexedEvent(logs[i].log.event);
        if decoded.Some? {
          var block := c[logs[i].blockNumber];
          indexed := indexed + [Row(logs[i].log.key, contract, logs[i].blockNumber, c[..logs[i].blockNumber + 1],
                                    block.time, logs[i].log.transactionIndex, decoded.value)];
        }
      }
      assert logs[..|logs|] == logs;
      if UniqueKeys(c) {
        WindowRowsExact(c, contract, fromBlock, toBlock);
      }
    }

    /** The transaction that stores a scanned window and moves the cursor to its end. */
    method CommitWindow(contract: Address, fromBlock: nat, toBlock: int, rows: seq<Row>, lastBlockHash: Chain, replace: bool)
      requires Valid() && toBlock >= -1
      modifies this
      ensures Valid()
      ensures State() == CommitDb(old(State()), contract, fromBlock, toBlock, rows, lastBlockHash, replace)
    {
      if replace {
        events := DeleteWindow(events, contract, fromBlock, toBlock);
      }
      if |rows| > 0 {
        events := Upsert(events, rows);
      }
      cursors := cursors[contract := Cursor(toBlock, Some(lastBlockHash))];
    }

    /** The body of the scan loop: check the boundary, then rewind or scan and store one window. */
    method ScanTurn(c: Chain, contract: Address, start: nat, cursor: Cursor, target: int, backfill: bool)
      returns (next: Cursor, indexed: Option<nat>)
      requires Valid() && start <= target < |c| && -1 <= cursor.lastBlock < target
      modifies this
      ensures Valid()
      ensures var step := ScanStep(c, window, start, contract, old(State()), cursor, target, backfill);
              State() == step.0 && next == step.1
      ensures next.lastBlock < |c|
      ensures indexed == IndexedBy(c, contract, cursor, next)
    {
      var fromBlock := cursor.lastBlock + 1;
      var toBlock := Min(cursor.lastBlock + window, target);
      if BoundaryNeedsRescan(c, cursor, fromBlock) {
        next := RewindCursorWindow(c, contract, cursor, start);
        indexed := None;
      } else {
        var count: nat;
        next, count := StoreWindow(c, contract, fromBlock, toBlock, backfill);
        indexed := Some(count);
      }
    }

    /** Scan one window and store it. */
    method StoreWindow(c: Chain, contract: Address, fromBlock: nat, toBlock: int, backfill: bool)
      returns (next: Cursor, count: nat)
      requires Valid() && fromBlock <= toBlock < |c|
      modifies this
      ensures Valid()
      ensures State() == CommitDb(old(State()), contract, fromBlock, toBlock, WindowRows(c, contract, fromBlock, toBlock),
                                  c[..toBlock + 1], backfill)
      ensures next == CursorBelow(c, toBlock + 1) && count == |WindowRows(c, contract, fromBlock, toBlock)|
    {
      var rows, lastBlockHash := ScanWindow(c, contract, fromBlock, toBlock);
      CommitWindow(contract, fromBlock, toBlock, rows, lastBlockHash, backfill);
      next, count := Cursor(toBlock, Some(lastBlockHash)), |rows|;
    }

    /** What the loop notes after a turn. */
    method CountTurn(seen: ScanResult, fromBlock: int, toBlock: int, indexed: Option<nat>) returns (result: ScanResult)
      ensures result == Advanced(seen, fromBlock, toBlock, indexed)
    {
      result := seen;
      if indexed.Some? {
        result := result.(insertedOrUpdated := result.insertedOrUpdated + indexed.value);
        if result.scannedFrom.None? {
          result := result.(scannedFrom := Some(fromBlock));
        }
        result := result.(scannedTo := Some(toBlock));
      }
    }

    /** The while loop over windows. It ends, after at most one rewind, because of its lexicographic measure. */
    method ScanContract(c: Chain, contract: Address, start: nat, target: int, backfill: bool) returns (result: ScanResult)
      requires Valid() && start <= target < |c|
      modifies this
      ensures Valid()
      ensures State() == ScanContractDb(c, window, start, contract, old(State()), target, backfill)
      ensures result == Report(c, window, start, contract, CursorFor(c, start, contract, old(State()), backfill), target)
      ensures ScannedRange(c, window, start,
                           if !backfill && contract in old(cursors) then Some(old(cursors)[contract]) else None, target,
                           result)
      ensures result.scannedFrom.None? ==> State() == old(State())
    {
      ghost var initial := State();
      ReportStarts(c, window, start, contract, initial, target, backfill);
      var cursor := CursorFor(c, start, contract, State(), backfill);
      ghost var first := cursor;
      ghost var rewinds := 0;
      result := ScanResult(contract, 0, None, None);
      while cursor.lastBlock < target
        invariant Valid()
        invariant OnTheWay(c, window, start, contract, initial, first, State(), cursor, target, backfill, result)
        invariant rewinds + Mismatch(c, cursor, target) <= 1
        decreases Mismatch(c, cursor, target), target - cursor.lastBlock
      {
        TurnEffect(c, window, start, contract, State(), cursor, target, backfill);
        TurnOnTheWay(c, window, start, contract, initial, first, State(), cursor, target, backfill, result);
        var next, indexed := ScanTurn(c, contract, start, cursor, target, backfill);
        if indexed.None? {
          rewinds := rewinds + 1;
        }
        result := CountTurn(result, cursor.lastBlock + 1, next.lastBlock, indexed);
        cursor := next;
      }
      WayEnds(c, window, start, contract, initial, first, State(), cursor, target, backfill, result);
    }

    /** Every contract in order, each on the database as the one before it left it. */
    method ScanContracts(c: Chain, contracts: seq<Address>, start: nat, target: int, backfill: bool)
      returns (results: seq<ScanResult>)
      requires Valid() && start <= target < |c|
      modifies this
      ensures Valid() && State() == RunAll(c, window, start, contracts, old(State()), target, backfill)
      ensures AllReported(c, window, start, contracts, old(State()), target, backfill, results)
      ensures |results| == |contracts|
    {
      ghost var first := State();
      results := [];
      for i := 0 to |contracts|
        invariant Valid() && |results| == i && ValidCursors(first)
        invariant State() == RunAll(c, window, start, contracts[..i], first, target, backfill)
        invariant AllReported(c, window, start, contracts, first, target, backfill, results)
      {
        RunOne(c, window, start, contracts, first, target, backfill, i);
        var result := ScanContract(c, contracts[i], start, target, backfill);
        ReportOne(c, window, start, contracts, first, target, backfill, results, result);
        results := results + [result];
      }
      assert contracts[..|contracts|] == contracts;
    }

    /** One job: confirmed height, target and start, then every contract in order. */
    method RunIndexerOnce(c: Chain, latestBlock: nat, contracts: seq<Address>, fromBlock: Option<nat>, toBlock: Option<nat>)
      returns (results: seq<ScanResult>, target: nat)
      requires Valid() && latestBlock < |c|
      modifies this
      ensures Valid() && |results| == |contracts|
      ensures MayIndex(latestBlock, confirmations, toBlock, target)
      ensures forall block: nat :: MayIndex(latestBlock, confirmations, toBlock, block) ==> block <= target
      ensures NothingAbove(old(State()), State(), target)
      ensures var start := if fromBlock.Some? then fromBlock.value else startBlock;
              if target < start then
                State() == old(State())
                && forall i :: 0 <= i < |contracts| ==> results[i] == ScanResult(contracts[i], 0, None, None)
              else
                State() == RunAll(c, window, start, contracts, old(State()), target, fromBlock.Some?)
                && AllReported(c, window, start, contracts, old(State()), target, fromBlock.Some?, results)
    {
      var confirmedBlock := Max(latestBlock - confirmations, 0);
      target := if toBlock.None? then confirmedBlock else Min(confirmedBlock, toBlock.value);
      var start := if fromBlock.Some? then fromBlock.value else startBlock;
      TargetIsLargest(latestBlock, confirmations, toBlock);
      if target < start {
        results := seq(|contracts|, i requires 0 <= i < |contracts| => ScanResult(contracts[i], 0, None, None));
        return;
      }
      RunAddsBelow(c, window, start, contracts, State(), target, fromBlock.Some?);
      results := ScanContracts(c, contracts, start, target, fromBlock.Some?);
    }
  }
}
