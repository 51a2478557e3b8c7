/**
 Every run of the indexer against a chain that may be reorganised between any two of its reads and
 writes, with a crash possible before each of them.
 */
module IndexerRuns {
  import opened Prelude
  import opened IndexerChain
  import opened IndexerTable
  import opened IndexerScan
  import opened IndexerBackfill

  /** Where the indexer process is. All of this is lost in a crash. */
  datatype Worker =
    | Idle
    | AtBoundary(contract: Address, cursor: Cursor, target: int)
    | Fetching(contract: Address, cursor: Cursor, target: int, rows: Option<seq<Row>>, head: Option<Chain>, timed: bool)
    | Rewinding(contract: Address, cursor: Cursor, target: int, below: Option<Cursor>)

  datatype State = State(chain: Chain, db: Db, worker: Worker)

  datatype Step =
    | Switch(next: Chain)
    | Begin(contract: Address, target: int)
    | CheckBoundary
    | ReadLogs
    | ReadHead
    | ReadTimes
    | CommitWindow
    | ReadRewindHash
    | CommitRewind
    | Finish
    | Backfill(contract: Address, lo: nat, target: int)
    | Crash

  /** The window the worker is fetching reaches up to this block. */
  function FetchEnd(cfg: Config, w: Worker): int
    requires w.Fetching?
  {
    WindowEnd(cfg.window, w.cursor.lastBlock, w.target)
  }

  /** The blocks whose times the window's rows need: the head of the window has been read already. */
  predicate HasBlocks(c: Chain, rows: seq<Row>, head: Chain, toBlock: int) {
    0 <= toBlock < |head| && forall a :: 0 <= a < |rows| && rows[a].blockNumber != toBlock ==> rows[a].blockNumber < |c|
  }

  /** The rows of a window with the block times that are read after its logs and its head. */
  function Retimed(c: Chain, rows: seq<Row>, head: Chain, toBlock: int): seq<Row>
    requires HasBlocks(c, rows, head, toBlock)
  {
    seq(|rows|, a requires 0 <= a < |rows| =>
      rows[a].(blockTime := if rows[a].blockNumber == toBlock then head[toBlock].time else c[rows[a].blockNumber].time))
  }

  /**
   What one read or write needs of the world to be answered at all. A backfill is one step: it runs on one chain while
   no other job does, and one that stops early is one with a lower target.
   */
  ghost predicate Enabled(cfg: Config, st: State, step: Step) {
    var w := st.worker;
    match step
    case Switch(_) => true
    case Crash => true
    case Begin(_, target) => w.Idle? && cfg.start <= target < |st.chain|
    case CheckBoundary =>
      w.AtBoundary? && w.cursor.lastBlock < w.target && 0 <= w.cursor.lastBlock + 1 < |st.chain|
    case ReadLogs => w.Fetching? && w.rows.None? && 0 <= w.cursor.lastBlock + 1 && FetchEnd(cfg, w) < |st.chain|
    case ReadHead => w.Fetching? && w.head.None? && 0 <= FetchEnd(cfg, w) < |st.chain|
    case ReadTimes =>
      w.Fetching? && w.rows.Some? && w.head.Some? && !w.timed
      && HasBlocks(st.chain, w.rows.value, w.head.value, FetchEnd(cfg, w))
    case CommitWindow => w.Fetching? && w.rows.Some? && w.head.Some? && w.timed && w.cursor.lastBlock >= -1
    case ReadRewindHash => w.Rewinding? && Landing(cfg.start, cfg.window, w.cursor.lastBlock) <= |st.chain|
    case CommitRewind => w.Rewinding? && w.below.Some?
    case Finish => w.AtBoundary? && w.cursor.lastBlock >= w.target
    case Backfill(_, lo, target) =>
      w.Idle? && cfg.window >= 1 && lo <= target < |st.chain| && cfg.start <= target && ValidCursors(st.db)
  }

  ghost function Apply(cfg: Config, st: State, step: Step): State
    requires Enabled(cfg, st, step)
  {
    var w := st.worker;
    match step
    case Switch(next) => st.(chain := next)
    case Crash => st.(worker := Idle)
    case Begin(contract, target) =>
      st.(worker := AtBoundary(contract, CursorFor(st.chain, cfg.start, contract, st.db, false), target))
    case CheckBoundary =>
      if BoundaryNeedsRescan(st.chain, w.cursor, w.cursor.lastBlock + 1)
      then st.(worker := Rewinding(w.contract, w.cursor, w.target, None))
      else st.(worker := Fetching(w.contract, w.cursor, w.target, None, None, false))
    case ReadLogs =>
      st.(worker := w.(rows := Some(WindowRows(st.chain, w.contract, w.cursor.lastBlock + 1, FetchEnd(cfg, w)))))
    case ReadHead => st.(worker := w.(head := Some(st.chain[..FetchEnd(cfg, w) + 1])))
    case ReadTimes =>
      st.(worker := w.(rows := Some(Retimed(st.chain, w.rows.value, w.head.value, FetchEnd(cfg, w))), timed := true))
    case CommitWindow =>
      var toBlock := FetchEnd(cfg, w);
      st.(db := CommitDb(st.db, w.contract, w.cursor.lastBlock + 1, toBlock, w.rows.value, w.head.value, false),
          worker := AtBoundary(w.contract, Cursor(toBlock, w.head), w.target))
    case ReadRewindHash =>
      st.(worker := w.(below := Some(CursorBelow(st.chain, Landing(cfg.start, cfg.window, w.cursor.lastBlock)))))
    case CommitRewind =>
      var landing := Landing(cfg.start, cfg.window, w.cursor.lastBlock);
      st.(db := RewindDb(st.db, w.contract, w.cursor, landing, w.below.value),
          worker := AtBoundary(w.contract, w.below.value, w.target))
    case Finish => st.(worker := Idle)
    case Backfill(contract, lo, target) =>
      st.(db := ScanContractDb(st.chain, cfg.window, lo, contract, st.db, target, true))
  }

  /** The blocks below the window's head that hold rows have the times of these rows. */
  ghost predicate SameTimes(c: Chain, rows: seq<Row>, toBlock: int) {
    forall a :: 0 <= a < |rows| && rows[a].blockNumber != toBlock ==>
      rows[a].blockNumber < |c| && c[rows[a].blockNumber].time == rows[a].blockTime
  }

  /**
   What a switch may not touch while a window is being fetched. Before the first read: the branch of the cursor.
   Between the first two reads: the blocks up to the window's end. After both: no more than a rewind from the
   window's own head could repair, and, until the block times are read, the times of the blocks with rows.
   */
  ghost predicate FetchTolerates(cfg: Config, st: State, next: Chain)
    requires st.worker.Fetching?
  {
    var w, toBlock := st.worker, FetchEnd(cfg, st.worker);
    if w.rows.None? && w.head.None? then
      |BranchOf(w.cursor)| <= |next| && next[..|BranchOf(w.cursor)|] == BranchOf(w.cursor)
    else if w.rows.None? || w.head.None? then
      -1 <= toBlock < |next| && toBlock < |st.chain| && next[..toBlock + 1] == st.chain[..toBlock + 1]
    else
      && WithinDepth(next, cfg.window, cfg.start, Cursor(toBlock, w.head))
      && (!w.timed ==> SameTimes(next, w.rows.value, toBlock))
  }

  /**
   What the indexer relies on when the chain switches: a log key keeps its contract, no stored cursor is
   reorganised below the block its rewind would land on, and a window that is being fetched tolerates the switch.
   */
  ghost predicate TolerableSwitch(cfg: Config, st: State, next: Chain) {
    && UniqueKeys(next) && OwnedBy(next, cfg.owner)
    && (forall k :: k in st.db.cursors ==> WithinDepth(next, cfg.window, cfg.start, st.db.cursors[k]))
    && (st.worker.Fetching? ==> FetchTolerates(cfg, st, next))
  }

  ghost predicate Next(cfg: Config, st: State, step: Step, st': State) {
    && Enabled(cfg, st, step)
    && (step.Switch? ==> TolerableSwitch(cfg, st, step.next))
    && (step.Backfill? ==> BackfillRight(cfg, st.chain, st.db.events, step.contract, step.lo, step.target))
    && st' == Apply(cfg, st, step)
  }

  ghost predicate Init(cfg: Config, st: State) {
    && cfg.window >= 1
    && UniqueKeys(st.chain) && OwnedBy(st.chain, cfg.owner)
    && st.db == Db(map[], map[]) && st.worker == Idle
  }

  ghost predicate GoodCursor(cfg: Config, cursor: Cursor) {
    && CursorShape(cfg.start, cursor)
    && UniqueKeys(BranchOf(cursor)) && OwnedBy(BranchOf(cursor), cfg.owner)
  }

  /** The process works from the stored cursor, or, before any is stored, from the block below start. */
  ghost predicate HoldsCursor(cfg: Config, db: Db, contract: Address, cursor: Cursor) {
    && GoodCursor(cfg, cursor)
    && (if contract in db.cursors then db.cursors[contract] == cursor else cursor.lastBlock == cfg.start - 1)
  }

  /** The window's rows and head are those of one branch that extends the cursor's: the head's own branch. */
  ghost predicate Fetched(cfg: Config, chain: Chain, w: Worker)
    requires w.Fetching? && w.rows.Some? && w.head.Some? && w.cursor.lastBlock >= -1
  {
    var n, toBlock, h := w.cursor.lastBlock, FetchEnd(cfg, w), w.head.value;
    && n < toBlock && |h| == toBlock + 1 && UniqueKeys(h) && OwnedBy(h, cfg.owner)
    && BranchOf(w.cursor) == h[..n + 1]
    && w.rows.value == WindowRows(h, w.contract, n + 1, toBlock)
    && WithinDepth(chain, cfg.window, cfg.start, Cursor(toBlock, w.head))
    && (!w.timed ==> SameTimes(chain, w.rows.value, toBlock))
  }

  ghost predicate FetchInv(cfg: Config, chain: Chain, w: Worker)
    requires w.Fetching? && w.cursor.lastBlock >= -1
  {
    var n, toBlock := w.cursor.lastBlock, FetchEnd(cfg, w);
    if w.rows.Some? && w.head.Some? then Fetched(cfg, chain, w)
    else
      && !w.timed && n < |chain| && BranchOf(w.cursor) == chain[..n + 1]
      && (w.rows.Some? || w.head.Some? ==> -1 <= toBlock < |chain|)
      && (w.rows.Some? ==> w.rows.value == WindowRows(chain, w.contract, n + 1, toBlock))
      && (w.head.Some? ==> w.head.value == chain[..toBlock + 1])
  }

  ghost predicate WorkerInv(cfg: Config, st: State) {
    match st.worker
    case Idle => true
    case AtBoundary(contract, cursor, target) => HoldsCursor(cfg, st.db, contract, cursor)
    case Fetching(contract, cursor, target, rows, head, timed) =>
      HoldsCursor(cfg, st.db, contract, cursor) && cursor.lastBlock < target && FetchInv(cfg, st.chain, st.worker)
    case Rewinding(contract, cursor, target, below) =>
      var landing := Landing(cfg.start, cfg.window, cursor.lastBlock);
      && HoldsCursor(cfg, st.db, contract, cursor)
      && (below.Some? ==>
            && GoodCursor(cfg, below.value) && below.value.lastBlock == landing - 1
            && (landing > cfg.start ==> landing <= |BranchOf(cursor)|
                                        && BranchOf(below.value) == BranchOf(cursor)[..landing]))
  }

  ghost predicate DbInv(cfg: Config, db: Db, chain: Chain) {
    && (forall k :: k in db.cursors ==>
          GoodCursor(cfg, db.cursors[k]) && WithinDepth(chain, cfg.window, cfg.start, db.cursors[k]))
    && (forall k :: Canonical(cfg, db, k))
  }

  ghost predicate Inv(cfg: Config, st: State) {
    && cfg.window >= 1
    && UniqueKeys(st.chain) && OwnedBy(st.chain, cfg.owner)
    && DbInv(cfg, st.db, st.chain)
    && WorkerInv(cfg, st)
  }

  lemma PrefixGood(cfg: Config, chain: Chain, blockNumber: nat)
    requires UniqueKeys(chain) && OwnedBy(chain, cfg.owner) && cfg.start <= blockNumber <= |chain|
    ensures GoodCursor(cfg, CursorBelow(chain, blockNumber))
  {
    PrefixUnique(chain, blockNumber);
    PrefixOwned(chain, blockNumber, cfg.owner);
    assert BranchOf(CursorBelow(chain, blockNumber)) == chain[..blockNumber];
  }

  /** Rows of a branch whose keys keep their contract never meet an upsert for another contract. */
  lemma OtherSliceKept(cfg: Config, chain: Chain, branch: Chain, t: Table, contract: Address, fromBlock: nat, toBlock: int,
                       other: Address, lo: int, hi: int)
    requires UniqueKeys(chain) && OwnedBy(chain, cfg.owner) && OwnedBy(branch, cfg.owner)
    requires other != contract && toBlock < |chain|
    requires Slice(t, other) == Events(branch, other, lo, hi)
    ensures Slice(Upsert(t, WindowRows(chain, contract, fromBlock, toBlock)), other) == Slice(t, other)
  {
    var rows := WindowRows(chain, contract, fromBlock, toBlock);
    WindowRowsExact(chain, contract, fromBlock, toBlock);
    forall a | 0 <= a < |rows| ensures rows[a].contract == contract && cfg.owner(rows[a].key) == contract {
      assert rows[a] in (set x | x in rows);
      var b, j := EventAt(chain, contract, fromBlock, toBlock, rows[a]);
    }
    forall r ensures r in Slice(Upsert(t, rows), other) <==> r in Slice(t, other) {
      UpsertSlice(t, rows, other, r);
      if r in Slice(t, other) {
        var b, j := EventAt(branch, other, lo, hi, r);
        assert cfg.owner(r.key) == other;
      }
    }
  }

  lemma CommitOwn(cfg: Config, chain: Chain, t: Table, contract: Address, branch: Chain, n: int, toBlock: int)
    requires UniqueKeys(chain) && cfg.start - 1 <= n < toBlock < |chain| && branch == chain[..n + 1]
    requires Slice(t, contract) == Events(branch, contract, cfg.start, n)
    ensures Slice(Upsert(t, WindowRows(chain, contract, n + 1, toBlock)), contract)
            == Events(chain[..toBlock + 1], contract, cfg.start, toBlock)
  {
    assert Events(branch, contract, cfg.start, n) == Events(chain, contract, cfg.start, n) by {
      EventsOnPrefix(branch, chain, contract, cfg.start, n);
    }
    assert Events(chain[..toBlock + 1], contract, cfg.start, toBlock) == Events(chain, contract, cfg.start, toBlock) by {
      EventsOnPrefix(chain[..toBlock + 1], chain, contract, cfg.start, toBlock);
    }
    CommitExact(chain, cfg.start, contract, t, n, toBlock);
  }

  lemma CommitOther(cfg: Config, chain: Chain, db: Db, contract: Address, fromBlock: nat, toBlock: int, head: Chain,
                    k: Address)
    requires UniqueKeys(chain) && OwnedBy(chain, cfg.owner) && toBlock < |chain| && k != contract
    requires Canonical(cfg, db, k) && (k in db.cursors ==> OwnedBy(BranchOf(db.cursors[k]), cfg.owner))
    ensures Canonical(cfg, CommitDb(db, contract, fromBlock, toBlock, WindowRows(chain, contract, fromBlock, toBlock),
                                    head, false), k)
  {
    if k in db.cursors {
      OtherSliceKept(cfg, chain, BranchOf(db.cursors[k]), db.events, contract, fromBlock, toBlock, k, cfg.start,
                     db.cursors[k].lastBlock);
    } else {
      OtherSliceKept(cfg, chain, [], db.events, contract, fromBlock, toBlock, k, 0, 0);
    }
  }

  lemma OwnRows(cfg: Config, db: Db, contract: Address, cursor: Cursor)
    requires HoldsCursor(cfg, db, contract, cursor) && Canonical(cfg, db, contract)
    ensures Slice(db.events, contract) == Events(BranchOf(cursor), contract, cfg.start, cursor.lastBlock)
  {
    if contract !in db.cursors {
      forall r ensures r !in Events(BranchOf(cursor), contract, cfg.start, cursor.lastBlock) {
        if r in Events(BranchOf(cursor), contract, cfg.start, cursor.lastBlock) {
          var _, _ := EventAt(BranchOf(cursor), contract, cfg.start, cursor.lastBlock, r);
          assert false;
        }
      }
    }
  }

  lemma CommitOwnCanonical(cfg: Config, chain: Chain, db: Db, contract: Address, cursor: Cursor, toBlock: int)
    requires UniqueKeys(chain) && HoldsCursor(cfg, db, contract, cursor) && Canonical(cfg, db, contract)
    requires cursor.lastBlock < toBlock < |chain| && BranchOf(cursor) == chain[..cursor.lastBlock + 1]
    ensures Canonical(cfg, CommitDb(db, contract, cursor.lastBlock + 1, toBlock,
                                    WindowRows(chain, contract, cursor.lastBlock + 1, toBlock), chain[..toBlock + 1],
                                    false), contract)
  {
    OwnRows(cfg, db, contract, cursor);
    CommitOwn(cfg, chain, db.events, contract, BranchOf(cursor), cursor.lastBlock, toBlock);
  }

  /** Storing a window with the branch it was read from. */
  lemma CommitOnBranch(cfg: Config, h: Chain, db: Db, contract: Address, cursor: Cursor, k: Address)
    requires UniqueKeys(h) && OwnedBy(h, cfg.owner) && HoldsCursor(cfg, db, contract, cursor)
    requires cursor.lastBlock < |h| - 1 && BranchOf(cursor) == h[..cursor.lastBlock + 1]
    requires Canonical(cfg, db, contract) && Canonical(cfg, db, k)
    requires k in db.cursors ==> OwnedBy(BranchOf(db.cursors[k]), cfg.owner)
    ensures Canonical(cfg, CommitDb(db, contract, cursor.lastBlock + 1, |h| - 1,
                                    WindowRows(h, contract, cursor.lastBlock + 1, |h| - 1), h, false), k)
  {
    assert h[..|h|] == h;
    if k == contract {
      CommitOwnCanonical(cfg, h, db, k, cursor, |h| - 1);
    } else {
      CommitOther(cfg, h, db, contract, cursor.lastBlock + 1, |h| - 1, h, k);
    }
  }

  lemma CommitCanonical(cfg: Config, st: State, k: Address)
    requires Inv(cfg, st) && Enabled(cfg, st, CommitWindow)
    ensures Canonical(cfg, Apply(cfg, st, CommitWindow).db, k)
  {
    var w := st.worker;
    var h, toBlock := w.head.value, FetchEnd(cfg, w);
    assert Fetched(cfg, st.chain, w);
    assert Canonical(cfg, st.db, k) && Canonical(cfg, st.db, w.contract);
    CommitOnBranch(cfg, h, st.db, w.contract, w.cursor, k);
  }

  lemma BelowWithinDepth(cfg: Config, chain: Chain, blockNumber: nat)
    requires cfg.window >= 1 && cfg.start <= blockNumber <= |chain|
    ensures WithinDepth(chain, cfg.window, cfg.start, CursorBelow(chain, blockNumber))
  {
    var landing := Landing(cfg.start, cfg.window, blockNumber - 1);
    assert landing <= blockNumber ==> chain[..landing] == chain[..blockNumber][..landing];
  }

  lemma CursorReplaced(cfg: Config, db: Db, db': Db, chain: Chain, contract: Address, cursor: Cursor)
    requires DbInv(cfg, db, chain) && db'.cursors == db.cursors[contract := cursor]
    requires GoodCursor(cfg, cursor) && WithinDepth(chain, cfg.window, cfg.start, cursor)
    requires forall k :: Canonical(cfg, db', k)
    ensures DbInv(cfg, db', chain)
  {
  }

  /** The window is stored with the branch it was read from, whatever the chain is by now. */
  lemma CommitKeepsInv(cfg: Config, st: State)
    requires Inv(cfg, st) && Enabled(cfg, st, CommitWindow)
    ensures Inv(cfg, Apply(cfg, st, CommitWindow))
  {
    var w, st' := st.worker, Apply(cfg, st, CommitWindow);
    var cursor := Cursor(FetchEnd(cfg, w), w.head);
    assert Fetched(cfg, st.chain, w);
    assert GoodCursor(cfg, cursor) && WithinDepth(st.chain, cfg.window, cfg.start, cursor);
    forall k ensures Canonical(cfg, st'.db, k) {
      CommitCanonical(cfg, st, k);
    }
    CursorReplaced(cfg, st.db, st'.db, st.chain, w.contract, cursor);
  }

  /** Deleting a cursor's last window leaves the events of its branch below the landing block. */
  lemma RewindSlice(start: nat, window: nat, t: Table, contract: Address, branch: Chain, n: int)
    requires window >= 1 && n >= start - 1 && Slice(t, contract) == Events(branch, contract, start, n)
    ensures var landing := Landing(start, window, n);
            Slice(DeleteWindow(t, contract, landing, n), contract) == Events(branch, contract, start, landing - 1)
  {
    var landing: int := Landing(start, window, n);
    EventsSplit(branch, contract, start, landing - 1, n);
    forall r ensures r in Slice(DeleteWindow(t, contract, landing, n), contract)
                     <==> r in Events(branch, contract, start, landing - 1) {
      DeleteSlice(t, contract, landing, n, contract, r);
      if r in Events(branch, contract, start, n) {
        var _, _ := EventAt(branch, contract, start, n, r);
      }
      if r in Events(branch, contract, start, landing - 1) {
        var _, _ := EventAt(branch, contract, start, landing - 1, r);
      }
    }
  }

  lemma RewindKeepsInv(cfg: Config, st: State)
    requires Inv(cfg, st) && Enabled(cfg, st, CommitRewind)
    ensures Inv(cfg, Apply(cfg, st, CommitRewind))
  {
    var st' := Apply(cfg, st, CommitRewind);
    forall k ensures Canonical(cfg, st'.db, k) {
      RewindCanonical(cfg, st, k);
    }
  }

  lemma RewindCanonical(cfg: Config, st: State, k: Address)
    requires Inv(cfg, st) && Enabled(cfg, st, CommitRewind)
    ensures Canonical(cfg, Apply(cfg, st, CommitRewind).db, k)
  {
    var w := st.worker;
    var n, landing := w.cursor.lastBlock, Landing(cfg.start, cfg.window, w.cursor.lastBlock);
    assert Canonical(cfg, st.db, k);
    if k == w.contract {
      RewindSlice(cfg.start, cfg.window, st.db.events, k, BranchOf(w.cursor), n);
      if landing > cfg.start {
        EventsOnPrefix(BranchOf(w.cursor), BranchOf(w.below.value), k, cfg.start, landing - 1);
      }
    } else {
      RewindOther(st.db.events, w.contract, landing, n, k);
    }
  }

  lemma RewindOther(t: Table, contract: Address, lo: int, hi: int, k: Address)
    requires k != contract
    ensures Slice(DeleteWindow(t, contract, lo, hi), k) == Slice(t, k)
  {
    forall r {
      DeleteSlice(t, contract, lo, hi, k, r);
    }
  }

  lemma PrefixOfPrefix(c: Chain, p: Chain, n: nat, m: nat)
    requires n <= m <= |c| && m <= |p| && c[..m] == p[..m]
    ensures c[..n] == p[..n]
  {
    assert c[..n] == c[..m][..n] == p[..m][..n] == p[..n];
  }

  lemma FetchKept(cfg: Config, chain: Chain, next: Chain, w: Worker)
    requires w.Fetching? && cfg.window >= 1 && -1 <= w.cursor.lastBlock < w.target
    requires |BranchOf(w.cursor)| == w.cursor.lastBlock + 1
    requires FetchInv(cfg, chain, w) && FetchTolerates(cfg, State(chain, Db(map[], map[]), w), next)
    ensures FetchInv(cfg, next, w)
  {
    if (w.rows.None? || w.head.None?) && (w.rows.Some? || w.head.Some?) {
      var n, toBlock := w.cursor.lastBlock, FetchEnd(cfg, w);
      PrefixOfPrefix(next, chain, n + 1, toBlock + 1);
      WindowOnPrefix(chain, next, w.contract, n + 1, toBlock);
    }
  }

  lemma {:induction false} BlockLogsOnPrefix(c: Chain, p: Chain, address: Address, b: nat, n: nat)
    requires b < |c| && b < |p| && c[b] == p[b] && n <= |c[b].logs|
    ensures BlockLogs(c, address, b, n) == BlockLogs(p, address, b, n)
  {
    if n > 0 {
      BlockLogsOnPrefix(c, p, address, b, n - 1);
    }
  }

  lemma {:induction false} GetLogsOnPrefix(c: Chain, p: Chain, address: Address, fromBlock: nat, toBlock: int)
    requires toBlock < |c| && toBlock < |p| && (0 <= toBlock ==> c[..toBlock + 1] == p[..toBlock + 1])
    ensures GetLogs(c, address, fromBlock, toBlock) == GetLogs(p, address, fromBlock, toBlock)
    decreases toBlock + 1 - fromBlock
  {
    if fromBlock <= toBlock {
      assert c[..toBlock] == c[..toBlock + 1][..toBlock] == p[..toBlock + 1][..toBlock] == p[..toBlock];
      assert c[toBlock] == c[..toBlock + 1][toBlock] == p[..toBlock + 1][toBlock] == p[toBlock];
      GetLogsOnPrefix(c, p, address, fromBlock, toBlock - 1);
      BlockLogsOnPrefix(c, p, address, toBlock, |c[toBlock].logs|);
    }
  }

  lemma {:induction false} RowsOnPrefix(c: Chain, p: Chain, contract: Address, logs: seq<ChainLog>, toBlock: nat)
    requires toBlock < |c| && toBlock < |p| && c[..toBlock + 1] == p[..toBlock + 1]
    requires forall a :: 0 <= a < |logs| ==> logs[a].blockNumber <= toBlock
    ensures RowsOf(c, contract, logs) == RowsOf(p, contract, logs)
  {
    if logs != [] {
      RowsOnPrefix(c, p, contract, logs[..|logs| - 1], toBlock);
      var b := logs[|logs| - 1].blockNumber;
      assert c[..b + 1] == c[..toBlock + 1][..b + 1] == p[..toBlock + 1][..b + 1] == p[..b + 1];
      assert c[b] == c[..b + 1][b] == p[..b + 1][b] == p[b];
    }
  }

  lemma WindowOnPrefix(c: Chain, p: Chain, contract: Address, fromBlock: nat, toBlock: int)
    requires toBlock < |c| && toBlock < |p| && (0 <= toBlock ==> c[..toBlock + 1] == p[..toBlock + 1])
    ensures WindowRows(c, contract, fromBlock, toBlock) == WindowRows(p, contract, fromBlock, toBlock)
  {
    GetLogsOnPrefix(c, p, contract, fromBlock, toBlock);
    if fromBlock <= toBlock {
      RowsOnPrefix(c, p, contract, GetLogs(c, contract, fromBlock, toBlock), toBlock);
    }
  }

  lemma RewindHashKeepsInv(cfg: Config, st: State)
    requires Inv(cfg, st) && Enabled(cfg, st, ReadRewindHash)
    ensures Inv(cfg, Apply(cfg, st, ReadRewindHash))
  {
    var w := st.worker;
    var landing := Landing(cfg.start, cfg.window, w.cursor.lastBlock);
    PrefixGood(cfg, st.chain, landing);
    assert BranchOf(CursorBelow(st.chain, landing)) == st.chain[..landing];
  }

  lemma SwitchKeepsInv(cfg: Config, st: State, next: Chain)
    requires Inv(cfg, st) && TolerableSwitch(cfg, st, next)
    ensures Inv(cfg, st.(chain := next))
  {
    if st.worker.Fetching? {
      FetchKept(cfg, st.chain, next, st.worker);
    }
  }

  lemma {:induction false} RowTimes(c: Chain, contract: Address, logs: seq<ChainLog>)
    requires forall a :: 0 <= a < |logs| ==> logs[a].blockNumber < |c|
    ensures forall r :: r in RowsOf(c, contract, logs) ==> r.blockNumber < |c| && r.blockTime == c[r.blockNumber].time
  {
    if logs != [] {
      RowTimes(c, contract, logs[..|logs| - 1]);
    }
  }

  /** Reading the block times last gives the rows of the branch exactly when the blocks still have the rows' times. */
  lemma RetimedIff(c: Chain, h: Chain, contract: Address, fromBlock: nat, toBlock: nat)
    requires toBlock < |h| && HasBlocks(c, WindowRows(h, contract, fromBlock, toBlock), h, toBlock)
    ensures var rows := WindowRows(h, contract, fromBlock, toBlock);
            Retimed(c, rows, h, toBlock) == rows <==> SameTimes(c, rows, toBlock)
  {
    var rows := WindowRows(h, contract, fromBlock, toBlock);
    RowTimes(h, contract, GetLogs(h, contract, fromBlock, toBlock));
    forall a | 0 <= a < |rows| ensures rows[a].blockTime == h[rows[a].blockNumber].time {
      assert rows[a] in rows;
    }
    if Retimed(c, rows, h, toBlock) == rows {
      forall a | 0 <= a < |rows| && rows[a].blockNumber != toBlock ensures c[rows[a].blockNumber].time == rows[a].blockTime {
        assert Retimed(c, rows, h, toBlock)[a] == rows[a];
      }
    }
  }

  lemma BothRead(cfg: Config, chain: Chain, w: Worker)
    requires w.Fetching? && cfg.window >= 1 && cfg.start - 1 <= w.cursor.lastBlock < w.target
    requires UniqueKeys(chain) && OwnedBy(chain, cfg.owner) && FetchEnd(cfg, w) < |chain| && !w.timed
    requires BranchOf(w.cursor) == chain[..w.cursor.lastBlock + 1]
    requires w.rows == Some(WindowRows(chain, w.contract, w.cursor.lastBlock + 1, FetchEnd(cfg, w)))
    requires w.head == Some(chain[..FetchEnd(cfg, w) + 1])
    ensures Fetched(cfg, chain, w)
  {
    var n, toBlock, h := w.cursor.lastBlock, FetchEnd(cfg, w), w.head.value;
    PrefixUnique(chain, toBlock + 1);
    PrefixOwned(chain, toBlock + 1, cfg.owner);
    assert h[..toBlock + 1] == chain[..toBlock + 1];
    WindowOnPrefix(chain, h, w.contract, n + 1, toBlock);
    BelowWithinDepth(cfg, chain, toBlock + 1);
    assert h[..n + 1] == chain[..n + 1];
    RowTimes(chain, w.contract, GetLogs(chain, w.contract, n + 1, toBlock));
    forall a | 0 <= a < |w.rows.value|
      ensures w.rows.value[a].blockNumber < |chain|
      ensures chain[w.rows.value[a].blockNumber].time == w.rows.value[a].blockTime
    {
      assert w.rows.value[a] in w.rows.value;
    }
  }

  lemma CheckKeepsWorker(cfg: Config, st: State)
    requires cfg.window >= 1 && WorkerInv(cfg, st) && Enabled(cfg, st, CheckBoundary)
    ensures WorkerInv(cfg, Apply(cfg, st, CheckBoundary))
  {
  }

  lemma ReadKeepsWorker(cfg: Config, st: State, step: Step)
    requires cfg.window >= 1 && UniqueKeys(st.chain) && OwnedBy(st.chain, cfg.owner)
    requires WorkerInv(cfg, st) && Enabled(cfg, st, step) && (step.ReadLogs? || step.ReadHead?)
    ensures WorkerInv(cfg, Apply(cfg, st, step))
  {
    var w' := Apply(cfg, st, step).worker;
    if w'.Fetching? && w'.rows.Some? && w'.head.Some? {
      BothRead(cfg, st.chain, w');
    }
  }

  lemma TimesKeepWorker(cfg: Config, st: State)
    requires WorkerInv(cfg, st) && Enabled(cfg, st, ReadTimes)
    ensures WorkerInv(cfg, Apply(cfg, st, ReadTimes))
  {
    var w := st.worker;
    assert Fetched(cfg, st.chain, w);
    RetimedIff(st.chain, w.head.value, w.contract, w.cursor.lastBlock + 1, FetchEnd(cfg, w));
  }

  lemma BeginKeepsWorker(cfg: Config, st: State, contract: Address, target: int)
    requires Inv(cfg, st) && Enabled(cfg, st, Begin(contract, target))
    ensures WorkerInv(cfg, Apply(cfg, st, Begin(contract, target)))
  {
    PrefixGood(cfg, st.chain, cfg.start);
  }

  lemma BackfillCanonical(cfg: Config, c: Chain, db: Db, contract: Address, lo: nat, target: int, k: Address)
    requires UniqueKeys(c) && OwnedBy(c, cfg.owner) && cfg.window >= 1 && lo <= target < |c| && cfg.start <= target
    requires ValidCursors(db) && Canonical(cfg, db, k) && (k in db.cursors ==> OwnedBy(BranchOf(db.cursors[k]), cfg.owner))
    requires BackfillRight(cfg, c, db.events, contract, lo, target)
    ensures Canonical(cfg, ScanContractDb(c, cfg.window, lo, contract, db, target, true), k)
  {
    if k == contract {
      BackfillCanonicalIff(cfg, c, db, contract, lo, target);
    } else {
      BackfillOther(cfg, c, db, contract, lo, target, k);
    }
  }

  lemma BackfillAllCanonical(cfg: Config, c: Chain, db: Db, contract: Address, lo: nat, target: int)
    requires UniqueKeys(c) && OwnedBy(c, cfg.owner) && cfg.window >= 1 && lo <= target < |c| && cfg.start <= target
    requires DbInv(cfg, db, c) && ValidCursors(db) && BackfillRight(cfg, c, db.events, contract, lo, target)
    ensures forall k :: Canonical(cfg, ScanContractDb(c, cfg.window, lo, contract, db, target, true), k)
  {
    forall k ensures Canonical(cfg, ScanContractDb(c, cfg.window, lo, contract, db, target, true), k) {
      assert Canonical(cfg, db, k);
      BackfillCanonical(cfg, c, db, contract, lo, target, k);
    }
  }

  /** A backfill whose rows out of reach are right keeps every contract canonical. */
  lemma BackfillKeepsInv(cfg: Config, st: State, contract: Address, lo: nat, target: int)
    requires Inv(cfg, st) && Enabled(cfg, st, Backfill(contract, lo, target))
    requires BackfillRight(cfg, st.chain, st.db.events, contract, lo, target)
    ensures Inv(cfg, Apply(cfg, st, Backfill(contract, lo, target)))
  {
    var db' := Apply(cfg, st, Backfill(contract, lo, target)).db;
    PrefixGood(cfg, st.chain, target + 1);
    BelowWithinDepth(cfg, st.chain, target + 1);
    BackfillCursors(st.chain, cfg.window, st.db, contract, lo, target);
    BackfillAllCanonical(cfg, st.chain, st.db, contract, lo, target);
    CursorReplaced(cfg, st.db, db', st.chain, contract, CursorBelow(st.chain, target + 1));
  }

  lemma StepKeepsInv(cfg: Config, st: State, step: Step, st': State)
    requires Inv(cfg, st) && Next(cfg, st, step, st')
    ensures Inv(cfg, st')
  {
    match step
    case Switch(next) => SwitchKeepsInv(cfg, st, next);
    case CommitWindow => CommitKeepsInv(cfg, st);
    case CommitRewind => RewindKeepsInv(cfg, st);
    case ReadRewindHash => RewindHashKeepsInv(cfg, st);
    case Begin(contract, target) => BeginKeepsWorker(cfg, st, contract, target);
    case ReadTimes => TimesKeepWorker(cfg, st);
    case Backfill(contract, lo, target) => BackfillKeepsInv(cfg, st, contract, lo, target);
    case CheckBoundary => CheckKeepsWorker(cfg, st);
    case Finish =>
    case Crash =>
    case _ => ReadKeepsWorker(cfg, st, step);
  }

  ghost predicate NextAt(cfg: Config, states: seq<State>, steps: seq<Step>, i: nat)
    requires i < |steps| && |states| == |steps| + 1
  {
    Next(cfg, states[i], steps[i], states[i + 1])
  }

  ghost predicate Run(cfg: Config, states: seq<State>, steps: seq<Step>) {
    && |states| == |steps| + 1
    && Init(cfg, states[0])
    && (forall i :: 0 <= i < |steps| ==> NextAt(cfg, states, steps, i))
  }

  lemma {:induction false} RunInv(cfg: Config, states: seq<State>, steps: seq<Step>, i: nat)
    requires Run(cfg, states, steps) && i < |states|
    ensures Inv(cfg, states[i])
  {
    if i == 0 {
      forall k ensures Canonical(cfg, states[0].db, k) {
        assert Slice(states[0].db.events, k) == {};
      }
    } else {
      RunInv(cfg, states, steps, i - 1);
      assert NextAt(cfg, states, steps, i - 1);
      StepKeepsInv(cfg, states[i - 1], steps[i - 1], states[i]);
    }
  }

  /** In every run, at every moment, every contract's rows are canonical and none lies above its cursor. */
  lemma IndexAlwaysCanonical(cfg: Config, states: seq<State>, steps: seq<Step>, i: nat, contract: Address)
    requires Run(cfg, states, steps) && i < |states|
    ensures Canonical(cfg, states[i].db, contract)
    ensures forall r :: r in Slice(states[i].db.events, contract) ==>
      contract in states[i].db.cursors && cfg.start <= r.blockNumber <= states[i].db.cursors[contract].lastBlock
  {
    RunInv(cfg, states, steps, i);
    var db := states[i].db;
    assert Canonical(cfg, db, contract);
    forall r | r in Slice(db.events, contract)
      ensures contract in db.cursors && cfg.start <= r.blockNumber <= db.cursors[contract].lastBlock
    {
      var cursor := db.cursors[contract];
      var _, _ := EventAt(BranchOf(cursor), contract, cfg.start, cursor.lastBlock, r);
    }
  }

  // ---------- The job is a path of the machine ----------

  /** Steps of the machine one after the other, from any state. */
  ghost predicate Path(cfg: Config, states: seq<State>, steps: seq<Step>, from: State, to: State) {
    && |states| == |steps| + 1 && states[0] == from && states[|steps|] == to
    && (forall i :: 0 <= i < |steps| ==> NextAt(cfg, states, steps, i))
  }

  lemma PathAdds(cfg: Config, states: seq<State>, steps: seq<Step>, from: State, mid: State, step: Step, to: State)
    requires Path(cfg, states, steps, from, mid) && Next(cfg, mid, step, to)
    ensures Path(cfg, states + [to], steps + [step], from, to)
  {
    forall i | 0 <= i < |steps| + 1 ensures NextAt(cfg, states + [to], steps + [step], i) {
      assert i < |steps| ==> NextAt(cfg, states, steps, i);
    }
  }

  lemma PathJoins(cfg: Config, states: seq<State>, steps: seq<Step>, from: State, mid: State, states': seq<State>,
                  steps': seq<Step>, to: State)
    requires Path(cfg, states, steps, from, mid) && Path(cfg, states', steps', mid, to)
    ensures Path(cfg, states + states'[1..], steps + steps', from, to)
  {
    forall i | 0 <= i < |steps + steps'| ensures NextAt(cfg, states + states'[1..], steps + steps', i) {
      if i < |steps| {
        assert NextAt(cfg, states, steps, i);
      } else {
        assert NextAt(cfg, states', steps', i - |steps|);
      }
    }
  }

  /** On one chain the block times read last are those the rows have. */
  lemma TimesAgree(c: Chain, contract: Address, fromBlock: nat, toBlock: nat)
    requires toBlock < |c|
    ensures var rows := WindowRows(c, contract, fromBlock, toBlock);
            HasBlocks(c, rows, c[..toBlock + 1], toBlock) && Retimed(c, rows, c[..toBlock + 1], toBlock) == rows
  {
    var rows, head := WindowRows(c, contract, fromBlock, toBlock), c[..toBlock + 1];
    RowTimes(c, contract, GetLogs(c, contract, fromBlock, toBlock));
    forall a | 0 <= a < |rows|
      ensures rows[a].blockNumber < |c| && rows[a].blockTime == c[rows[a].blockNumber].time
    {
      assert rows[a] in rows;
    }
    assert head[toBlock] == c[toBlock];
  }

  /** The states of the machine while it scans one window of a chain that stays. */
  function WindowStates(c: Chain, db: Db, contract: Address, cursor: Cursor, target: int, rows: seq<Row>, head: Chain)
    : seq<State>
  {
    [State(c, db, AtBoundary(contract, cursor, target)),
     State(c, db, Fetching(contract, cursor, target, None, None, false)),
     State(c, db, Fetching(contract, cursor, target, Some(rows), None, false)),
     State(c, db, Fetching(contract, cursor, target, Some(rows), Some(head), false)),
     State(c, db, Fetching(contract, cursor, target, Some(rows), Some(head), true))]
  }

  lemma WindowReads(cfg: Config, c: Chain, db: Db, contract: Address, cursor: Cursor, target: int, toBlock: int)
    requires cfg.window >= 1 && -1 <= cursor.lastBlock < target < |c| && !BoundaryNeedsRescan(c, cursor, cursor.lastBlock + 1)
    requires toBlock == WindowEnd(cfg.window, cursor.lastBlock, target)
    ensures var s := WindowStates(c, db, contract, cursor, target, WindowRows(c, contract, cursor.lastBlock + 1, toBlock),
                                  c[..toBlock + 1]);
            Next(cfg, s[0], CheckBoundary, s[1]) && Next(cfg, s[1], ReadLogs, s[2]) && Next(cfg, s[2], ReadHead, s[3])
  {
  }

  lemma WindowTimed(cfg: Config, c: Chain, db: Db, contract: Address, cursor: Cursor, target: int, toBlock: int)
    requires cfg.window >= 1 && -1 <= cursor.lastBlock < target < |c|
    requires toBlock == WindowEnd(cfg.window, cursor.lastBlock, target)
    ensures var s := WindowStates(c, db, contract, cursor, target, WindowRows(c, contract, cursor.lastBlock + 1, toBlock),
                                  c[..toBlock + 1]);
            Next(cfg, s[3], ReadTimes, s[4])
  {
    TimesAgree(c, contract, cursor.lastBlock + 1, toBlock);
  }

  lemma WindowStored(cfg: Config, c: Chain, db: Db, contract: Address, cursor: Cursor, target: int, toBlock: int)
    requires cfg.window >= 1 && cfg.start <= target < |c| && -1 <= cursor.lastBlock < target
    requires !BoundaryNeedsRescan(c, cursor, cursor.lastBlock + 1)
    requires toBlock == WindowEnd(cfg.window, cursor.lastBlock, target)
    ensures var s := WindowStates(c, db, contract, cursor, target, WindowRows(c, contract, cursor.lastBlock + 1, toBlock),
                                  c[..toBlock + 1]);
            var next := ScanStep(c, cfg.window, cfg.start, contract, db, cursor, target, false);
            Next(cfg, s[4], CommitWindow, State(c, next.0, AtBoundary(contract, next.1, target)))
  {
  }

  lemma WindowIsPath(cfg: Config, c: Chain, db: Db, contract: Address, cursor: Cursor, target: int)
    returns (states: seq<State>, steps: seq<Step>)
    requires cfg.window >= 1 && cfg.start <= target < |c| && -1 <= cursor.lastBlock < target
    requires !BoundaryNeedsRescan(c, cursor, cursor.lastBlock + 1)
    ensures var next := ScanStep(c, cfg.window, cfg.start, contract, db, cursor, target, false);
            Path(cfg, states, steps, State(c, db, AtBoundary(contract, cursor, target)),
                 State(c, next.0, AtBoundary(contract, next.1, target)))
  {
    var toBlock := WindowEnd(cfg.window, cursor.lastBlock, target);
    var next := ScanStep(c, cfg.window, cfg.start, contract, db, cursor, target, false);
    var rows := WindowRows(c, contract, cursor.lastBlock + 1, toBlock);
    var s := WindowStates(c, db, contract, cursor, target, rows, c[..toBlock + 1]);
    WindowReads(cfg, c, db, contract, cursor, target, toBlock);
    WindowTimed(cfg, c, db, contract, cursor, target, toBlock);
    WindowStored(cfg, c, db, contract, cursor, target, toBlock);
    states, steps := FivePath(cfg, s, State(c, next.0, AtBoundary(contract, next.1, target)));
  }

  lemma FivePath(cfg: Config, s: seq<State>, to: State) returns (states: seq<State>, steps: seq<Step>)
    requires |s| == 5 && Next(cfg, s[0], CheckBoundary, s[1]) && Next(cfg, s[1], ReadLogs, s[2])
    requires Next(cfg, s[2], ReadHead, s[3]) && Next(cfg, s[3], ReadTimes, s[4]) && Next(cfg, s[4], CommitWindow, to)
    ensures Path(cfg, states, steps, s[0], to)
  {
    states, steps := s + [to], [CheckBoundary, ReadLogs, ReadHead, ReadTimes, CommitWindow];
    forall i | 0 <= i < 5 ensures NextAt(cfg, states, steps, i) {
      assert i == 0 || i == 1 || i == 2 || i == 3 || i == 4;
    }
  }

  lemma RewindIsPath(cfg: Config, c: Chain, db: Db, contract: Address, cursor: Cursor, target: int)
    returns (states: seq<State>, steps: seq<Step>)
    requires cfg.window >= 1 && cfg.start <= target < |c| && -1 <= cursor.lastBlock < target
    requires BoundaryNeedsRescan(c, cursor, cursor.lastBlock + 1)
    ensures var next := ScanStep(c, cfg.window, cfg.start, contract, db, cursor, target, false);
            Path(cfg, states, steps, State(c, db, AtBoundary(contract, cursor, target)),
                 State(c, next.0, AtBoundary(contract, next.1, target)))
  {
    var next := ScanStep(c, cfg.window, cfg.start, contract, db, cursor, target, false);
    var s0 := State(c, db, AtBoundary(contract, cursor, target));
    var s1 := State(c, db, Rewinding(contract, cursor, target, None));
    var s2 := State(c, db, Rewinding(contract, cursor, target, Some(next.1)));
    var s3 := State(c, next.0, AtBoundary(contract, next.1, target));
    PathAdds(cfg, [s0], [], s0, s0, CheckBoundary, s1);
    PathAdds(cfg, [s0, s1], [CheckBoundary], s0, s1, ReadRewindHash, s2);
    PathAdds(cfg, [s0, s1, s2], [CheckBoundary, ReadRewindHash], s0, s2, CommitRewind, s3);
    states, steps := [s0, s1, s2, s3], [CheckBoundary, ReadRewindHash, CommitRewind];
    assert [s0] + [s1] == [s0, s1] && [s0, s1] + [s2] == [s0, s1, s2] && [s0, s1, s2] + [s3] == states;
  }

  /** A scan that nothing disturbs is a path of the machine, turn by turn, so the machine can do what the job does. */
  lemma {:induction false} ScanIsPath(cfg: Config, c: Chain, db: Db, contract: Address, cursor: Cursor, target: int)
    returns (states: seq<State>, steps: seq<Step>)
    requires cfg.window >= 1 && cfg.start <= target < |c| && cursor.lastBlock >= -1
    ensures Path(cfg, states, steps, State(c, db, AtBoundary(contract, cursor, target)),
                 State(c, ScanFrom(c, cfg.window, cfg.start, contract, db, cursor, target, false), Idle))
    decreases Mismatch(c, cursor, target), target - cursor.lastBlock
  {
    var from := State(c, db, AtBoundary(contract, cursor, target));
    var to := State(c, ScanFrom(c, cfg.window, cfg.start, contract, db, cursor, target, false), Idle);
    if cursor.lastBlock >= target {
      PathAdds(cfg, [from], [], from, from, Finish, to);
      states, steps := [from] + [to], [] + [Finish];
    } else {
      var next := ScanStep(c, cfg.window, cfg.start, contract, db, cursor, target, false);
      StepProgress(c, cfg.window, cfg.start, contract, db, cursor, target, false);
      if BoundaryNeedsRescan(c, cursor, cursor.lastBlock + 1) {
        states, steps := RewindIsPath(cfg, c, db, contract, cursor, target);
      } else {
        states, steps := WindowIsPath(cfg, c, db, contract, cursor, target);
      }
      var states', steps' := ScanIsPath(cfg, c, next.0, contract, next.1, target);
      PathJoins(cfg, states, steps, from, State(c, next.0, AtBoundary(contract, next.1, target)), states', steps', to);
      states, steps := states + states'[1..], steps + steps';
    }
  }
}
