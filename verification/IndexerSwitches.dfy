/**
 Whole runs of the indexer under switches of any depth at any moment, and under any backfill: exactly when the
 index stays right.
 */
module IndexerSwitches {
  import opened Prelude
  import opened IndexerChain
  import opened IndexerTable
  import opened IndexerScan
  import opened IndexerBackfill
  import opened IndexerRuns
  import opened IndexerReorgs

  /** A chain may be switched to any other on which keys are unique and keep their contract. */
  ghost predicate FreeNext(cfg: Config, st: State, step: Step, st': State) {
    && Enabled(cfg, st, step)
    && (step.Switch? ==> UniqueKeys(step.next) && OwnedBy(step.next, cfg.owner))
    && st' == Apply(cfg, st, step)
  }

  ghost predicate FreeNextAt(cfg: Config, states: seq<State>, steps: seq<Step>, i: nat)
    requires i < |steps| && |states| == |steps| + 1
  {
    FreeNext(cfg, states[i], steps[i], states[i + 1])
  }

  ghost predicate FreeRun(cfg: Config, states: seq<State>, steps: seq<Step>) {
    && |states| == |steps| + 1
    && Init(cfg, states[0])
    && (forall i :: 0 <= i < |steps| ==> FreeNextAt(cfg, states, steps, i))
  }

  ghost predicate AllCanonical(cfg: Config, db: Db) {
    forall k :: Canonical(cfg, db, k)
  }

  /** The step stores nothing, or what it stores is right: of a window, of a rewind, of a backfill. */
  ghost predicate StepRight(cfg: Config, st: State, step: Step) {
    && Enabled(cfg, st, step)
    && var w := st.worker;
       match step
       case CommitWindow => CommitRight(cfg, w.contract, w.cursor, w.rows.value, w.head.value)
       case CommitRewind => RewindRight(cfg, w.contract, w.cursor, w.below.value)
       case Backfill(contract, lo, target) => BackfillRight(cfg, st.chain, st.db.events, contract, lo, target)
       case _ => true
  }

  // ---------- What holds under any switches ----------

  ghost predicate OwnRowKeys(cfg: Config, contract: Address, rows: seq<Row>) {
    forall a :: 0 <= a < |rows| ==> cfg.owner(rows[a].key) == contract
  }

  /** Whatever chains it read from: the job works from the stored cursor, and what it has read has the shape of a window. */
  ghost predicate FreeWorker(cfg: Config, st: State) {
    var w := st.worker;
    match w
    case Idle => true
    case AtBoundary(contract, cursor, target) => HoldsCursor(cfg, st.db, contract, cursor)
    case Fetching(contract, cursor, target, rows, head, timed) =>
      && HoldsCursor(cfg, st.db, contract, cursor) && cursor.lastBlock < target
      && (rows.Some? ==> ReadRows(contract, cursor.lastBlock, FetchEnd(cfg, w), rows.value)
                         && OwnRowKeys(cfg, contract, rows.value))
      && (head.Some? ==> GoodCursor(cfg, Cursor(FetchEnd(cfg, w), head)))
    case Rewinding(contract, cursor, target, below) =>
      && HoldsCursor(cfg, st.db, contract, cursor)
      && (below.Some? ==> GoodCursor(cfg, below.value)
                          && below.value.lastBlock == Landing(cfg.start, cfg.window, cursor.lastBlock) - 1)
  }

  ghost predicate FreeInv(cfg: Config, st: State) {
    && cfg.window >= 1
    && UniqueKeys(st.chain) && OwnedBy(st.chain, cfg.owner)
    && (forall k :: k in st.db.cursors ==> GoodCursor(cfg, st.db.cursors[k]))
    && FreeWorker(cfg, st)
  }

  lemma WindowIsRead(cfg: Config, c: Chain, contract: Address, n: int, toBlock: int)
    requires UniqueKeys(c) && OwnedBy(c, cfg.owner) && -1 <= n < toBlock < |c|
    ensures var rows := WindowRows(c, contract, n + 1, toBlock);
            ReadRows(contract, n, toBlock, rows) && OwnRowKeys(cfg, contract, rows)
  {
    var rows := WindowRows(c, contract, n + 1, toBlock);
    WindowRowsExact(c, contract, n + 1, toBlock);
    forall a | 0 <= a < |rows|
      ensures rows[a].contract == contract && n < rows[a].blockNumber <= toBlock && cfg.owner(rows[a].key) == contract
    {
      assert rows[a] in (set x | x in rows);
      var _, _ := EventAt(c, contract, n + 1, toBlock, rows[a]);
    }
  }

  lemma ReadKeepsFree(cfg: Config, st: State, step: Step)
    requires FreeInv(cfg, st) && Enabled(cfg, st, step) && (step.ReadLogs? || step.ReadHead? || step.ReadTimes?)
    ensures FreeWorker(cfg, Apply(cfg, st, step))
  {
    var w := st.worker;
    var n, toBlock := w.cursor.lastBlock, FetchEnd(cfg, w);
    if step.ReadLogs? {
      WindowIsRead(cfg, st.chain, w.contract, n, toBlock);
    } else if step.ReadHead? {
      PrefixGood(cfg, st.chain, toBlock + 1);
    }
  }

  lemma RewindReadKeepsFree(cfg: Config, st: State)
    requires FreeInv(cfg, st) && Enabled(cfg, st, ReadRewindHash)
    ensures FreeWorker(cfg, Apply(cfg, st, ReadRewindHash))
  {
    PrefixGood(cfg, st.chain, Landing(cfg.start, cfg.window, st.worker.cursor.lastBlock));
  }

  lemma BeginKeepsFree(cfg: Config, st: State, contract: Address, target: int)
    requires FreeInv(cfg, st) && Enabled(cfg, st, Begin(contract, target))
    ensures FreeWorker(cfg, Apply(cfg, st, Begin(contract, target)))
  {
    PrefixGood(cfg, st.chain, cfg.start);
  }

  lemma BackfillKeepsFree(cfg: Config, st: State, contract: Address, lo: nat, target: int)
    requires FreeInv(cfg, st) && Enabled(cfg, st, Backfill(contract, lo, target))
    ensures FreeInv(cfg, Apply(cfg, st, Backfill(contract, lo, target)))
  {
    BackfillCursors(st.chain, cfg.window, st.db, contract, lo, target);
    PrefixGood(cfg, st.chain, target + 1);
  }

  lemma FreeStepKeepsInv(cfg: Config, st: State, step: Step, st': State)
    requires FreeInv(cfg, st) && FreeNext(cfg, st, step, st')
    ensures FreeInv(cfg, st')
  {
    match step
    case ReadLogs => ReadKeepsFree(cfg, st, step);
    case ReadHead => ReadKeepsFree(cfg, st, step);
    case ReadTimes => ReadKeepsFree(cfg, st, step);
    case ReadRewindHash => RewindReadKeepsFree(cfg, st);
    case Begin(contract, target) => BeginKeepsFree(cfg, st, contract, target);
    case Backfill(contract, lo, target) => BackfillKeepsFree(cfg, st, contract, lo, target);
    case _ =>
  }

  // ---------- One step ----------

  lemma CommitOthers(cfg: Config, db: Db, contract: Address, n: int, toBlock: int, rows: seq<Row>, head: Chain, k: Address)
    requires n >= -1 && ReadRows(contract, n, toBlock, rows) && OwnRowKeys(cfg, contract, rows) && k != contract
    requires Canonical(cfg, db, k) && (k in db.cursors ==> GoodCursor(cfg, db.cursors[k]))
    ensures Canonical(cfg, CommitDb(db, contract, n + 1, toBlock, rows, head, false), k)
  {
    forall r ensures r in Slice(Upsert(db.events, rows), k) <==> r in Slice(db.events, k) {
      UpsertSlice(db.events, rows, k, r);
      if r in Slice(db.events, k) {
        var _, _ := EventAt(BranchOf(db.cursors[k]), k, cfg.start, db.cursors[k].lastBlock, r);
        assert cfg.owner(r.key) == k;
      }
    }
  }

  lemma RewindOthers(cfg: Config, db: Db, contract: Address, cursor: Cursor, below: Cursor, landing: nat, k: Address)
    requires k != contract && Canonical(cfg, db, k)
    ensures Canonical(cfg, RewindDb(db, contract, cursor, landing, below), k)
  {
    RewindOther(db.events, contract, landing, cursor.lastBlock, k);
  }

  lemma CommitIff(cfg: Config, st: State)
    requires FreeInv(cfg, st) && AllCanonical(cfg, st.db) && Enabled(cfg, st, CommitWindow)
    ensures AllCanonical(cfg, Apply(cfg, st, CommitWindow).db) <==> StepRight(cfg, st, CommitWindow)
  {
    var w, st' := st.worker, Apply(cfg, st, CommitWindow);
    var rows, head, toBlock := w.rows.value, w.head.value, FetchEnd(cfg, w);
    assert Canonical(cfg, st.db, w.contract);
    OwnRows(cfg, st.db, w.contract, w.cursor);
    TornWindowCanonicalIff(cfg, st.db, w.contract, w.cursor, rows, head);
    forall k | k != w.contract ensures Canonical(cfg, st'.db, k) {
      assert Canonical(cfg, st.db, k);
      CommitOthers(cfg, st.db, w.contract, w.cursor.lastBlock, toBlock, rows, head, k);
    }
  }

  lemma RewindIff(cfg: Config, st: State)
    requires FreeInv(cfg, st) && AllCanonical(cfg, st.db) && Enabled(cfg, st, CommitRewind)
    ensures AllCanonical(cfg, Apply(cfg, st, CommitRewind).db) <==> StepRight(cfg, st, CommitRewind)
  {
    var w, st' := st.worker, Apply(cfg, st, CommitRewind);
    assert Canonical(cfg, st.db, w.contract);
    OwnRows(cfg, st.db, w.contract, w.cursor);
    RewindCanonicalIff(cfg, st.db, w.contract, w.cursor, w.below.value);
    forall k | k != w.contract ensures Canonical(cfg, st'.db, k) {
      assert Canonical(cfg, st.db, k);
      RewindOthers(cfg, st.db, w.contract, w.cursor, w.below.value, w.below.value.lastBlock + 1, k);
    }
  }

  lemma BackfillIff(cfg: Config, st: State, contract: Address, lo: nat, target: int)
    requires FreeInv(cfg, st) && AllCanonical(cfg, st.db) && Enabled(cfg, st, Backfill(contract, lo, target))
    ensures AllCanonical(cfg, Apply(cfg, st, Backfill(contract, lo, target)).db)
            <==> StepRight(cfg, st, Backfill(contract, lo, target))
  {
    var st' := Apply(cfg, st, Backfill(contract, lo, target));
    BackfillCanonicalIff(cfg, st.chain, st.db, contract, lo, target);
    forall k | k != contract ensures Canonical(cfg, st'.db, k) {
      assert Canonical(cfg, st.db, k);
      BackfillOther(cfg, st.chain, st.db, contract, lo, target, k);
    }
  }

  /** From a right index, one step leaves it right exactly when what the step stores is right. */
  lemma StepCanonicalIff(cfg: Config, st: State, step: Step)
    requires FreeInv(cfg, st) && AllCanonical(cfg, st.db) && Enabled(cfg, st, step)
    ensures AllCanonical(cfg, Apply(cfg, st, step).db) <==> StepRight(cfg, st, step)
  {
    match step
    case CommitWindow => CommitIff(cfg, st);
    case CommitRewind => RewindIff(cfg, st);
    case Backfill(contract, lo, target) => BackfillIff(cfg, st, contract, lo, target);
    case _ =>
  }

  // ---------- Whole runs ----------

  lemma {:induction false} FreeRunInv(cfg: Config, states: seq<State>, steps: seq<Step>, i: nat)
    requires FreeRun(cfg, states, steps) && i < |states|
    ensures FreeInv(cfg, states[i])
  {
    if i > 0 {
      FreeRunInv(cfg, states, steps, i - 1);
      assert FreeNextAt(cfg, states, steps, i - 1);
      FreeStepKeepsInv(cfg, states[i - 1], steps[i - 1], states[i]);
    }
  }

  ghost predicate CanonicalUpTo(cfg: Config, states: seq<State>, n: nat)
    requires n < |states|
  {
    forall i :: 0 <= i <= n ==> AllCanonical(cfg, states[i].db)
  }

  ghost predicate RightUpTo(cfg: Config, states: seq<State>, steps: seq<Step>, n: nat)
    requires n <= |steps| < |states|
  {
    forall i :: 0 <= i < n ==> StepRight(cfg, states[i], steps[i])
  }

  /**
   In every run, whatever the chain switches to and when, and whatever is backfilled: the index is right up to a moment
   exactly when every window, rewind and backfill stored before it was right.
   */
  lemma {:induction false} AlwaysCanonicalIff(cfg: Config, states: seq<State>, steps: seq<Step>, n: nat)
    requires FreeRun(cfg, states, steps) && n <= |steps|
    ensures CanonicalUpTo(cfg, states, n) <==> RightUpTo(cfg, states, steps, n)
  {
    if n == 0 {
      forall k ensures Canonical(cfg, states[0].db, k) {
        assert Slice(states[0].db.events, k) == {};
      }
    } else {
      AlwaysCanonicalIff(cfg, states, steps, n - 1);
      FreeRunInv(cfg, states, steps, n - 1);
      assert FreeNextAt(cfg, states, steps, n - 1);
      if AllCanonical(cfg, states[n - 1].db) {
        StepCanonicalIff(cfg, states[n - 1], steps[n - 1]);
      }
    }
  }

  /** So the hypotheses on switches and backfills make everything that is stored right. */
  lemma TolerableRunsAreRight(cfg: Config, states: seq<State>, steps: seq<Step>)
    requires Run(cfg, states, steps)
    ensures FreeRun(cfg, states, steps) && RightUpTo(cfg, states, steps, |steps|)
  {
    forall i | 0 <= i < |steps| ensures FreeNextAt(cfg, states, steps, i) {
      assert NextAt(cfg, states, steps, i);
    }
    forall i | 0 <= i <= |steps| ensures AllCanonical(cfg, states[i].db) {
      forall k ensures Canonical(cfg, states[i].db, k) {
        IndexAlwaysCanonical(cfg, states, steps, i, k);
      }
    }
    AlwaysCanonicalIff(cfg, states, steps, |steps|);
  }
}
