/** The events table: one row per log key, with the upsert and the windowed delete the indexer uses. */
module IndexerTable {
  import opened Prelude
  import opened IndexerChain

  type Table = t: map<Key, Row> | forall k :: k in t ==> t[k].key == k

  /** A log as the node returns it: the log itself with the number of its block. */
  datatype ChainLog = ChainLog(blockNumber: nat, log: Log)

  /** The rows that carry a contract's address. */
  ghost function Slice(t: Table, contract: Address): set<Row> {
    set k | k in t && t[k].contract == contract :: t[k]
  }

  lemma SliceHas(t: Table, contract: Address, r: Row)
    ensures r in Slice(t, contract) <==> r.key in t && t[r.key] == r && r.contract == contract
  {
  }

  /** Insert each row, or overwrite the row that already has its key. */
  function Upsert(t: Table, rows: seq<Row>): Table {
    if rows == [] then t
    else
      var r := rows[|rows| - 1];
      Upsert(t, rows[..|rows| - 1])[r.key := r]
  }

  function DeleteWindow(t: Table, contract: Address, lo: int, hi: int): Table {
    map k | k in t && !(t[k].contract == contract && lo <= t[k].blockNumber <= hi) :: t[k]
  }

  ghost predicate DistinctKeys(rows: seq<Row>) {
    forall a, b :: 0 <= a < b < |rows| ==> rows[a].key != rows[b].key
  }

  ghost predicate Mentions(rows: seq<Row>, key: Key) {
    exists a :: 0 <= a < |rows| && rows[a].key == key
  }

  lemma {:induction false} UpsertHas(t: Table, rows: seq<Row>, a: nat)
    requires DistinctKeys(rows) && a < |rows|
    ensures rows[a].key in Upsert(t, rows) && Upsert(t, rows)[rows[a].key] == rows[a]
  {
    if a < |rows| - 1 {
      UpsertHas(t, rows[..|rows| - 1], a);
    }
  }

  lemma {:induction false} UpsertKeeps(t: Table, rows: seq<Row>, k: Key)
    requires forall a :: 0 <= a < |rows| ==> rows[a].key != k
    ensures (k in Upsert(t, rows) <==> k in t) && (k in t ==> Upsert(t, rows)[k] == t[k])
  {
    if rows != [] {
      UpsertKeeps(t, rows[..|rows| - 1], k);
    }
  }

  lemma UpsertEffect(t: Table, rows: seq<Row>)
    requires DistinctKeys(rows)
    ensures forall a :: 0 <= a < |rows| ==> rows[a].key in Upsert(t, rows) && Upsert(t, rows)[rows[a].key] == rows[a]
    ensures forall k :: !Mentions(rows, k) ==> (k in Upsert(t, rows) <==> k in t) && (k in t ==> Upsert(t, rows)[k] == t[k])
  {
    forall a | 0 <= a < |rows| ensures rows[a].key in Upsert(t, rows) && Upsert(t, rows)[rows[a].key] == rows[a] {
      UpsertHas(t, rows, a);
    }
    forall k | !Mentions(rows, k)
      ensures (k in Upsert(t, rows) <==> k in t) && (k in t ==> Upsert(t, rows)[k] == t[k])
    {
      UpsertKeeps(t, rows, k);
    }
  }

  /** What an upsert of one contract's rows does to any contract's slice. */
  lemma UpsertSlice(t: Table, rows: seq<Row>, contract: Address, r: Row)
    requires DistinctKeys(rows)
    ensures r in Slice(Upsert(t, rows), contract)
            <==> r.contract == contract && (r in rows || (r in Slice(t, contract) && !Mentions(rows, r.key)))
  {
    UpsertEffect(t, rows);
    if Mentions(rows, r.key) {
      var a :| 0 <= a < |rows| && rows[a].key == r.key;
      assert Upsert(t, rows)[r.key] == rows[a];
      if r in rows {
        var b :| 0 <= b < |rows| && rows[b] == r;
        assert a == b;
      }
    }
  }

  lemma DeleteSlice(t: Table, contract: Address, lo: int, hi: int, other: Address, r: Row)
    ensures r in Slice(DeleteWindow(t, contract, lo, hi), other)
            <==> r in Slice(t, other) && !(other == contract && lo <= r.blockNumber <= hi)
  {
  }

  /** The node's answer for one block: the logs of the address among its first n. */
  function BlockLogs(c: Chain, address: Address, b: nat, n: nat): (logs: seq<ChainLog>)
    requires b < |c| && n <= |c[b].logs|
    ensures forall a :: 0 <= a < |logs| ==> logs[a].blockNumber == b && logs[a].log.contract == address
  {
    if n == 0 then []
    else
      var front := BlockLogs(c, address, b, n - 1);
      if c[b].logs[n - 1].contract == address then front + [ChainLog(b, c[b].logs[n - 1])] else front
  }

  /** The node's answer for a block range. */
  function GetLogs(c: Chain, address: Address, fromBlock: nat, toBlock: int): (logs: seq<ChainLog>)
    requires toBlock < |c|
    ensures forall a :: 0 <= a < |logs| ==> fromBlock <= logs[a].blockNumber <= toBlock
    decreases toBlock + 1 - fromBlock
  {
    if toBlock < fromBlock then []
    else GetLogs(c, address, fromBlock, toBlock - 1) + BlockLogs(c, address, toBlock, |c[toBlock].logs|)
  }

  function RowOf(c: Chain, contract: Address, l: ChainLog): Option<Row>
    requires l.blockNumber < |c|
  {
    var decoded := DecodeIndexedEvent(l.log.event);
    if decoded.None? then None
    else Some(Row(l.log.key, contract, l.blockNumber, c[..l.blockNumber + 1], c[l.blockNumber].time,
                  l.log.transactionIndex, decoded.value))
  }

  /** The rows that a list of logs yields, in order; undecodable logs are skipped. */
  function RowsOf(c: Chain, contract: Address, logs: seq<ChainLog>): seq<Row>
    requires forall a :: 0 <= a < |logs| ==> logs[a].blockNumber < |c|
  {
    if logs == [] then []
    else
      var front := RowsOf(c, contract, logs[..|logs| - 1]);
      var row := RowOf(c, contract, logs[|logs| - 1]);
      if row.Some? then front + [row.value] else front
  }

  function WindowRows(c: Chain, contract: Address, fromBlock: nat, toBlock: int): seq<Row>
    requires toBlock < |c|
  {
    RowsOf(c, contract, GetLogs(c, contract, fromBlock, toBlock))
  }

  lemma {:induction false} RowsOfConcat(c: Chain, contract: Address, xs: seq<ChainLog>, ys: seq<ChainLog>)
    requires forall a :: 0 <= a < |xs| ==> xs[a].blockNumber < |c|
    requires forall a :: 0 <= a < |ys| ==> ys[a].blockNumber < |c|
    ensures RowsOf(c, contract, xs + ys) == RowsOf(c, contract, xs) + RowsOf(c, contract, ys)
  {
    if ys == [] {
      assert xs + ys == xs;
    } else {
      var front := ys[..|ys| - 1];
      assert (xs + ys)[..|xs + ys| - 1] == xs + front;
      RowsOfConcat(c, contract, xs, front);
    }
  }

  /** The entries of the first n logs of a block. */
  function BlockEntries(c: Chain, contract: Address, b: nat, n: nat): set<Row>
    requires b < |c| && n <= |c[b].logs|
  {
    if n == 0 then {}
    else
      var entry := EntryAt(c, contract, b, n - 1);
      BlockEntries(c, contract, b, n - 1) + (if entry.Some? then {entry.value} else {})
  }

  lemma {:induction false} BlockEntrySource(c: Chain, contract: Address, b: nat, n: nat, r: Row) returns (j: nat)
    requires b < |c| && n <= |c[b].logs| && r in BlockEntries(c, contract, b, n)
    ensures j < n && EntryAt(c, contract, b, j) == Some(r)
  {
    if EntryAt(c, contract, b, n - 1) == Some(r) {
      j := n - 1;
    } else {
      j := BlockEntrySource(c, contract, b, n - 1, r);
    }
  }

  lemma {:induction false} BlockEntryIn(c: Chain, contract: Address, b: nat, n: nat, j: nat, r: Row)
    requires b < |c| && j < n <= |c[b].logs| && EntryAt(c, contract, b, j) == Some(r)
    ensures r in BlockEntries(c, contract, b, n)
  {
    if j < n - 1 {
      BlockEntryIn(c, contract, b, n - 1, j, r);
    }
  }

  lemma BlockEntriesAreEvents(c: Chain, contract: Address, b: nat)
    requires b < |c|
    ensures BlockEntries(c, contract, b, |c[b].logs|) == Events(c, contract, b, b)
  {
    var n := |c[b].logs|;
    forall r | r in BlockEntries(c, contract, b, n) ensures r in Events(c, contract, b, b) {
      var j := BlockEntrySource(c, contract, b, n, r);
      EventIn(c, contract, b, b, b, j, r);
    }
    forall r | r in Events(c, contract, b, b) ensures r in BlockEntries(c, contract, b, n) {
      var b', j := EventAt(c, contract, b, b, r);
      BlockEntryIn(c, contract, b, n, j, r);
    }
  }

  lemma NewKey(c: Chain, contract: Address, b: nat, n: nat, r: Row)
    requires UniqueKeys(c) && b < |c| && n < |c[b].logs| && r in BlockEntries(c, contract, b, n)
    ensures r.key != c[b].logs[n].key
  {
    var j := BlockEntrySource(c, contract, b, n, r);
    assert c[b].logs[j].key == r.key;
  }

  lemma RowsOfOneMore(c: Chain, contract: Address, b: nat, n: nat)
    requires b < |c| && n < |c[b].logs|
    ensures var rows, entry := RowsOf(c, contract, BlockLogs(c, contract, b, n)), EntryAt(c, contract, b, n);
            RowsOf(c, contract, BlockLogs(c, contract, b, n + 1)) == if entry.Some? then rows + [entry.value] else rows
  {
    var before, log := BlockLogs(c, contract, b, n), c[b].logs[n];
    if log.contract == contract {
      assert BlockLogs(c, contract, b, n + 1) == before + [ChainLog(b, log)];
      assert (before + [ChainLog(b, log)])[..|before|] == before;
      assert EntryAt(c, contract, b, n) == RowOf(c, contract, ChainLog(b, log));
    }
  }

  lemma DistinctSnoc(rows: seq<Row>, r: Row)
    requires DistinctKeys(rows) && forall a :: 0 <= a < |rows| ==> rows[a].key != r.key
    ensures DistinctKeys(rows + [r]) && (set x | x in rows + [r]) == (set x | x in rows) + {r}
  {
    forall x ensures x in rows + [r] <==> x in rows || x == r {
      assert x in rows + [r] <==> x in rows || x in [r];
    }
  }

  /** The rows are a set's elements, each key once. */
  ghost predicate RowsAre(rows: seq<Row>, s: set<Row>) {
    DistinctKeys(rows) && (set r | r in rows) == s
  }

  lemma RowsAreMore(c: Chain, contract: Address, b: nat, n: nat, rows: seq<Row>, more: seq<Row>)
    requires UniqueKeys(c) && b < |c| && n < |c[b].logs| && RowsAre(rows, BlockEntries(c, contract, b, n))
    requires EntryAt(c, contract, b, n).Some? ==> more == rows + [EntryAt(c, contract, b, n).value]
    requires EntryAt(c, contract, b, n).None? ==> more == rows
    ensures RowsAre(more, BlockEntries(c, contract, b, n + 1))
  {
    var entry := EntryAt(c, contract, b, n);
    if entry.Some? {
      forall a | 0 <= a < |rows| ensures rows[a].key != entry.value.key {
        assert rows[a] in (set r | r in rows);
        NewKey(c, contract, b, n, rows[a]);
      }
      DistinctSnoc(rows, entry.value);
    }
  }

  function BlockRows(c: Chain, contract: Address, b: nat, n: nat): seq<Row>
    requires b < |c| && n <= |c[b].logs|
  {
    RowsOf(c, contract, BlockLogs(c, contract, b, n))
  }

  lemma BlockRowsStep(c: Chain, contract: Address, b: nat, n: nat, rows: seq<Row>, more: seq<Row>)
    requires UniqueKeys(c) && b < |c| && n < |c[b].logs|
    requires rows == BlockRows(c, contract, b, n) && more == BlockRows(c, contract, b, n + 1)
    requires RowsAre(rows, BlockEntries(c, contract, b, n))
    ensures RowsAre(more, BlockEntries(c, contract, b, n + 1))
  {
    RowsOfOneMore(c, contract, b, n);
    RowsAreMore(c, contract, b, n, rows, more);
  }

  /** Within one block: the rows are the entries of its first n logs, each key once. */
  lemma {:induction false} BlockRowsExact(c: Chain, contract: Address, b: nat, n: nat)
    requires UniqueKeys(c) && b < |c| && n <= |c[b].logs|
    ensures RowsAre(BlockRows(c, contract, b, n), BlockEntries(c, contract, b, n))
  {
    if n > 0 {
      BlockRowsExact(c, contract, b, n - 1);
      BlockRowsStep(c, contract, b, n - 1, BlockRows(c, contract, b, n - 1), BlockRows(c, contract, b, n));
    }
  }

  lemma ConcatDistinct(c: Chain, contract: Address, lo: int, mid: int, hi: int, before: seq<Row>, last: seq<Row>)
    requires UniqueKeys(c) && DistinctKeys(before) && DistinctKeys(last)
    requires (set r | r in before) == Events(c, contract, lo, mid)
    requires (set r | r in last) == Events(c, contract, mid + 1, hi)
    ensures DistinctKeys(before + last)
  {
    forall x, y | 0 <= x < |before| && 0 <= y < |last| ensures before[x].key != last[y].key {
      var r, s := before[x], last[y];
      assert r in (set z | z in before) && s in (set z | z in last);
      var _, _ := EventAt(c, contract, lo, mid, r);
      var _, _ := EventAt(c, contract, mid + 1, hi, s);
      if r.key == s.key {
        UniqueRows(c, contract, lo, mid, r, contract, mid + 1, hi, s);
      }
    }
  }

  /** The rows of a window are exactly the direct filter of its blocks, each key once. */
  lemma {:induction false} WindowRowsExact(c: Chain, contract: Address, fromBlock: nat, toBlock: int)
    requires UniqueKeys(c) && toBlock < |c|
    ensures var rows := WindowRows(c, contract, fromBlock, toBlock);
            DistinctKeys(rows) && (set r | r in rows) == Events(c, contract, fromBlock, toBlock)
    decreases toBlock + 1 - fromBlock
  {
    if fromBlock <= toBlock {
      WindowRowsExact(c, contract, fromBlock, toBlock - 1);
      var logs := BlockLogs(c, contract, toBlock, |c[toBlock].logs|);
      BlockRowsExact(c, contract, toBlock, |c[toBlock].logs|);
      var before, last := WindowRows(c, contract, fromBlock, toBlock - 1), RowsOf(c, contract, logs);
      RowsOfConcat(c, contract, GetLogs(c, contract, fromBlock, toBlock - 1), logs);
      EventsSplit(c, contract, fromBlock, toBlock - 1, toBlock);
      BlockEntriesAreEvents(c, contract, toBlock);
      ConcatDistinct(c, contract, fromBlock, toBlock - 1, toBlock, before, last);
      assert (set r | r in before + last) == (set r | r in before) + (set r | r in last);
    }
  }
}
