/** Auditor keys: each key covers a half-open interval of the event line, cut at the rotations. */
module AuditorKeys {
  import opened Prelude

  datatype AuditorKey = AuditorKey(
    id: nat, secret: nat, active: bool,
    activatedBlock: nat, activatedLogIndex: Option<nat>, activatedTxIndex: Option<nat>,
    retiredBlock: Option<nat>, retiredLogIndex: Option<nat>, retiredTxIndex: Option<nat>,
    rotationTxHash: Option<nat>)

  datatype Event = Event(
    txHash: nat, blockNumber: nat, logIndex: nat, transactionIndex: Option<nat>, amountPct: Option<seq<nat>>,
    fromAddr: Option<nat>, toAddr: Option<nat>)

  datatype KeyError = Ambiguous(txHash: nat, logIndex: nat)

  datatype Boundary = Boundary(
    blockNumber: nat, logIndex: Option<nat>, transactionIndex: Option<nat>, requiresPosition: bool)

  /** Negative before the boundary, zero or positive at or after it. */
  function CompareEventToBoundary(e: Event, b: Boundary): Result<int, KeyError> {
    if e.blockNumber < b.blockNumber then Ok(-1)
    else if e.blockNumber > b.blockNumber then Ok(1)
    else if b.logIndex.Some? then Ok(e.logIndex - b.logIndex.value)
    else if b.transactionIndex.Some? && e.transactionIndex.Some? then
      Ok(e.transactionIndex.value - b.transactionIndex.value)
    else if b.requiresPosition then Err(Ambiguous(e.txHash, e.logIndex))
    else Ok(0)
  }

  /** A comparison fails exactly in the boundary's own block when no index places the event. */
  lemma AmbiguousIff(e: Event, b: Boundary)
    ensures CompareEventToBoundary(e, b).Err?
            <==> && e.blockNumber == b.blockNumber && b.requiresPosition && b.logIndex.None?
                 && (b.transactionIndex.None? || e.transactionIndex.None?)
  {
  }

  function KeyCoversEvent(k: AuditorKey, e: Event): Result<bool, KeyError> {
    var start := CompareEventToBoundary(
      e, Boundary(k.activatedBlock, k.activatedLogIndex, k.activatedTxIndex, k.rotationTxHash.Some?));
    if start.Err? then Err(start.error)
    else if start.value < 0 then Ok(false)
    else if k.retiredBlock.None? then Ok(true)
    else
      var end := CompareEventToBoundary(
        e, Boundary(k.retiredBlock.value, k.retiredLogIndex, k.retiredTxIndex, true));
      if end.Err? then Err(end.error) else Ok(end.value < 0)
  }

  /** The event lies before the boundary: in an earlier block, or before it by log index, or by transaction index. */
  predicate LiesBefore(e: Event, block: nat, log: Option<nat>, transaction: Option<nat>) {
    e.blockNumber < block
    || (e.blockNumber == block
        && if log.Some? then e.logIndex < log.value
           else transaction.Some? && e.transactionIndex.Some? && e.transactionIndex.value < transaction.value)
  }

  /** A comparison that does not throw says on which side of the boundary the event lies. */
  lemma SideOfBoundary(e: Event, b: Boundary)
    requires CompareEventToBoundary(e, b).Ok?
    ensures CompareEventToBoundary(e, b).value < 0 <==> LiesBefore(e, b.blockNumber, b.logIndex, b.transactionIndex)
  {
  }

  /** A key covers what does not lie before its activation and lies before its retirement. */
  lemma CoversIff(k: AuditorKey, e: Event)
    requires KeyCoversEvent(k, e).Ok?
    ensures KeyCoversEvent(k, e).value
            <==> !LiesBefore(e, k.activatedBlock, k.activatedLogIndex, k.activatedTxIndex)
                 && (k.retiredBlock.Some? ==> LiesBefore(e, k.retiredBlock.value, k.retiredLogIndex, k.retiredTxIndex))
  {
  }

  /** The first key in list order that covers the event; an ambiguous key met before it is an error. */
  function FindKeyForEvent(keys: seq<AuditorKey>, e: Event): Result<Option<AuditorKey>, KeyError> {
    if keys == [] then Ok(None)
    else
      var covers := KeyCoversEvent(keys[0], e);
      if covers.Err? then Err(covers.error)
      else if covers.value then Ok(Some(keys[0]))
      else FindKeyForEvent(keys[1..], e)
  }

  // ---------- Rotation ----------

  datatype Rotation = Rotation(
    id: nat, secret: nat, blockNumber: nat, logIndex: Option<nat>, txIndex: Option<nat>, txHash: nat)

  function Retired(k: AuditorKey, r: Rotation): AuditorKey {
    if k.active
    then k.(active := false, retiredBlock := Some(r.blockNumber), retiredLogIndex := r.logIndex, retiredTxIndex := r.txIndex)
    else k
  }

  function RotateKeys(keys: seq<AuditorKey>, r: Rotation): seq<AuditorKey> {
    seq(|keys|, i requires 0 <= i < |keys| => Retired(keys[i], r))
    + [AuditorKey(r.id, r.secret, true, r.blockNumber, r.logIndex, r.txIndex, None, None, None, Some(r.txHash))]
  }

  function RotateAll(keys: seq<AuditorKey>, rotations: seq<Rotation>): seq<AuditorKey> {
    if rotations == [] then keys
    else RotateKeys(RotateAll(keys, rotations[..|rotations| - 1]), rotations[|rotations| - 1])
  }

  /** The key table and its rotation transaction. */
  class KeyTable {
    var keys: seq<AuditorKey>

    constructor ()
      ensures keys == []
    {
      keys := [];
    }

    /** Retire whatever is active and insert the new key at the same position. */
    method Rotate(r: Rotation)
      modifies this
      ensures keys == RotateKeys(old(keys), r)
      ensures |keys| == |old(keys)| + 1 && forall i :: 0 <= i < |keys| ==> (keys[i].active <==> i == |keys| - 1)
      ensures forall i :: 0 <= i < |old(keys)| ==>
                keys[i] == if !old(keys)[i].active then old(keys)[i]
                           else old(keys)[i].(active := false, retiredBlock := Some(r.blockNumber),
                                              retiredLogIndex := r.logIndex, retiredTxIndex := r.txIndex)
      ensures keys[|keys| - 1] == AuditorKey(r.id, r.secret, true, r.blockNumber, r.logIndex, r.txIndex, None, None, None,
                                             Some(r.txHash))
    {
      var updated: seq<AuditorKey> := [];
      for i := 0 to |keys|
        invariant keys == old(keys)
        invariant |updated| == i && forall j :: 0 <= j < i ==> updated[j] == Retired(keys[j], r)
      {
        var k := keys[i];
        if k.active {
          k := k.(active := false, retiredBlock := Some(r.blockNumber), retiredLogIndex := r.logIndex,
                  retiredTxIndex := r.txIndex);
        }
        updated := updated + [k];
      }
      keys := updated + [AuditorKey(r.id, r.secret, true, r.blockNumber, r.logIndex, r.txIndex, None, None, None,
                                    Some(r.txHash))];
    }
  }

  // ---------- Positions on the event line ----------

  datatype Position = Position(block: nat, log: nat)

  predicate Before(a: Position, b: Position) {
    a.block < b.block || (a.block == b.block && a.log < b.log)
  }

  function PositionOf(e: Event): Position {
    Position(e.blockNumber, e.logIndex)
  }

  /** A first key without a rotation begins with its block; every other key begins at its rotation's log. */
  function StartOf(k: AuditorKey): Position {
    Position(k.activatedBlock, k.activatedLogIndex.GetOr(0))
  }

  predicate WellPlaced(k: AuditorKey) {
    k.activatedLogIndex.Some? || (k.rotationTxHash.None? && k.activatedTxIndex.None?)
  }

  /** One key ends at the log where the other begins. */
  predicate Abuts(k: AuditorKey, next: AuditorKey) {
    && k.retiredBlock == Some(next.activatedBlock)
    && k.retiredLogIndex == next.activatedLogIndex && next.activatedLogIndex.Some?
  }

  /** The keys in the order of their rotations: each ends where the next begins, and only the last is active. */
  ghost predicate History(keys: seq<AuditorKey>) {
    && (forall i :: 0 <= i < |keys| ==> WellPlaced(keys[i]))
    && (forall i :: 0 <= i < |keys| ==> (keys[i].active <==> i == |keys| - 1))
    && (forall i, j :: 0 <= i < |keys| && j == i + 1 < |keys| ==> Abuts(keys[i], keys[j]))
    && (forall i, j :: 0 <= i < j < |keys| ==> Before(StartOf(keys[i]), StartOf(keys[j])))
    && (keys != [] ==> keys[|keys| - 1].retiredBlock.None?)
  }

  predicate Follows(keys: seq<AuditorKey>, r: Rotation) {
    && r.logIndex.Some?
    && (keys != [] ==> Before(StartOf(keys[|keys| - 1]), Position(r.blockNumber, r.logIndex.value)))
  }

  /** A rotation with a known log index keeps the history exactly when it lies after the last activation. */
  lemma RotationKeepsHistoryIff(keys: seq<AuditorKey>, r: Rotation)
    requires History(keys) && r.logIndex.Some?
    ensures History(RotateKeys(keys, r)) <==> Follows(keys, r)
  {
    var rotated := RotateKeys(keys, r);
    var n := |keys|;
    assert forall i :: 0 <= i < n ==> rotated[i] == Retired(keys[i], r) && StartOf(rotated[i]) == StartOf(keys[i]);
    if Follows(keys, r) {
      forall i, j | 0 <= i < j < |rotated| ensures Before(StartOf(rotated[i]), StartOf(rotated[j])) {
        if j == n && i < n - 1 {
          assert Before(StartOf(keys[i]), StartOf(keys[n - 1]));
        }
      }
    } else {
      assert !Before(StartOf(rotated[n - 1]), StartOf(rotated[n]));
    }
  }

  ghost predicate Increasing(rotations: seq<Rotation>) {
    && (forall i :: 0 <= i < |rotations| ==> rotations[i].logIndex.Some?)
    && (forall i, j :: 0 <= i < j < |rotations| ==>
          Before(Position(rotations[i].blockNumber, rotations[i].logIndex.GetOr(0)),
                 Position(rotations[j].blockNumber, rotations[j].logIndex.GetOr(0))))
  }

  /** Any rotations at increasing positions, from an empty table or from one first key, give a history. */
  lemma {:induction false} RotationsGiveHistory(first: seq<AuditorKey>, rotations: seq<Rotation>)
    requires History(first) && Increasing(rotations)
    requires rotations != [] ==> Follows(first, rotations[0])
    ensures var keys := RotateAll(first, rotations);
            && History(keys) && |keys| == |first| + |rotations|
            && (rotations != [] ==>
                  StartOf(keys[|keys| - 1]) == Position(rotations[|rotations| - 1].blockNumber,
                                                        rotations[|rotations| - 1].logIndex.GetOr(0)))
            && (forall i :: 0 <= i < |first| ==> StartOf(keys[i]) == StartOf(first[i]))
  {
    if rotations != [] {
      var n := |rotations| - 1;
      var front := rotations[..n];
      assert forall i :: 0 <= i < n ==> front[i] == rotations[i];
      RotationsGiveHistory(first, front);
      RotationKeepsHistoryIff(RotateAll(first, front), rotations[n]);
    }
  }

  // ---------- Which key covers an event ----------

  /** In a history, a key covers exactly its half-open interval, and no comparison is ambiguous. */
  lemma CoversInterval(keys: seq<AuditorKey>, i: nat, e: Event)
    requires History(keys) && i < |keys|
    ensures KeyCoversEvent(keys[i], e)
            == Ok(!Before(PositionOf(e), StartOf(keys[i]))
                  && (i + 1 < |keys| ==> Before(PositionOf(e), StartOf(keys[i + 1]))))
  {
    if i + 1 < |keys| {
      assert Abuts(keys[i], keys[i + 1]);
    }
  }

  /** From the first activation on, the intervals partition the event line. */
  lemma {:induction false} IntervalsPartition(keys: seq<AuditorKey>, e: Event, n: nat) returns (i: nat)
    requires History(keys) && 0 < n <= |keys| && !Before(PositionOf(e), StartOf(keys[0]))
    requires n < |keys| ==> Before(PositionOf(e), StartOf(keys[n]))
    ensures i < n && KeyCoversEvent(keys[i], e) == Ok(true)
    ensures forall j :: 0 <= j < |keys| && j != i ==> KeyCoversEvent(keys[j], e) == Ok(false)
  {
    if !Before(PositionOf(e), StartOf(keys[n - 1])) {
      i := n - 1;
      CoversInterval(keys, i, e);
      forall j | 0 <= j < |keys| && j != i ensures KeyCoversEvent(keys[j], e) == Ok(false) {
        CoversInterval(keys, j, e);
        if j < i {
          assert j + 1 == i || Before(StartOf(keys[j + 1]), StartOf(keys[i]));
        } else {
          assert j == n || Before(StartOf(keys[n]), StartOf(keys[j]));
        }
      }
    } else {
      i := IntervalsPartition(keys, e, n - 1);
    }
  }

  lemma {:induction false} FindsOnlyCover(keys: seq<AuditorKey>, e: Event, k: AuditorKey)
    requires k in keys && KeyCoversEvent(k, e) == Ok(true)
    requires forall x :: x in keys && x != k ==> KeyCoversEvent(x, e) == Ok(false)
    ensures FindKeyForEvent(keys, e) == Ok(Some(k))
  {
    if keys[0] != k {
      assert k in keys[1..];
      FindsOnlyCover(keys[1..], e, k);
    }
  }

  lemma {:induction false} FindsNothing(keys: seq<AuditorKey>, e: Event)
    requires forall x :: x in keys ==> KeyCoversEvent(x, e) == Ok(false)
    ensures FindKeyForEvent(keys, e) == Ok(None)
  {
    if keys != [] {
      assert keys[0] in keys;
      FindsNothing(keys[1..], e);
    }
  }

  /**
   Whatever order the keys are loaded in, an event from the first activation on is given the one key whose
   interval holds it, an earlier event is given none, and no lookup fails.
   */
  lemma LookupIsTotalAndUnique(keys: seq<AuditorKey>, loaded: seq<AuditorKey>, e: Event)
    requires History(keys) && multiset(loaded) == multiset(keys)
    ensures var found := FindKeyForEvent(loaded, e);
            if keys == [] || Before(PositionOf(e), StartOf(keys[0])) then found == Ok(None)
            else exists i :: 0 <= i < |keys| && found == Ok(Some(keys[i])) && !Before(PositionOf(e), StartOf(keys[i]))
                             && (i + 1 < |keys| ==> Before(PositionOf(e), StartOf(keys[i + 1])))
  {
    forall x ensures x in loaded <==> x in keys {
      assert x in loaded <==> x in multiset(loaded);
      assert x in keys <==> x in multiset(keys);
    }
    if keys == [] || Before(PositionOf(e), StartOf(keys[0])) {
      forall x | x in loaded ensures KeyCoversEvent(x, e) == Ok(false) {
        var i :| 0 <= i < |keys| && keys[i] == x;
        CoversInterval(keys, i, e);
        assert i == 0 || Before(StartOf(keys[0]), StartOf(keys[i]));
      }
      FindsNothing(loaded, e);
    } else {
      var i := IntervalsPartition(keys, e, |keys|);
      CoversInterval(keys, i, e);
      forall x | x in loaded && x != keys[i] ensures KeyCoversEvent(x, e) == Ok(false) {
        var j :| 0 <= j < |keys| && keys[j] == x;
      }
      FindsOnlyCover(loaded, e, keys[i]);
    }
  }
}
