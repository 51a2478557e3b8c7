/** Decrypting an address's events with the keys that cover them, and the packet exported for an auditor. */
module AuditorPacket {
  import opened Prelude
  import opened AuditorKeys

  const AUDIT_BATCH: nat := 1_000

  datatype PacketError = KeyError(error: KeyError) | KeyMissing(txHash: nat, logIndex: nat) | DecryptFailed | NoSigner

  datatype DecryptedRow = DecryptedRow(event: Event, amount: nat, keyId: nat)

  /** Decrypting an amount with a key's secret; the ciphers themselves are not part of the model. */
  type Decrypt = (nat, seq<nat>) -> Option<nat>

  /** One event: skipped without a ciphertext, otherwise decrypted with the key that covers it. */
  function DecryptRow(keys: seq<AuditorKey>, decrypt: Decrypt, e: Event): Result<Option<DecryptedRow>, PacketError> {
    if e.amountPct.None? then Ok(None)
    else
      var found := FindKeyForEvent(keys, e);
      if found.Err? then Err(KeyError(found.error))
      else if found.value.None? then Err(KeyMissing(e.txHash, e.logIndex))
      else
        var amount := decrypt(found.value.value.secret, e.amountPct.value);
        if amount.None? then Err(DecryptFailed) else Ok(Some(DecryptedRow(e, amount.value, found.value.value.id)))
  }

  /** The rows decrypted before the first failure, and that failure. */
  function DecryptAll(keys: seq<AuditorKey>, decrypt: Decrypt, events: seq<Event>)
    : (r: (seq<DecryptedRow>, Option<PacketError>))
  {
    if events == [] then ([], None)
    else
      var before := DecryptAll(keys, decrypt, events[..|events| - 1]);
      if before.1.Some? then before
      else
        var row := DecryptRow(keys, decrypt, events[|events| - 1]);
        if row.Err? then (before.0, Some(row.error))
        else (if row.value.Some? then before.0 + [row.value.value] else before.0, None)
  }

  /** A failure in the events so far is the failure of every longer list. */
  lemma {:induction false} FailureStays(keys: seq<AuditorKey>, decrypt: Decrypt, events: seq<Event>, n: nat)
    requires n <= |events| && DecryptAll(keys, decrypt, events[..n]).1.Some?
    ensures DecryptAll(keys, decrypt, events) == DecryptAll(keys, decrypt, events[..n])
    decreases |events|
  {
    if n < |events| {
      var front := events[..|events| - 1];
      assert front[..n] == events[..n];
      FailureStays(keys, decrypt, front, n);
    } else {
      assert events[..n] == events;
    }
  }

  /** The events that have something to decrypt, in order. */
  function WithCiphertext(events: seq<Event>): seq<Event> {
    if events == [] then []
    else
      WithCiphertext(events[..|events| - 1])
      + if events[|events| - 1].amountPct.Some? then [events[|events| - 1]] else []
  }

  lemma {:induction false} AllCiphertexts(events: seq<Event>)
    requires forall e :: e in events ==> e.amountPct.Some?
    ensures WithCiphertext(events) == events
  {
    if events != [] {
      AllCiphertexts(events[..|events| - 1]);
    }
  }

  /** No event with a ciphertext is left out, and none is taken twice. */
  lemma {:induction false} CiphertextsAre(events: seq<Event>, e: Event)
    ensures multiset(WithCiphertext(events))[e] == if e.amountPct.Some? then multiset(events)[e] else 0
  {
    if events != [] {
      var front, last := events[..|events| - 1], events[|events| - 1];
      assert events == front + [last];
      CiphertextsAre(front, e);
    }
  }

  /** One row for every event, each decrypted with a key that covers the event. */
  ghost predicate RowsFor(keys: seq<AuditorKey>, decrypt: Decrypt, events: seq<Event>, rows: seq<DecryptedRow>) {
    |rows| == |events|
    && forall i :: 0 <= i < |rows| ==> rows[i].event == events[i] && HasKeyOf(keys, decrypt, rows[i])
  }

  /** Why an event cannot be decrypted: a key that may or may not cover it, no key that does, or the cipher fails. */
  ghost predicate FailsWith(keys: seq<AuditorKey>, decrypt: Decrypt, e: Event, error: PacketError) {
    e.amountPct.Some?
    && match error
       case KeyError(_) => exists k :: k in keys && KeyCoversEvent(k, e).Err?
       case KeyMissing(txHash, logIndex) =>
         txHash == e.txHash && logIndex == e.logIndex && forall k :: k in keys ==> KeyCoversEvent(k, e) == Ok(false)
       case DecryptFailed =>
         exists k :: k in keys && KeyCoversEvent(k, e) == Ok(true) && decrypt(k.secret, e.amountPct.value).None?
       case NoSigner => false
  }

  lemma {:induction false} LookupFails(keys: seq<AuditorKey>, e: Event)
    ensures FindKeyForEvent(keys, e).Err? ==> exists k :: k in keys && KeyCoversEvent(k, e).Err?
    ensures FindKeyForEvent(keys, e) == Ok(None) ==> forall k :: k in keys ==> KeyCoversEvent(k, e) == Ok(false)
  {
    if keys != [] && KeyCoversEvent(keys[0], e) == Ok(false) {
      LookupFails(keys[1..], e);
      assert forall k :: k in keys <==> k == keys[0] || k in keys[1..];
    }
  }

  /** A row is what its event, the key that covers it and the cipher make it; otherwise there is a reason. */
  lemma DecryptRowIs(keys: seq<AuditorKey>, decrypt: Decrypt, e: Event)
    ensures var r := DecryptRow(keys, decrypt, e);
            match r
            case Ok(row) =>
              (row.Some? <==> e.amountPct.Some?) && (row.Some? ==> row.value.event == e && HasKeyOf(keys, decrypt, row.value))
            case Err(error) => FailsWith(keys, decrypt, e, error)
  {
    if e.amountPct.Some? {
      LookupFails(keys, e);
      if FindKeyForEvent(keys, e).Ok? && FindKeyForEvent(keys, e).value.Some? {
        FoundCovers(keys, e);
      }
    }
  }

  /** How many events were decrypted before a failure, if there was one. */
  ghost predicate StoppedAt(keys: seq<AuditorKey>, decrypt: Decrypt, events: seq<Event>, rows: seq<DecryptedRow>,
                            error: PacketError, n: nat)
    requires n < |events|
  {
    RowsFor(keys, decrypt, WithCiphertext(events[..n]), rows) && FailsWith(keys, decrypt, events[n], error)
  }

  /**
   Every event with a ciphertext has its row, in order, up to the end or to the first event that cannot be decrypted,
   which has one of three reasons.
   */
  lemma {:induction false} DecryptedAre(keys: seq<AuditorKey>, decrypt: Decrypt, events: seq<Event>)
    ensures var all := DecryptAll(keys, decrypt, events);
            if all.1.None? then RowsFor(keys, decrypt, WithCiphertext(events), all.0)
            else exists n :: 0 <= n < |events| && StoppedAt(keys, decrypt, events, all.0, all.1.value, n)
  {
    if events != [] {
      var front, last := events[..|events| - 1], events[|events| - 1];
      DecryptedAre(keys, decrypt, front);
      var before, all := DecryptAll(keys, decrypt, front), DecryptAll(keys, decrypt, events);
      if before.1.Some? {
        var n :| 0 <= n < |front| && StoppedAt(keys, decrypt, front, before.0, before.1.value, n);
        assert front[..n] == events[..n] && front[n] == events[n];
        assert StoppedAt(keys, decrypt, events, all.0, all.1.value, n);
      } else {
        DecryptRowIs(keys, decrypt, last);
        if all.1.Some? {
          assert StoppedAt(keys, decrypt, events, all.0, all.1.value, |front|);
        }
      }
    }
  }

  /** The decryption service and the audit log it writes to. */
  class Auditor {
    var auditLog: seq<DecryptedRow>

    constructor ()
      ensures auditLog == []
    {
      auditLog := [];
    }

    /** Append the pending entries in batches; the log receives all of them, in order. */
    method FlushAuditRows(rows: seq<DecryptedRow>)
      modifies this
      ensures auditLog == old(auditLog) + rows
    {
      var index := 0;
      while index < |rows|
        invariant auditLog == old(auditLog) + rows[..Min(index, |rows|)]
      {
        var end := Min(index + AUDIT_BATCH, |rows|);
        assert rows[..end] == rows[..index] + rows[index..end];
        auditLog := auditLog + rows[index..end];
        index := index + AUDIT_BATCH;
      }
      assert rows[..|rows|] == rows;
    }

    /**
     Decrypt in order, stopping at the first failure. Either way every row that was decrypted is in the log,
     and nothing else is added: one row for every event with a ciphertext up to the end or the failure.
     */
    method DecryptRows(keys: seq<AuditorKey>, decrypt: Decrypt, events: seq<Event>)
      returns (r: Result<seq<DecryptedRow>, PacketError>)
      modifies this
      ensures var all := DecryptAll(keys, decrypt, events);
              && auditLog == old(auditLog) + all.0
              && r == if all.1.Some? then Err(all.1.value) else Ok(all.0)
      ensures old(auditLog) <= auditLog
      ensures r.Ok? ==> auditLog == old(auditLog) + r.value && RowsFor(keys, decrypt, WithCiphertext(events), r.value)
      ensures r.Err? ==>
                exists n :: 0 <= n < |events|
                            && StoppedAt(keys, decrypt, events, auditLog[|old(auditLog)|..], r.error, n)
    {
      DecryptedAre(keys, decrypt, events);
      if |events| == 0 {
        return Ok([]);
      }
      var decryptedRows: seq<DecryptedRow> := [];
      var auditRows: seq<DecryptedRow> := [];
      var failure: Option<PacketError> := None;
      for i := 0 to |events|
        invariant auditLog == old(auditLog) && auditRows == decryptedRows
        invariant DecryptAll(keys, decrypt, events[..i]) == (decryptedRows, None)
        invariant failure.None?
      {
        assert events[..i + 1][..i] == events[..i];
        var row := DecryptRow(keys, decrypt, events[i]);
        if row.Err? {
          failure := Some(row.error);
          FailureStays(keys, decrypt, events, i + 1);
          break;
        }
        if row.value.Some? {
          auditRows := auditRows + [row.value.value];
          decryptedRows := decryptedRows + [row.value.value];
        }
      }
      assert events[..|events|] == events;
      FlushAuditRows(auditRows);
      assert auditLog[|old(auditLog)|..] == DecryptAll(keys, decrypt, events).0;
      r := if failure.Some? then Err(failure.value) else Ok(decryptedRows);
    }
  }

  // ---------- The packet ----------

  function CompareNat(a: int, b: int): int {
    if a < b then -1 else if a > b then 1 else 0
  }

  function OrBelow(x: Option<nat>): int {
    if x.Some? then x.value else -1
  }

  /** Order of activation: block, then log index, then transaction index, absent indexes first. */
  function CompareActivation(a: AuditorKey, b: AuditorKey): int {
    if a.activatedBlock != b.activatedBlock then CompareNat(a.activatedBlock, b.activatedBlock)
    else if OrBelow(a.activatedLogIndex) != OrBelow(b.activatedLogIndex) then
      OrBelow(a.activatedLogIndex) - OrBelow(b.activatedLogIndex)
    else OrBelow(a.activatedTxIndex) - OrBelow(b.activatedTxIndex)
  }

  /** The last active key after a stable sort by activation. */
  function SelectSigner(keys: seq<AuditorKey>): Option<AuditorKey> {
    if keys == [] then None
    else
      var last := keys[|keys| - 1];
      var before := SelectSigner(keys[..|keys| - 1]);
      if !last.active then before
      else if before.None? || CompareActivation(last, before.value) >= 0 then Some(last)
      else before
  }

  lemma CompareTransitive(a: AuditorKey, b: AuditorKey, c: AuditorKey)
    requires CompareActivation(a, b) <= 0 && CompareActivation(b, c) <= 0
    ensures CompareActivation(a, c) <= 0
  {
  }

  lemma CompareFlips(a: AuditorKey, b: AuditorKey)
    ensures CompareActivation(a, b) >= 0 <==> CompareActivation(b, a) <= 0
    ensures CompareActivation(a, b) < 0 ==> CompareActivation(b, a) > 0
  {
  }

  /** Activated no later: in an earlier block, or by log index, or by transaction index, an absent index being first. */
  predicate NoLater(a: AuditorKey, b: AuditorKey) {
    a.activatedBlock < b.activatedBlock
    || (a.activatedBlock == b.activatedBlock
        && if a.activatedLogIndex == b.activatedLogIndex then FirstIndex(a.activatedTxIndex, b.activatedTxIndex)
           else FirstIndex(a.activatedLogIndex, b.activatedLogIndex))
  }

  predicate FirstIndex(a: Option<nat>, b: Option<nat>) {
    a.None? || (b.Some? && a.value <= b.value)
  }

  lemma ActivationOrder(a: AuditorKey, b: AuditorKey)
    ensures CompareActivation(a, b) <= 0 <==> NoLater(a, b)
  {
  }

  /** The signer is an active key that no active key was activated after; there is one exactly when a key is active. */
  lemma SignerIsLatest(keys: seq<AuditorKey>)
    ensures SelectSigner(keys).None? <==> forall k :: k in keys ==> !k.active
    ensures SelectSigner(keys).Some? ==>
      var s := SelectSigner(keys).value;
      s in keys && s.active && forall k :: k in keys && k.active ==> NoLater(k, s)
  {
    LatestCompares(keys);
    if SelectSigner(keys).Some? {
      forall k | k in keys && k.active ensures NoLater(k, SelectSigner(keys).value) {
        ActivationOrder(k, SelectSigner(keys).value);
      }
    }
  }

  lemma {:induction false} LatestCompares(keys: seq<AuditorKey>)
    ensures SelectSigner(keys).None? <==> forall k :: k in keys ==> !k.active
    ensures SelectSigner(keys).Some? ==>
      var s := SelectSigner(keys).value;
      s in keys && s.active && forall k :: k in keys && k.active ==> CompareActivation(k, s) <= 0
  {
    if keys != [] {
      var front, last := keys[..|keys| - 1], keys[|keys| - 1];
      LatestCompares(front);
      assert forall k :: k in keys <==> k in front || k == last;
      var before := SelectSigner(front);
      if last.active && before.Some? {
        CompareFlips(last, before.value);
        forall k | k in front && k.active && CompareActivation(last, before.value) >= 0
          ensures CompareActivation(k, last) <= 0
        {
          CompareTransitive(k, before.value, last);
        }
      }
    }
  }

  /** Whether a key's blocks meet the requested range. */
  predicate RangeIntersects(k: AuditorKey, fromBlock: Option<nat>, toBlock: Option<nat>) {
    if toBlock.Some? && k.activatedBlock > toBlock.value then false
    else if fromBlock.Some? && k.retiredBlock.Some? then k.retiredBlock.value >= fromBlock.value
    else true
  }

  /** A block in which the key may have been used, and which was asked for. */
  predicate SharedBlock(k: AuditorKey, fromBlock: Option<nat>, toBlock: Option<nat>, block: nat) {
    && k.activatedBlock <= block && (k.retiredBlock.Some? ==> block <= k.retiredBlock.value)
    && (fromBlock.Some? ==> fromBlock.value <= block) && (toBlock.Some? ==> block <= toBlock.value)
  }

  /** The test on a key's blocks finds exactly the keys with a block in the range. */
  lemma RangeIntersectsIff(k: AuditorKey, fromBlock: Option<nat>, toBlock: Option<nat>)
    requires k.retiredBlock.Some? ==> k.activatedBlock <= k.retiredBlock.value
    requires fromBlock.Some? && toBlock.Some? ==> fromBlock.value <= toBlock.value
    ensures RangeIntersects(k, fromBlock, toBlock) <==> exists block: nat :: SharedBlock(k, fromBlock, toBlock, block)
  {
    if RangeIntersects(k, fromBlock, toBlock) {
      var block: nat := if fromBlock.Some? && fromBlock.value > k.activatedBlock then fromBlock.value else k.activatedBlock;
      assert SharedBlock(k, fromBlock, toBlock, block);
    }
  }

  function PacketKeys(keys: seq<AuditorKey>, signer: AuditorKey, fromBlock: Option<nat>, toBlock: Option<nat>)
    : seq<AuditorKey>
  {
    if keys == [] then []
    else
      var last := keys[|keys| - 1];
      PacketKeys(keys[..|keys| - 1], signer, fromBlock, toBlock)
      + if last.id == signer.id || last.active || RangeIntersects(last, fromBlock, toBlock) then [last] else []
  }

  lemma {:induction false} PacketKeysHave(keys: seq<AuditorKey>, signer: AuditorKey, fromBlock: Option<nat>, toBlock: Option<nat>,
                                          k: AuditorKey)
    ensures k in PacketKeys(keys, signer, fromBlock, toBlock)
            <==> k in keys && (k.id == signer.id || k.active || RangeIntersects(k, fromBlock, toBlock))
  {
    if keys != [] {
      var front := keys[..|keys| - 1];
      PacketKeysHave(front, signer, fromBlock, toBlock, k);
      assert k in keys <==> k in front || k == keys[|keys| - 1];
    }
  }

  /** The events an export reads: with a ciphertext, of the address, in the block range. */
  predicate Selected(e: Event, address: nat, fromBlock: Option<nat>, toBlock: Option<nat>) {
    && e.amountPct.Some?
    && (e.fromAddr == Some(address) || e.toAddr == Some(address))
    && (fromBlock.Some? ==> e.blockNumber >= fromBlock.value)
    && (toBlock.Some? ==> e.blockNumber <= toBlock.value)
  }

  /** Of every key list whatever: a key that covers an event of the range meets the range. */
  lemma CoverIntersects(k: AuditorKey, e: Event, fromBlock: Option<nat>, toBlock: Option<nat>)
    requires KeyCoversEvent(k, e) == Ok(true)
    requires fromBlock.Some? ==> e.blockNumber >= fromBlock.value
    requires toBlock.Some? ==> e.blockNumber <= toBlock.value
    ensures RangeIntersects(k, fromBlock, toBlock)
  {
  }

  lemma {:induction false} FoundCovers(keys: seq<AuditorKey>, e: Event)
    requires FindKeyForEvent(keys, e).Ok? && FindKeyForEvent(keys, e).value.Some?
    ensures var k := FindKeyForEvent(keys, e).value.value; k in keys && KeyCoversEvent(k, e) == Ok(true)
  {
    if KeyCoversEvent(keys[0], e) != Ok(true) {
      FoundCovers(keys[1..], e);
    }
  }

  /** A key of the list has the row's key id, covers its event, and decrypts its amount. */
  ghost predicate HasKeyOf(keys: seq<AuditorKey>, decrypt: Decrypt, row: DecryptedRow) {
    row.event.amountPct.Some?
    && exists k :: k in keys && k.id == row.keyId && KeyCoversEvent(k, row.event) == Ok(true)
                   && decrypt(k.secret, row.event.amountPct.value) == Some(row.amount)
  }

  lemma {:induction false} RowsAreCovered(keys: seq<AuditorKey>, decrypt: Decrypt, events: seq<Event>, row: DecryptedRow)
    requires row in DecryptAll(keys, decrypt, events).0
    ensures row.event in events && HasKeyOf(keys, decrypt, row)
  {
    var front, last := events[..|events| - 1], events[|events| - 1];
    if row in DecryptAll(keys, decrypt, front).0 {
      RowsAreCovered(keys, decrypt, front, row);
    } else {
      assert DecryptRow(keys, decrypt, last) == Ok(Some(row));
      FoundCovers(keys, last);
    }
  }

  datatype Packet = Packet(keys: seq<AuditorKey>, rows: seq<DecryptedRow>, signer: AuditorKey)

  /** A packet can be checked on its own: the keys of its rows, and its signer's key, are in its key list. */
  ghost predicate SelfContained(packet: Packet, decrypt: Decrypt) {
    && packet.signer in packet.keys && packet.signer.active
    && forall row :: row in packet.rows ==> HasKeyOf(packet.keys, decrypt, row)
  }

  /** Choosing the packet's keys loses no key that a row of the range needs. */
  lemma PacketKeysSuffice(keys: seq<AuditorKey>, decrypt: Decrypt, row: DecryptedRow, signer: AuditorKey, address: nat,
                          fromBlock: Option<nat>, toBlock: Option<nat>)
    requires Selected(row.event, address, fromBlock, toBlock)
    ensures HasKeyOf(PacketKeys(keys, signer, fromBlock, toBlock), decrypt, row) <==> HasKeyOf(keys, decrypt, row)
  {
    var packetKeys := PacketKeys(keys, signer, fromBlock, toBlock);
    if HasKeyOf(keys, decrypt, row) {
      var k :| k in keys && k.id == row.keyId && KeyCoversEvent(k, row.event) == Ok(true)
               && decrypt(k.secret, row.event.amountPct.value) == Some(row.amount);
      CoverIntersects(k, row.event, fromBlock, toBlock);
      PacketKeysHave(keys, signer, fromBlock, toBlock, k);
    }
    if HasKeyOf(packetKeys, decrypt, row) {
      var k :| k in packetKeys && k.id == row.keyId && KeyCoversEvent(k, row.event) == Ok(true)
               && decrypt(k.secret, row.event.amountPct.value) == Some(row.amount);
      PacketKeysHave(keys, signer, fromBlock, toBlock, k);
    }
  }

  /**
   The keys are loaded once to decrypt the rows and again for the packet. Of every key table: the packet is
   self-contained exactly when the second load still has the key of every row.
   */
  lemma PacketSelfContainedIff(keys: seq<AuditorKey>, decrypt: Decrypt, rows: seq<DecryptedRow>, address: nat,
                               fromBlock: Option<nat>, toBlock: Option<nat>)
    requires forall row :: row in rows ==> Selected(row.event, address, fromBlock, toBlock)
    requires SelectSigner(keys).Some?
    ensures var signer := SelectSigner(keys).value;
            SelfContained(Packet(PacketKeys(keys, signer, fromBlock, toBlock), rows, signer), decrypt)
            <==> forall row :: row in rows ==> HasKeyOf(keys, decrypt, row)
  {
    var signer := SelectSigner(keys).value;
    SignerIsLatest(keys);
    PacketKeysHave(keys, signer, fromBlock, toBlock, signer);
    forall row | row in rows
      ensures HasKeyOf(PacketKeys(keys, signer, fromBlock, toBlock), decrypt, row) <==> HasKeyOf(keys, decrypt, row)
    {
      PacketKeysSuffice(keys, decrypt, row, signer, address, fromBlock, toBlock);
    }
  }

  /** With no rotation between the loads every packet is self-contained, whatever the key table. */
  lemma PacketIsSelfContained(keys: seq<AuditorKey>, decrypt: Decrypt, events: seq<Event>, address: nat,
                              fromBlock: Option<nat>, toBlock: Option<nat>)
    requires forall e :: e in events ==> Selected(e, address, fromBlock, toBlock)
    requires SelectSigner(keys).Some?
    ensures var signer := SelectSigner(keys).value;
            SelfContained(Packet(PacketKeys(keys, signer, fromBlock, toBlock), DecryptAll(keys, decrypt, events).0, signer),
                          decrypt)
  {
    var rows := DecryptAll(keys, decrypt, events).0;
    forall row | row in rows
      ensures Selected(row.event, address, fromBlock, toBlock) && HasKeyOf(keys, decrypt, row)
    {
      RowsAreCovered(keys, decrypt, events, row);
    }
    PacketSelfContainedIff(keys, decrypt, rows, address, fromBlock, toBlock);
  }

  // ---------- A rotation between the two loads ----------

  function RotatedAt(r: Rotation): Position {
    Position(r.blockNumber, r.logIndex.GetOr(0))
  }

  /** Rotations leave the identity, the secret and the start of every key, and each new key starts where it says. */
  lemma {:induction false} RotationsKeepKeys(keys: seq<AuditorKey>, rotations: seq<Rotation>)
    ensures var later := RotateAll(keys, rotations);
            && |later| == |keys| + |rotations|
            && (forall i :: 0 <= i < |keys| ==>
                  later[i].id == keys[i].id && later[i].secret == keys[i].secret && StartOf(later[i]) == StartOf(keys[i]))
            && (forall i :: 0 <= i < |rotations| ==> StartOf(later[|keys| + i]) == RotatedAt(rotations[i]))
  {
    if rotations != [] {
      var front := rotations[..|rotations| - 1];
      RotationsKeepKeys(keys, front);
      var before, later := RotateAll(keys, front), RotateAll(keys, rotations);
      forall i | 0 <= i < |before|
        ensures later[i].id == before[i].id && later[i].secret == before[i].secret && StartOf(later[i]) == StartOf(before[i])
      {
        assert later[i] == Retired(before[i], rotations[|rotations| - 1]);
      }
    }
  }

  predicate DistinctIds(keys: seq<AuditorKey>) {
    forall i, j :: 0 <= i < j < |keys| ==> keys[i].id != keys[j].id
  }

  predicate BeforeRotations(e: Event, rotations: seq<Rotation>) {
    rotations != [] ==> Before(PositionOf(e), RotatedAt(rotations[0]))
  }

  /** A key goes on covering an event exactly when the event lies before the rotations that come after. */
  lemma StillCovers(keys: seq<AuditorKey>, rotations: seq<Rotation>, i: nat, e: Event)
    requires History(keys) && History(RotateAll(keys, rotations)) && i < |keys| && KeyCoversEvent(keys[i], e) == Ok(true)
    ensures |RotateAll(keys, rotations)| == |keys| + |rotations|
    ensures KeyCoversEvent(RotateAll(keys, rotations)[i], e) == Ok(true) <==> BeforeRotations(e, rotations)
  {
    var later := RotateAll(keys, rotations);
    RotationsKeepKeys(keys, rotations);
    CoversInterval(keys, i, e);
    CoversInterval(later, i, e);
    if rotations != [] {
      assert StartOf(later[|keys|]) == RotatedAt(rotations[0]);
      assert i + 1 < |keys| ==> Before(StartOf(later[i + 1]), StartOf(later[|keys|]));
    }
  }

  lemma SameMembers(keys: seq<AuditorKey>, loaded: seq<AuditorKey>, k: AuditorKey)
    requires multiset(loaded) == multiset(keys)
    ensures k in loaded <==> k in keys
  {
    assert k in loaded <==> k in multiset(loaded);
    assert k in keys <==> k in multiset(keys);
  }

  /** The key that decrypted a row, by its place in the table. */
  lemma KeyOfRow(keys: seq<AuditorKey>, loaded: seq<AuditorKey>, decrypt: Decrypt, events: seq<Event>, row: DecryptedRow)
    returns (i: nat)
    requires multiset(loaded) == multiset(keys) && row in DecryptAll(loaded, decrypt, events).0
    ensures i < |keys| && keys[i].id == row.keyId && KeyCoversEvent(keys[i], row.event) == Ok(true)
    ensures row.event.amountPct.Some? && decrypt(keys[i].secret, row.event.amountPct.value) == Some(row.amount)
  {
    RowsAreCovered(loaded, decrypt, events, row);
    var k :| k in loaded && k.id == row.keyId && KeyCoversEvent(k, row.event) == Ok(true)
             && decrypt(k.secret, row.event.amountPct.value) == Some(row.amount);
    SameMembers(keys, loaded, k);
    i :| 0 <= i < |keys| && keys[i] == k;
  }

  /** Where ids are distinct, a row's key in a table is the one at the place its id says. */
  lemma OnlyKeyOfRow(later: seq<AuditorKey>, reloaded: seq<AuditorKey>, decrypt: Decrypt, row: DecryptedRow, i: nat)
    requires DistinctIds(later) && multiset(reloaded) == multiset(later) && i < |later| && later[i].id == row.keyId
    requires row.event.amountPct.Some? && decrypt(later[i].secret, row.event.amountPct.value) == Some(row.amount)
    ensures HasKeyOf(reloaded, decrypt, row) <==> KeyCoversEvent(later[i], row.event) == Ok(true)
  {
    SameMembers(later, reloaded, later[i]);
    if HasKeyOf(reloaded, decrypt, row) {
      var k :| k in reloaded && k.id == row.keyId && KeyCoversEvent(k, row.event) == Ok(true);
      SameMembers(later, reloaded, k);
      var j :| 0 <= j < |later| && later[j] == k;
      assert i == j;
    }
  }

  /** The later table has the key of a decrypted row exactly when the row lies before the rotations. */
  lemma KeyOfRowIff(keys: seq<AuditorKey>, rotations: seq<Rotation>, loaded: seq<AuditorKey>, reloaded: seq<AuditorKey>,
                    decrypt: Decrypt, events: seq<Event>, row: DecryptedRow)
    requires History(keys) && History(RotateAll(keys, rotations)) && DistinctIds(RotateAll(keys, rotations))
    requires multiset(loaded) == multiset(keys) && multiset(reloaded) == multiset(RotateAll(keys, rotations))
    requires row in DecryptAll(loaded, decrypt, events).0
    ensures HasKeyOf(reloaded, decrypt, row) <==> BeforeRotations(row.event, rotations)
  {
    var i := KeyOfRow(keys, loaded, decrypt, events, row);
    RotationsKeepKeys(keys, rotations);
    StillCovers(keys, rotations, i, row.event);
    OnlyKeyOfRow(RotateAll(keys, rotations), reloaded, decrypt, row, i);
  }

  /**
   Rotations recorded between the two loads: however the tables are ordered, the packet is self-contained exactly
   when every decrypted row lies before the first of them.
   */
  lemma TwoLoadsIff(keys: seq<AuditorKey>, rotations: seq<Rotation>, loaded: seq<AuditorKey>, reloaded: seq<AuditorKey>,
                    decrypt: Decrypt, events: seq<Event>, address: nat, fromBlock: Option<nat>, toBlock: Option<nat>)
    requires History(keys) && Increasing(rotations) && (rotations != [] ==> Follows(keys, rotations[0]))
    requires DistinctIds(RotateAll(keys, rotations))
    requires multiset(loaded) == multiset(keys) && multiset(reloaded) == multiset(RotateAll(keys, rotations))
    requires forall e :: e in events ==> Selected(e, address, fromBlock, toBlock)
    requires SelectSigner(reloaded).Some?
    ensures var signer, rows := SelectSigner(reloaded).value, DecryptAll(loaded, decrypt, events).0;
            SelfContained(Packet(PacketKeys(reloaded, signer, fromBlock, toBlock), rows, signer), decrypt)
            <==> forall row :: row in rows ==> BeforeRotations(row.event, rotations)
  {
    var rows := DecryptAll(loaded, decrypt, events).0;
    RotationsGiveHistory(keys, rotations);
    forall row | row in rows
      ensures Selected(row.event, address, fromBlock, toBlock)
      ensures HasKeyOf(reloaded, decrypt, row) <==> BeforeRotations(row.event, rotations)
    {
      RowsAreCovered(loaded, decrypt, events, row);
      KeyOfRowIff(keys, rotations, loaded, reloaded, decrypt, events, row);
    }
    PacketSelfContainedIff(reloaded, decrypt, rows, address, fromBlock, toBlock);
  }

  const OLD_KEY := AuditorKey(1, 11, true, 0, None, None, None, None, None, None)
  const LATE_ROTATION := Rotation(2, 12, 5, Some(0), None, 9)
  const LATE_EVENT := Event(4, 6, 0, None, Some([]), Some(3), None)

  /** One rotation at block 5 recorded between the loads, and a row of block 6: the packet has no key for its row. */
  lemma TwoLoadsCanMissAKey(decrypt: Decrypt)
    requires decrypt(11, []) == Some(7)
    ensures var reloaded := RotateKeys([OLD_KEY], LATE_ROTATION);
            && DecryptAll([OLD_KEY], decrypt, [LATE_EVENT]) == ([DecryptedRow(LATE_EVENT, 7, 1)], None)
            && SelectSigner(reloaded).Some?
            && var signer := SelectSigner(reloaded).value;
               !SelfContained(Packet(PacketKeys(reloaded, signer, None, None), [DecryptedRow(LATE_EVENT, 7, 1)], signer),
                              decrypt)
  {
    var reloaded := RotateKeys([OLD_KEY], LATE_ROTATION);
    var row := DecryptedRow(LATE_EVENT, 7, 1);
    assert [LATE_EVENT][..0] == [];
    assert DecryptRow([OLD_KEY], decrypt, LATE_EVENT) == Ok(Some(row));
    assert DecryptAll([OLD_KEY], decrypt, [LATE_EVENT]).0 == [row];
    assert reloaded == RotateAll([OLD_KEY], [LATE_ROTATION]) by {
      assert [LATE_ROTATION][..0] == [];
    }
    SignerIsLatest(reloaded);
    assert reloaded[1] in reloaded && reloaded[1].active;
    assert row in [row] && !BeforeRotations(row.event, [LATE_ROTATION]);
    TwoLoadsIff([OLD_KEY], [LATE_ROTATION], [OLD_KEY], reloaded, decrypt, [LATE_EVENT], 3, None, None);
  }

  /**
   The export, with the keys loaded for the rows and the keys loaded for the packet; it fails without an active key
   or with a bad row.
   */
  method BuildAuditorPacket(auditor: Auditor, keys: seq<AuditorKey>, reloaded: seq<AuditorKey>, decrypt: Decrypt,
                            events: seq<Event>, address: nat, fromBlock: Option<nat>, toBlock: Option<nat>)
    returns (r: Result<Packet, PacketError>)
    requires forall e :: e in events ==> Selected(e, address, fromBlock, toBlock)
    modifies auditor
    ensures auditor.auditLog == old(auditor.auditLog) + DecryptAll(keys, decrypt, events).0
    ensures r.Ok? <==> DecryptAll(keys, decrypt, events).1.None? && exists k :: k in reloaded && k.active
    ensures r.Ok? ==> RowsFor(keys, decrypt, events, r.value.rows)
    ensures r.Ok? ==> r.value.rows == DecryptAll(keys, decrypt, events).0
                      && Some(r.value.signer) == SelectSigner(reloaded)
                      && r.value.keys == PacketKeys(reloaded, r.value.signer, fromBlock, toBlock)
    ensures r.Ok? ==> (SelfContained(r.value, decrypt)
                       <==> forall row :: row in r.value.rows ==> HasKeyOf(reloaded, decrypt, row))
    ensures r.Ok? && reloaded == keys ==> SelfContained(r.value, decrypt)
  {
    AllCiphertexts(events);
    var rows := auditor.DecryptRows(keys, decrypt, events);
    if rows.Err? {
      return Err(rows.error);
    }
    SignerIsLatest(reloaded);
    var signer := SelectSigner(reloaded);
    if signer.None? {
      return Err(NoSigner);
    }
    forall row | row in rows.value ensures Selected(row.event, address, fromBlock, toBlock) {
      RowsAreCovered(keys, decrypt, events, row);
    }
    PacketSelfContainedIff(reloaded, decrypt, rows.value, address, fromBlock, toBlock);
    if reloaded == keys {
      PacketIsSelfContained(keys, decrypt, events, address, fromBlock, toBlock);
    }
    return Ok(Packet(PacketKeys(reloaded, signer.value, fromBlock, toBlock), rows.value, signer.value));
  }
}
