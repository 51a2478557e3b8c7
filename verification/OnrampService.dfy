/** Onramp intents: the status table, and the store that creates, patches and moves them. */
module OnrampService {
  import opened Prelude

  datatype Status = Initiated | Burned | Attested | Minted | NeedsOnboarding | Credited | Failed

  datatype Token = Usdc | Eurc

  datatype Intent = Intent(
    orgId: Option<nat>, userId: nat, sourceDomain: nat, sourceTxHash: nat, destToken: Token, amount: Option<nat>,
    nonce: Option<nat>, status: Status, settleTxHash: Option<nat>)

  /** Columns that a write sets; an absent column keeps its value. */
  datatype Patch = Patch(
    amount: Option<nat>, nonce: Option<Option<nat>>, userId: Option<nat>, settleTxHash: Option<Option<nat>>)

  const NO_PATCH := Patch(None, None, None, None)

  type Store = map<nat, Intent>

  datatype StoreError = NotFound | InvalidTransition | Conflict

  predicate IsTerminal(s: Status) {
    s == Credited || s == Failed
  }

  function Transitions(from: Status): set<Status> {
    match from
    case Initiated => {Burned, NeedsOnboarding, Failed}
    case Burned => {Attested, NeedsOnboarding, Failed}
    case Attested => {Minted, NeedsOnboarding, Failed}
    case Minted => {NeedsOnboarding, Credited, Failed}
    case NeedsOnboarding => {Attested, Minted, Credited, Failed}
    case Credited => {}
    case Failed => {}
  }

  predicate CanTransition(from: Status, to: Status) {
    to in Transitions(from)
  }

  /** The terminal statuses are exactly those with nowhere to go, and every other status may fail. */
  lemma TerminalIsAbsorbing(s: Status)
    ensures IsTerminal(s) <==> forall to :: !CanTransition(s, to)
    ensures IsTerminal(s) <==> !CanTransition(s, Failed)
    ensures !CanTransition(s, s) && !CanTransition(s, Initiated)
  {
    if !IsTerminal(s) {
      assert CanTransition(s, Failed);
    }
  }

  /** Every move an intent can make. */
  lemma TransitionTable(from: Status, to: Status)
    ensures CanTransition(from, to)
            <==> (from, to) in {(Initiated, Burned), (Initiated, NeedsOnboarding), (Initiated, Failed),
                                (Burned, Attested), (Burned, NeedsOnboarding), (Burned, Failed),
                                (Attested, Minted), (Attested, NeedsOnboarding), (Attested, Failed),
                                (Minted, NeedsOnboarding), (Minted, Credited), (Minted, Failed),
                                (NeedsOnboarding, Attested), (NeedsOnboarding, Minted), (NeedsOnboarding, Credited),
                                (NeedsOnboarding, Failed)}
  {
  }

  function Patched(row: Intent, patch: Patch): Intent {
    row.(amount := if patch.amount.Some? then patch.amount else row.amount,
         nonce := if patch.nonce.Some? then patch.nonce.value else row.nonce,
         userId := if patch.userId.Some? then patch.userId.value else row.userId,
         settleTxHash := if patch.settleTxHash.Some? then patch.settleTxHash.value else row.settleTxHash)
  }

  /**
   The compare-and-set, as one step on the status found by the update: IntentStore.TransitionIntent makes this
   step or changes nothing, whatever happened since its read.
   */
  function Transition(store: Store, id: nat, to: Status, patch: Patch): Result<(Store, Intent), StoreError> {
    if id !in store then Err(NotFound)
    else if !CanTransition(store[id].status, to) then Err(InvalidTransition)
    else
      var row := Patched(store[id], patch).(status := to);
      Ok((store[id := row], row))
  }

  function PatchRow(store: Store, id: nat, patch: Patch): Result<(Store, Intent), StoreError> {
    if id !in store then Err(NotFound)
    else
      var row := Patched(store[id], patch);
      Ok((store[id := row], row))
  }

  /** One burn transaction has at most one intent. */
  ghost predicate UniqueBurns(store: Store) {
    forall a, b :: a in store && b in store && store[a].sourceTxHash == store[b].sourceTxHash ==> a == b
  }

  class IntentStore {
    var rows: Store

    constructor ()
      ensures Valid() && rows == map[]
    {
      rows := map[];
    }

    ghost predicate Valid()
      reads this
    {
      UniqueBurns(rows)
    }

    /** Insert, or return the intent that already has this burn transaction. */
    method CreateIntent(id: nat, input: Intent) returns (found: nat, created: bool)
      requires Valid() && id !in rows
      modifies this
      ensures Valid() && found in rows && rows[found].sourceTxHash == input.sourceTxHash
      ensures created <==> forall k :: k in old(rows) ==> old(rows)[k].sourceTxHash != input.sourceTxHash
      ensures created ==> found == id
      ensures created ==> rows == old(rows)[id := input.(status := Initiated, nonce := None, settleTxHash := None)]
      ensures !created ==> rows == old(rows)
    {
      if k :| k in rows && rows[k].sourceTxHash == input.sourceTxHash {
        return k, false;
      }
      rows := rows[id := input.(status := Initiated, nonce := None, settleTxHash := None)];
      return id, true;
    }

    /**
     Read the row, then update it where its status is still the one that was read. The status moves along the
     table, as one step on the row found by the update, or nothing changes; no other intent is touched. `read` is
     the row as it was at the time of the read.
     */
    method TransitionIntent(id: nat, read: Option<Intent>, to: Status, patch: Patch) returns (r: Result<Intent, StoreError>)
      requires Valid()
      modifies this
      ensures Valid()
      ensures r.Ok? <==> read.Some? && CanTransition(read.value.status, to)
                         && id in old(rows) && old(rows)[id].status == read.value.status
      ensures r.Ok? ==> Transition(old(rows), id, to, patch) == Ok((rows, r.value))
      ensures r.Ok? ==> r.value.status == to && rows == old(rows)[id := r.value]
      ensures r.Ok? ==> r.value.(status := old(rows)[id].status) == Patched(old(rows)[id], patch)
      ensures r.Err? ==> rows == old(rows)
      ensures r == Err(NotFound) <==> read.None?
      ensures r == Err(Conflict) <==> read.Some? && CanTransition(read.value.status, to)
                                      && (id !in old(rows) || old(rows)[id].status != read.value.status)
    {
      if read.None? {
        return Err(NotFound);
      }
      if !CanTransition(read.value.status, to) {
        return Err(InvalidTransition);
      }
      if id !in rows || rows[id].status != read.value.status {
        return Err(Conflict);
      }
      var row := Patched(rows[id], patch).(status := to);
      rows := rows[id := row];
      return Ok(row);
    }
  }
}
