/** What every interleaving of onramp pollers keeps, and what a poller that has its intents to itself achieves. */
module OnrampSafety {
  import opened Prelude
  import opened OnrampService
  import opened OnrampPoller

  ghost predicate Next(cfg: Config, st: State, step: Step, st': State) {
    Enabled(cfg, st, step) && st' == Apply(cfg, st, step)
  }

  ghost predicate NextAt(cfg: Config, states: seq<State>, steps: seq<Step>, i: nat)
    requires i < |steps| && |states| == |steps| + 1
  {
    Next(cfg, states[i], steps[i], states[i + 1])
  }

  ghost predicate Run(cfg: Config, states: seq<State>, steps: seq<Step>) {
    && |states| == |steps| + 1
    && Init(states[0])
    && (forall i :: 0 <= i < |steps| ==> NextAt(cfg, states, steps, i))
  }

  // ---------- Any number of pollers ----------

  /** One visible change of status: a move of the table, or the two moves that the credit transaction makes. */
  predicate Moves(a: Status, b: Status) {
    a == b || CanTransition(a, b) || (CanTransition(a, Minted) && b == Credited)
  }

  predicate HasAmount(row: Intent) {
    row.status in {Attested, NeedsOnboarding, Minted, Credited} ==> row.amount.Some?
  }

  predicate RowOk(row: Intent) {
    row.status != Minted && HasAmount(row)
  }

  ghost predicate OpenInv(st: State) {
    && (forall id :: id in st.intents ==> RowOk(st.intents[id]))
    && (forall p :: p in st.pollers ==> RowOk(st.pollers[p].row))
  }

  /** What a write of one intent may change: its status along the table, never its burn nor a known amount. */
  ghost predicate MovesOnly(intents: Store, after: Store, id: nat) {
    && after.Keys == intents.Keys
    && (forall other :: other in intents && other != id ==> after[other] == intents[other])
    && (id in intents ==>
          && Moves(intents[id].status, after[id].status) && RowOk(after[id])
          && after[id].sourceTxHash == intents[id].sourceTxHash
          && (intents[id].amount.Some? ==> after[id].amount.Some?))
  }

  ghost predicate EffectOk(st: State, w: Poller, e: Effect) {
    MovesOnly(st.intents, e.intents, w.id) && (e.next.Some? ==> RowOk(e.next.value.row) && e.next.value.id == w.id)
  }

  lemma CreditMoves(cfg: Config, st: State, w: Poller)
    requires (w.id in st.intents ==> RowOk(st.intents[w.id])) && w.Crediting? && RowOk(w.row)
    ensures EffectOk(st, w, EffectOf(cfg, st, w))
  {
  }

  lemma TransitionMoves(store: Store, id: nat, to: Status, patch: Patch)
    requires id in store ==> RowOk(Patched(store[id], patch).(status := to))
    ensures var r := Transition(store, id, to, patch); r.Ok? ==> MovesOnly(store, r.value.0, id) && RowOk(r.value.1)
  {
  }

  lemma PatchMoves(store: Store, id: nat, patch: Patch)
    requires id in store ==> RowOk(Patched(store[id], patch))
    ensures var r := PatchRow(store, id, patch); r.Ok? ==> MovesOnly(store, r.value.0, id) && RowOk(r.value.1)
  {
  }

  lemma StayMoves(store: Store, id: nat)
    requires id in store ==> RowOk(store[id])
    ensures MovesOnly(store, store, id)
  {
  }

  lemma AdvanceMoves(cfg: Config, st: State, w: Poller)
    requires (w.id in st.intents ==> RowOk(st.intents[w.id])) && w.Advancing? && RowOk(w.row)
    ensures EffectOk(st, w, EffectOf(cfg, st, w))
  {
    var patch := AttestationPatch(w.m);
    StayMoves(st.intents, w.id);
    match w.row.status
    case Initiated => TransitionMoves(st.intents, w.id, Burned, patch);
    case Burned => TransitionMoves(st.intents, w.id, Attested, patch);
    case NeedsOnboarding => TransitionMoves(st.intents, w.id, Attested, patch);
    case Attested => PatchMoves(st.intents, w.id, patch);
    case _ =>
  }

  lemma MessageMoves(cfg: Config, st: State, w: Poller)
    requires (w.id in st.intents ==> RowOk(st.intents[w.id])) && (w.Reassociating? || w.Parking?) && RowOk(w.row)
    ensures EffectOk(st, w, EffectOf(cfg, st, w))
  {
    var patch := AttestationPatch(w.m);
    StayMoves(st.intents, w.id);
    if w.Reassociating? {
      PatchMoves(st.intents, w.id, patch.(userId := Some(w.m.userId)));
    } else {
      PatchMoves(st.intents, w.id, patch);
      TransitionMoves(st.intents, w.id, NeedsOnboarding, patch);
    }
  }

  lemma FailureMoves(cfg: Config, st: State, w: Poller)
    requires (w.id in st.intents ==> RowOk(st.intents[w.id])) && (w.FailingIntent? || w.MarkingBurned?) && RowOk(w.row)
    ensures EffectOk(st, w, EffectOf(cfg, st, w))
  {
    StayMoves(st.intents, w.id);
    if w.FailingIntent? {
      PatchMoves(st.intents, w.id, NO_PATCH);
      TransitionMoves(st.intents, w.id, Failed, NO_PATCH);
    } else {
      var patch := NO_PATCH.(nonce := Some(if w.eventNonce.Some? then w.eventNonce else w.row.nonce));
      PatchMoves(st.intents, w.id, patch);
      TransitionMoves(st.intents, w.id, Burned, patch);
    }
  }

  /** What one write of a poller can do to the table of intents. */
  lemma EffectMoves(cfg: Config, st: State, w: Poller)
    requires OpenInv(st) && HasWrite(w) && RowOk(w.row)
    ensures EffectOk(st, w, EffectOf(cfg, st, w))
  {
    assert w.id in st.intents ==> RowOk(st.intents[w.id]);
    if w.Crediting? {
      CreditMoves(cfg, st, w);
    } else if w.Advancing? {
      AdvanceMoves(cfg, st, w);
    } else if w.Reassociating? || w.Parking? {
      MessageMoves(cfg, st, w);
    } else {
      FailureMoves(cfg, st, w);
    }
  }

  lemma OpenStep(cfg: Config, st: State, step: Step)
    requires OpenInv(st) && Enabled(cfg, st, step)
    ensures OpenInv(Apply(cfg, st, step))
    ensures forall id :: id in st.intents ==>
      id in Apply(cfg, st, step).intents
      && Moves(st.intents[id].status, Apply(cfg, st, step).intents[id].status)
  {
    if step.DbStep? {
      EffectMoves(cfg, st, st.pollers[step.p]);
    }
  }

  lemma {:induction false} OpenRun(cfg: Config, states: seq<State>, steps: seq<Step>, i: nat)
    requires Run(cfg, states, steps) && i < |states|
    ensures OpenInv(states[i])
  {
    if i > 0 {
      OpenRun(cfg, states, steps, i - 1);
      assert NextAt(cfg, states, steps, i - 1);
      OpenStep(cfg, states[i - 1], steps[i - 1]);
    }
  }

  /**
   Whatever the interleaving: an intent's status changes only along the table, no intent is seen minted, and
   an attested, parked or credited intent has an amount.
   */
  lemma StatusFollowsTable(cfg: Config, states: seq<State>, steps: seq<Step>, i: nat, id: nat)
    requires Run(cfg, states, steps) && i < |steps| && id in states[i].intents
    ensures states[i].intents[id].status != Minted
    ensures states[i].intents[id].status in {Attested, NeedsOnboarding, Credited} ==> states[i].intents[id].amount.Some?
    ensures id in states[i + 1].intents && Moves(states[i].intents[id].status, states[i + 1].intents[id].status)
  {
    OpenRun(cfg, states, steps, i);
    assert NextAt(cfg, states, steps, i);
    OpenStep(cfg, states[i], steps[i]);
    assert RowOk(states[i].intents[id]);
  }

  /** Settled statuses and ledger rows of the first state are still there in the second. */
  ghost predicate Persists(a: State, b: State) {
    && (forall id :: id in a.intents && IsTerminal(a.intents[id].status) ==>
          id in b.intents && b.intents[id].status == a.intents[id].status)
    && (forall k :: k in a.ledger ==> k in b.ledger && b.ledger[k] == a.ledger[k])
  }

  /** No write takes a ledger row away. */
  lemma LedgerGrows(cfg: Config, st: State, w: Poller)
    requires HasWrite(w)
    ensures forall k :: k in st.ledger ==> k in EffectOf(cfg, st, w).ledger && EffectOf(cfg, st, w).ledger[k] == st.ledger[k]
  {
  }

  lemma MovesKeepTerminal(intents: Store, after: Store, id: nat)
    requires MovesOnly(intents, after, id)
    ensures forall k :: k in intents && IsTerminal(intents[k].status) ==> k in after && after[k].status == intents[k].status
  {
    forall k | k in intents && IsTerminal(intents[k].status) ensures k in after && after[k].status == intents[k].status {
      assert k == id ==> Moves(intents[id].status, after[id].status);
    }
  }

  lemma DbStepPersists(cfg: Config, st: State, p: nat)
    requires OpenInv(st) && Enabled(cfg, st, DbStep(p))
    ensures Persists(st, Apply(cfg, st, DbStep(p)))
  {
    var w := st.pollers[p];
    LedgerGrows(cfg, st, w);
    EffectMoves(cfg, st, w);
    MovesKeepTerminal(st.intents, EffectOf(cfg, st, w).intents, w.id);
  }

  lemma OpenStepPersists(cfg: Config, st: State, step: Step)
    requires OpenInv(st) && Enabled(cfg, st, step)
    ensures Persists(st, Apply(cfg, st, step))
  {
    if step.DbStep? {
      DbStepPersists(cfg, st, step.p);
    }
  }

  lemma PersistsTransitive(a: State, b: State, c: State)
    requires Persists(a, b) && Persists(b, c)
    ensures Persists(a, c)
  {
  }

  lemma PersistsReflexive(st: State)
    ensures Persists(st, st)
  {
  }

  /** Credited and failed are for good, and a ledger row once written never changes. */
  lemma {:induction false} TerminalForGood(cfg: Config, states: seq<State>, steps: seq<Step>, i: nat, j: nat)
    requires Run(cfg, states, steps) && i <= j < |states|
    ensures Persists(states[i], states[j])
    decreases j - i
  {
    if i == j {
      PersistsReflexive(states[i]);
    } else {
      TerminalForGood(cfg, states, steps, i, j - 1);
      OpenRun(cfg, states, steps, j - 1);
      assert NextAt(cfg, states, steps, j - 1);
      OpenStepPersists(cfg, states[j - 1], steps[j - 1]);
      PersistsTransitive(states[i], states[j - 1], states[j]);
    }
  }

  // ---------- One poller for each intent at a time ----------

  /** No two pollers work on the same intent: one poll job, however many intents it has loaded. */
  ghost predicate Exclusive(st: State) {
    forall p, q :: p in st.pollers && q in st.pollers && st.pollers[p].id == st.pollers[q].id ==> p == q
  }

  ghost predicate ExclusiveRun(cfg: Config, states: seq<State>, steps: seq<Step>) {
    Run(cfg, states, steps) && forall i :: 0 <= i < |states| ==> Exclusive(states[i])
  }

  /** A treasury funding whose token is configured: credit must be mirrored in the ledger. */
  predicate Mirrored(cfg: Config, row: Intent) {
    row.orgId.Some? && row.destToken in cfg.tokens
  }

  /** What is known of a message that a poller holds. */
  predicate Bound(cfg: Config, row: Intent, m: Message) {
    row.nonce == Some(m.nonce) && row.amount == Some(m.minted) && Genuine(cfg, row, m)
  }

  predicate PollerOk(cfg: Config, consumed: set<nat>, w: Poller) {
    && !IsTerminal(w.row.status)
    && match w
       case Reassociating(_, row, m) => Genuine(cfg, row, m)
       case CheckingKey(_, row, m) => Bound(cfg, row, m)
       case Parking(_, row, m) => Bound(cfg, row, m)
       case Advancing(_, row, m) => Bound(cfg, row, m)
       case Settling(_, row, m) => Bound(cfg, row, m) && row.status == Attested
       case Crediting(_, row, m, _) => Bound(cfg, row, m) && row.status == Attested && m.nonce in consumed
       case _ => true
  }

  /** A credited intent names a consumed nonce of its own burn and carries the amount minted for it. */
  predicate CreditOk(cfg: Config, consumed: set<nat>, row: Intent) {
    row.status == Credited ==>
      && row.nonce.Some? && row.nonce.value in consumed
      && row.amount == Some(cfg.amountOf(row.nonce.value))
      && cfg.burnOf(row.nonce.value) == row.sourceTxHash
  }

  /** The ledger has an intent's row exactly when the intent is a credited, mirrored funding; the amounts agree. */
  ghost predicate LedgerOk(cfg: Config, ledger: map<LedgerKey, LedgerRow>, id: nat, row: Intent) {
    && (forall org: nat :: LedgerKey(org, id) in ledger ==> row.orgId == Some(org))
    && (row.orgId.Some? ==>
          (LedgerKey(row.orgId.value, id) in ledger <==> row.status == Credited && Mirrored(cfg, row)))
    && (row.orgId.Some? && LedgerKey(row.orgId.value, id) in ledger ==>
          ledger[LedgerKey(row.orgId.value, id)] == LedgerRow(row.amount.GetOr(0), row.destToken, row.settleTxHash))
  }

  ghost predicate PollersOk(cfg: Config, st: State) {
    forall p :: p in st.pollers ==>
      st.pollers[p].id in st.intents && st.intents[st.pollers[p].id] == st.pollers[p].row
      && PollerOk(cfg, st.consumed, st.pollers[p])
  }

  ghost predicate IntentsOk(cfg: Config, st: State) {
    && (forall id :: id in st.intents ==>
          CreditOk(cfg, st.consumed, st.intents[id]) && LedgerOk(cfg, st.ledger, id, st.intents[id]))
    && (forall k :: k in st.ledger ==> k.intent in st.intents)
  }

  ghost predicate Inv(cfg: Config, st: State) {
    OpenInv(st) && UniqueBurns(st.intents) && Exclusive(st) && PollersOk(cfg, st) && IntentsOk(cfg, st)
  }

  /** The poller's view of its intent, and the intent's share of the ledger, before and after a write. */
  ghost predicate OwnView(cfg: Config, st: State, w: Poller) {
    && w.id in st.intents && st.intents[w.id] == w.row && RowOk(w.row)
    && PollerOk(cfg, st.consumed, w)
    && CreditOk(cfg, st.consumed, w.row) && LedgerOk(cfg, st.ledger, w.id, w.row)
  }

  ghost predicate OwnDone(cfg: Config, st: State, w: Poller, e: Effect) {
    && w.id in e.intents && e.intents == st.intents[w.id := e.intents[w.id]]
    && e.intents[w.id].sourceTxHash == w.row.sourceTxHash
    && CreditOk(cfg, st.consumed, e.intents[w.id]) && LedgerOk(cfg, e.ledger, w.id, e.intents[w.id])
    && (e.next.Some? ==> e.next.value.id == w.id && e.next.value.row == e.intents[w.id]
                         && PollerOk(cfg, st.consumed, e.next.value))
  }

  /** The other intents' ledger rows are the same before and after. */
  ghost predicate SameElsewhere(a: map<LedgerKey, LedgerRow>, b: map<LedgerKey, LedgerRow>, id: nat) {
    && (forall k :: k in a && k.intent != id ==> k in b && b[k] == a[k])
    && (forall k :: k in b && k.intent != id ==> k in a)
  }

  lemma OwnCredit(cfg: Config, st: State, w: Poller)
    requires w.Crediting? && OwnView(cfg, st, w)
    ensures var e := Credit(cfg, st, w);
            OwnDone(cfg, st, w, e) && SameElsewhere(st.ledger, e.ledger, w.id) && e.intents[w.id].status == Credited
  {
    var patch := NO_PATCH.(settleTxHash := Some(if w.txHash.Some? then w.txHash else w.row.settleTxHash));
    var minted := Patched(w.row, patch).(status := Minted);
    var credited := minted.(status := Credited);
    assert Transition(st.intents, w.id, Minted, patch) == Ok((st.intents[w.id := minted], minted));
    assert st.intents[w.id := minted][w.id := credited] == st.intents[w.id := credited];
    assert MarkCredited(st.intents, w.id, w.row, w.txHash) == Ok((st.intents[w.id := credited], credited));
  }

  lemma OwnAdvance(cfg: Config, st: State, w: Poller)
    requires w.Advancing? && OwnView(cfg, st, w)
    ensures OwnDone(cfg, st, w, Advance(st, w)) && Advance(st, w).ledger == st.ledger
  {
  }

  lemma OwnOther(cfg: Config, st: State, w: Poller)
    requires w.MarkingBurned? || w.FailingIntent? || w.Reassociating? || w.Parking?
    requires OwnView(cfg, st, w)
    ensures OwnDone(cfg, st, w, EffectOf(cfg, st, w)) && EffectOf(cfg, st, w).ledger == st.ledger
  {
  }

  /** One write of a poller that sees its intent as it is stored. */
  lemma OwnEffect(cfg: Config, st: State, w: Poller)
    requires HasWrite(w) && OwnView(cfg, st, w)
    ensures OwnDone(cfg, st, w, EffectOf(cfg, st, w))
    ensures SameElsewhere(st.ledger, EffectOf(cfg, st, w).ledger, w.id)
    ensures w.Crediting? ==> EffectOf(cfg, st, w).intents[w.id].status == Credited
  {
    if w.Crediting? {
      OwnCredit(cfg, st, w);
    } else if w.Advancing? {
      OwnAdvance(cfg, st, w);
    } else {
      OwnOther(cfg, st, w);
    }
  }

  lemma FramedLedger(cfg: Config, a: map<LedgerKey, LedgerRow>, b: map<LedgerKey, LedgerRow>, own: nat, id: nat, row: Intent)
    requires LedgerOk(cfg, a, id, row) && SameElsewhere(a, b, own) && id != own
    ensures LedgerOk(cfg, b, id, row)
  {
    forall org: nat | LedgerKey(org, id) in b ensures row.orgId == Some(org) {
      assert LedgerKey(org, id).intent != own;
      assert LedgerKey(org, id) in a;
    }
    if row.orgId.Some? {
      assert LedgerKey(row.orgId.value, id).intent != own;
    }
  }

  lemma DbStepIntents(cfg: Config, st: State, w: Poller, e: Effect)
    requires IntentsOk(cfg, st) && UniqueBurns(st.intents) && OwnView(cfg, st, w) && OwnDone(cfg, st, w, e)
    requires SameElsewhere(st.ledger, e.ledger, w.id)
    ensures IntentsOk(cfg, st.(intents := e.intents, ledger := e.ledger)) && UniqueBurns(e.intents)
  {
    forall id | id in e.intents ensures CreditOk(cfg, st.consumed, e.intents[id]) && LedgerOk(cfg, e.ledger, id, e.intents[id]) {
      if id != w.id {
        FramedLedger(cfg, st.ledger, e.ledger, w.id, id, st.intents[id]);
      }
    }
  }

  lemma DbStepPollers(cfg: Config, st: State, p: nat, e: Effect)
    requires PollersOk(cfg, st) && Exclusive(st) && p in st.pollers && OwnDone(cfg, st, st.pollers[p], e)
    ensures var st' := SetPoller(st, p, e.next).(intents := e.intents, ledger := e.ledger);
            PollersOk(cfg, st') && Exclusive(st')
  {
    var w := st.pollers[p];
    var st' := SetPoller(st, p, e.next).(intents := e.intents, ledger := e.ledger);
    forall q | q in st'.pollers
      ensures st'.pollers[q].id in st'.intents && st'.intents[st'.pollers[q].id] == st'.pollers[q].row
      ensures PollerOk(cfg, st'.consumed, st'.pollers[q])
    {
      if q != p {
        assert st'.pollers[q] == st.pollers[q] && st.pollers[q].id != w.id;
      }
    }
  }

  lemma DbStepKeepsInv(cfg: Config, st: State, p: nat)
    requires Inv(cfg, st) && Enabled(cfg, st, DbStep(p))
    ensures Inv(cfg, Apply(cfg, st, DbStep(p)))
  {
    var w := st.pollers[p];
    assert OpenInv(Apply(cfg, st, DbStep(p))) by {
      OpenStep(cfg, st, DbStep(p));
    }
    assert OwnView(cfg, st, w);
    var e := EffectOf(cfg, st, w);
    assert OwnDone(cfg, st, w, e) && SameElsewhere(st.ledger, e.ledger, w.id) by {
      OwnEffect(cfg, st, w);
    }
    DbStepIntents(cfg, st, w, e);
    DbStepPollers(cfg, st, p, e);
  }

  lemma CreateKeepsInv(cfg: Config, st: State, id: nat, intent: Intent)
    requires Inv(cfg, st) && Enabled(cfg, st, Create(id, intent))
    ensures Inv(cfg, Apply(cfg, st, Create(id, intent)))
  {
    OpenStep(cfg, st, Create(id, intent));
    assert LedgerOk(cfg, st.ledger, id, intent);
  }

  /** The poller that moves without writing keeps what is known of it. */
  lemma MovedPoller(cfg: Config, st: State, step: Step, p: nat)
    requires PollersOk(cfg, st) && Enabled(cfg, st, step) && p in Apply(cfg, st, step).pollers
    requires (step.Begin? || step.NoMessage? || step.Incomplete? || step.Complete? || step.LookUpKey? || step.Settle?)
    requires step.p == p
    ensures var w := Apply(cfg, st, step).pollers[p];
            w.id in st.intents && st.intents[w.id] == w.row && PollerOk(cfg, Apply(cfg, st, step).consumed, w)
  {
    if step.LookUpKey? || step.Settle? {
      AnsweredPoller(cfg, st, step, p);
    }
  }

  lemma AnsweredPoller(cfg: Config, st: State, step: Step, p: nat)
    requires PollersOk(cfg, st) && Enabled(cfg, st, step) && p in Apply(cfg, st, step).pollers
    requires (step.LookUpKey? || step.Settle?) && step.p == p
    ensures var w := Apply(cfg, st, step).pollers[p];
            w.id in st.intents && st.intents[w.id] == w.row && PollerOk(cfg, Apply(cfg, st, step).consumed, w)
  {
  }

  lemma MemoryPollers(cfg: Config, st: State, step: Step)
    requires PollersOk(cfg, st) && Enabled(cfg, st, step) && !step.DbStep? && !step.Create?
    ensures PollersOk(cfg, Apply(cfg, st, step))
  {
    var st' := Apply(cfg, st, step);
    forall q | q in st'.pollers
      ensures st'.pollers[q].id in st.intents && st.intents[st'.pollers[q].id] == st'.pollers[q].row
      ensures PollerOk(cfg, st'.consumed, st'.pollers[q])
    {
      if !step.SettleElsewhere? && !step.Crash? && step.p == q {
        MovedPoller(cfg, st, step, q);
      } else {
        assert st'.pollers[q] == st.pollers[q] && PollerOk(cfg, st.consumed, st.pollers[q]);
      }
    }
  }

  lemma MemoryIntents(cfg: Config, st: State, step: Step)
    requires IntentsOk(cfg, st) && Enabled(cfg, st, step) && !step.DbStep? && !step.Create?
    ensures IntentsOk(cfg, Apply(cfg, st, step)) && Apply(cfg, st, step).intents == st.intents
  {
    var st' := Apply(cfg, st, step);
    forall id | id in st'.intents
      ensures CreditOk(cfg, st'.consumed, st'.intents[id]) && LedgerOk(cfg, st'.ledger, id, st'.intents[id])
    {
      assert CreditOk(cfg, st.consumed, st.intents[id]) && LedgerOk(cfg, st.ledger, id, st.intents[id]);
    }
  }

  lemma MemoryKeepsInv(cfg: Config, st: State, step: Step)
    requires Inv(cfg, st) && Enabled(cfg, st, step) && !step.DbStep? && !step.Create?
    requires Exclusive(Apply(cfg, st, step))
    ensures Inv(cfg, Apply(cfg, st, step))
  {
    MemoryPollers(cfg, st, step);
    MemoryIntents(cfg, st, step);
    OpenStep(cfg, st, step);
  }

  lemma StepKeepsInv(cfg: Config, st: State, step: Step)
    requires Inv(cfg, st) && Enabled(cfg, st, step) && Exclusive(Apply(cfg, st, step))
    ensures Inv(cfg, Apply(cfg, st, step))
  {
    match step
    case DbStep(p) => DbStepKeepsInv(cfg, st, p);
    case Create(id, intent) => CreateKeepsInv(cfg, st, id, intent);
    case _ => MemoryKeepsInv(cfg, st, step);
  }

  lemma {:induction false} ExclusiveInv(cfg: Config, states: seq<State>, steps: seq<Step>, i: nat)
    requires ExclusiveRun(cfg, states, steps) && i < |states|
    ensures Inv(cfg, states[i])
  {
    if i > 0 {
      ExclusiveInv(cfg, states, steps, i - 1);
      assert NextAt(cfg, states, steps, i - 1);
      StepKeepsInv(cfg, states[i - 1], steps[i - 1]);
    }
  }

  /**
   At every moment of every such run, whatever crashed before: an intent with an organisation and a configured
   token is credited exactly when the ledger holds its row, and then the row's amount is the amount minted for
   the intent's nonce; every credited intent's nonce was consumed on chain, and no nonce credits two intents.
   */
  lemma CreditedExactlyInLedger(cfg: Config, states: seq<State>, steps: seq<Step>, i: nat, id: nat)
    requires ExclusiveRun(cfg, states, steps) && i < |states| && id in states[i].intents
    ensures var st := states[i];
            var row := st.intents[id];
            && (row.status == Credited ==>
                  row.nonce.Some? && row.nonce.value in st.consumed && row.amount == Some(cfg.amountOf(row.nonce.value)))
            && (row.orgId.Some? && row.destToken in cfg.tokens ==>
                  (row.status == Credited <==> LedgerKey(row.orgId.value, id) in st.ledger))
            && (forall org: nat :: LedgerKey(org, id) in st.ledger ==>
                  row.orgId == Some(org) && row.destToken in cfg.tokens && row.status == Credited
                  && st.ledger[LedgerKey(org, id)].amount == cfg.amountOf(row.nonce.value))
            && (row.status == Credited ==>
                  forall other :: other in st.intents && other != id && st.intents[other].status == Credited
                    ==> st.intents[other].nonce != row.nonce)
  {
    ExclusiveInv(cfg, states, steps, i);
    var st := states[i];
    var row := st.intents[id];
    assert CreditOk(cfg, st.consumed, row) && LedgerOk(cfg, st.ledger, id, row) && RowOk(row);
    forall other | other in st.intents && other != id && row.status == Credited && st.intents[other].status == Credited
      ensures st.intents[other].nonce != row.nonce
    {
      assert CreditOk(cfg, st.consumed, st.intents[other]);
    }
  }

  /** advanceToAttested leads from every polled status to attested, and the poller sees the stored row there. */
  lemma SettlesFromAttested(cfg: Config, states: seq<State>, steps: seq<Step>, i: nat, p: nat)
    requires ExclusiveRun(cfg, states, steps) && i < |states| && p in states[i].pollers && states[i].pollers[p].Settling?
    ensures var w := states[i].pollers[p];
            w.row.status == Attested && w.id in states[i].intents && states[i].intents[w.id] == w.row
            && w.row.amount == Some(w.m.minted)
  {
    ExclusiveInv(cfg, states, steps, i);
  }

  /** When a poller reports an intent as credited, the stored row is credited. */
  lemma CreditedOutcomeIsTrue(cfg: Config, states: seq<State>, steps: seq<Step>, i: nat)
    requires ExclusiveRun(cfg, states, steps) && i < |steps| && steps[i].DbStep?
    requires steps[i].p in states[i].pollers && states[i].pollers[steps[i].p].Crediting?
    ensures var id := states[i].pollers[steps[i].p].id;
            id in states[i + 1].intents && states[i + 1].intents[id].status == Credited
  {
    ExclusiveInv(cfg, states, steps, i);
    assert NextAt(cfg, states, steps, i);
    var w := states[i].pollers[steps[i].p];
    assert OwnView(cfg, states[i], w);
    OwnEffect(cfg, states[i], w);
  }
}
