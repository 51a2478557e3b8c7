/**
 The onramp poller as a step machine: one step for every await of processIntent, each database transaction
 being one step, for any number of pollers. A poller may crash, or stop on an error, before any of its steps.
 */
module OnrampPoller {
  import opened Prelude
  import opened OnrampService

  /** A complete attested message, decoded. `minted` is the burned amount less the fee. */
  datatype Message = Message(sourceDomain: nat, destDomain: nat, mintRecipient: nat, nonce: nat, minted: nat, userId: nat)

  /** CCTP attests one message for each nonce: its amount and its burn transaction are facts of the nonce. */
  datatype Config = Config(
    destDomain: nat, router: nat, tokens: set<Token>, amountOf: nat -> nat, burnOf: nat -> nat)

  datatype LedgerKey = LedgerKey(orgId: nat, intent: nat)

  datatype LedgerRow = LedgerRow(amount: nat, token: Token, txHash: Option<nat>)

  datatype Registration = Unregistered | OtherKey | SameKey

  datatype Outcome = Settled(txHash: nat) | AlreadySettled | NotRegistered | Unavailable | SettledUnseen | Broken

  /** The next await of a poller that works on the intent `id`, whose row it last saw as `row`. */
  datatype Poller =
    | Polled(id: nat, row: Intent)
    | MarkingBurned(id: nat, row: Intent, eventNonce: Option<nat>)
    | FailingIntent(id: nat, row: Intent)
    | Reassociating(id: nat, row: Intent, m: Message)
    | CheckingKey(id: nat, row: Intent, m: Message)
    | Parking(id: nat, row: Intent, m: Message)
    | Advancing(id: nat, row: Intent, m: Message)
    | Settling(id: nat, row: Intent, m: Message)
    | Crediting(id: nat, row: Intent, m: Message, txHash: Option<nat>)

  datatype State = State(
    intents: Store, ledger: map<LedgerKey, LedgerRow>, consumed: set<nat>, pollers: map<nat, Poller>)

  datatype Step =
    | Create(id: nat, intent: Intent)
    | SettleElsewhere(nonce: nat)
    | Begin(p: nat, id: nat)
    | NoMessage(p: nat)
    | Incomplete(p: nat, eventNonce: Option<nat>)
    | Complete(p: nat, m: Message)
    | LookUpKey(p: nat, registration: Registration)
    | Settle(p: nat, outcome: Outcome)
    | DbStep(p: nat)
    | Crash(p: nat)

  function AttestationPatch(m: Message): Patch {
    NO_PATCH.(amount := Some(m.minted), nonce := Some(Some(m.nonce)))
  }

  /** The database before and after one write or transaction of a poller, and what the poller does next. */
  datatype Effect = Effect(intents: Store, ledger: map<LedgerKey, LedgerRow>, next: Option<Poller>)

  function Written(st: State, r: Result<(Store, Intent), StoreError>, next: Intent -> Option<Poller>): Effect {
    if r.Ok? then Effect(r.value.0, st.ledger, next(r.value.1)) else Effect(st.intents, st.ledger, None)
  }

  /** The ledger mirror of a credited treasury funding; a row that is there already is kept. */
  function FinalizeTreasuryFunding(cfg: Config, ledger: map<LedgerKey, LedgerRow>, id: nat, row: Intent)
    : map<LedgerKey, LedgerRow>
  {
    if row.orgId.None? || row.amount.None? || row.destToken !in cfg.tokens then ledger
    else
      var key := LedgerKey(row.orgId.value, id);
      if key in ledger then ledger else ledger[key := LedgerRow(row.amount.value, row.destToken, row.settleTxHash)]
  }

  /** Attested goes through minted to credited; any other status but minted is left as it is. */
  function MarkCredited(store: Store, id: nat, row: Intent, txHash: Option<nat>): Result<(Store, Intent), StoreError> {
    var patch := NO_PATCH.(settleTxHash := Some(if txHash.Some? then txHash else row.settleTxHash));
    var minted := if row.status == Attested then Transition(store, id, Minted, patch) else Ok((store, row));
    if minted.Err? then minted
    else if minted.value.1.status == Minted then Transition(minted.value.0, id, Credited, patch)
    else minted
  }

  function Credit(cfg: Config, st: State, w: Poller): Effect
    requires w.Crediting?
  {
    var r := MarkCredited(st.intents, w.id, w.row, w.txHash);
    if r.Err? then Effect(st.intents, st.ledger, None)
    else Effect(r.value.0, FinalizeTreasuryFunding(cfg, st.ledger, w.id, r.value.1), None)
  }

  function Park(st: State, w: Poller): Effect
    requires w.Parking?
  {
    var patch := AttestationPatch(w.m);
    if w.row.status == NeedsOnboarding || !CanTransition(w.row.status, NeedsOnboarding)
    then Written(st, PatchRow(st.intents, w.id, patch), _ => None)
    else Written(st, Transition(st.intents, w.id, NeedsOnboarding, patch), _ => None)
  }

  function Fail(st: State, w: Poller): Effect
    requires w.FailingIntent?
  {
    if w.row.status == Failed || !CanTransition(w.row.status, Failed)
    then Written(st, PatchRow(st.intents, w.id, NO_PATCH), _ => None)
    else Written(st, Transition(st.intents, w.id, Failed, NO_PATCH), _ => None)
  }

  function MarkBurned(st: State, w: Poller): Effect
    requires w.MarkingBurned?
  {
    var patch := NO_PATCH.(nonce := Some(if w.eventNonce.Some? then w.eventNonce else w.row.nonce));
    if w.row.status != Initiated then Written(st, PatchRow(st.intents, w.id, patch), _ => None)
    else Written(st, Transition(st.intents, w.id, Burned, patch), _ => None)
  }

  function Reassociate(st: State, w: Poller): Effect
    requires w.Reassociating?
  {
    Written(st, PatchRow(st.intents, w.id, AttestationPatch(w.m).(userId := Some(w.m.userId))),
            row => Some(CheckingKey(w.id, row, w.m)))
  }

  /** advanceToAttested: initiated passes through burned first, and what is attested is only patched. */
  function Advance(st: State, w: Poller): Effect
    requires w.Advancing?
  {
    var patch := AttestationPatch(w.m);
    match w.row.status
    case Initiated =>
      Written(st, Transition(st.intents, w.id, Burned, patch), row => Some(Advancing(w.id, row, w.m)))
    case Burned =>
      Written(st, Transition(st.intents, w.id, Attested, patch), row => Some(Settling(w.id, row, w.m)))
    case NeedsOnboarding =>
      Written(st, Transition(st.intents, w.id, Attested, patch), row => Some(Settling(w.id, row, w.m)))
    case Attested => Written(st, PatchRow(st.intents, w.id, patch), row => Some(Settling(w.id, row, w.m)))
    case _ => Effect(st.intents, st.ledger, Some(Settling(w.id, w.row, w.m)))
  }

  /** A minted intent with a settlement is credited without asking Iris again. */
  predicate FastPath(row: Intent) {
    row.status == Minted && row.settleTxHash.Some?
  }

  function CreditMinted(cfg: Config, st: State, w: Poller): Effect {
    var r := Transition(st.intents, w.id, Credited, NO_PATCH);
    if r.Err? then Effect(st.intents, st.ledger, None)
    else Effect(r.value.0, FinalizeTreasuryFunding(cfg, st.ledger, w.id, r.value.1), None)
  }

  predicate HasWrite(w: Poller) {
    w.MarkingBurned? || w.FailingIntent? || w.Reassociating? || w.Parking? || w.Advancing? || w.Crediting?
    || (w.Polled? && FastPath(w.row))
  }

  function EffectOf(cfg: Config, st: State, w: Poller): Effect
    requires HasWrite(w)
  {
    match w
    case Polled(_, _) => CreditMinted(cfg, st, w)
    case MarkingBurned(_, _, _) => MarkBurned(st, w)
    case FailingIntent(_, _) => Fail(st, w)
    case Reassociating(_, _, _) => Reassociate(st, w)
    case Parking(_, _, _) => Park(st, w)
    case Advancing(_, _, _) => Advance(st, w)
    case Crediting(_, _, _, _) => Credit(cfg, st, w)
  }

  /** The checks on a complete message, in the order the poller makes them. */
  function AfterComplete(cfg: Config, w: Poller, m: Message): Poller {
    if m.sourceDomain != w.row.sourceDomain then FailingIntent(w.id, w.row)
    else if m.destDomain != cfg.destDomain then FailingIntent(w.id, w.row)
    else if m.mintRecipient != cfg.router then FailingIntent(w.id, w.row)
    else Reassociating(w.id, w.row, m)
  }

  function AfterLookup(w: Poller, registration: Registration): Poller
    requires w.CheckingKey?
  {
    match registration
    case Unregistered => Parking(w.id, w.row, w.m)
    case OtherKey => FailingIntent(w.id, w.row)
    case SameKey => Advancing(w.id, w.row, w.m)
  }

  function AfterSettle(w: Poller, outcome: Outcome): Option<Poller>
    requires w.Settling?
  {
    match outcome
    case Settled(txHash) => Some(Crediting(w.id, w.row, w.m, Some(txHash)))
    case AlreadySettled => Some(Crediting(w.id, w.row, w.m, None))
    case NotRegistered => Some(Parking(w.id, w.row, w.m))
    case Unavailable => None
    case SettledUnseen => None
    case Broken => None
  }

  /** Iris answers for the burn transaction of the intent; the nonce fixes the amount. */
  predicate Genuine(cfg: Config, row: Intent, m: Message) {
    cfg.amountOf(m.nonce) == m.minted && cfg.burnOf(m.nonce) == row.sourceTxHash
  }

  predicate SettleAllowed(consumed: set<nat>, nonce: nat, outcome: Outcome) {
    match outcome
    case Settled(_) => nonce !in consumed
    case SettledUnseen => nonce !in consumed
    case AlreadySettled => nonce in consumed
    case _ => true
  }

  ghost predicate Enabled(cfg: Config, st: State, step: Step) {
    match step
    case Create(id, intent) =>
      && id !in st.intents && intent.status == Initiated && intent.nonce.None? && intent.settleTxHash.None?
      && forall k :: k in st.intents ==> st.intents[k].sourceTxHash != intent.sourceTxHash
    case SettleElsewhere(_) => true
    case Begin(p, id) => p !in st.pollers && id in st.intents && !IsTerminal(st.intents[id].status)
    case NoMessage(p) => p in st.pollers && st.pollers[p].Polled? && !FastPath(st.pollers[p].row)
    case Incomplete(p, _) => p in st.pollers && st.pollers[p].Polled? && !FastPath(st.pollers[p].row)
    case Complete(p, m) =>
      p in st.pollers && st.pollers[p].Polled? && !FastPath(st.pollers[p].row) && Genuine(cfg, st.pollers[p].row, m)
    case LookUpKey(p, _) => p in st.pollers && st.pollers[p].CheckingKey?
    case Settle(p, outcome) =>
      p in st.pollers && st.pollers[p].Settling? && SettleAllowed(st.consumed, st.pollers[p].m.nonce, outcome)
    case DbStep(p) => p in st.pollers && HasWrite(st.pollers[p])
    case Crash(p) => p in st.pollers
  }

  function SetPoller(st: State, p: nat, next: Option<Poller>): State {
    st.(pollers := if next.Some? then st.pollers[p := next.value] else st.pollers - {p})
  }

  ghost function Apply(cfg: Config, st: State, step: Step): State
    requires Enabled(cfg, st, step)
  {
    match step
    case Create(id, intent) => st.(intents := st.intents[id := intent])
    case SettleElsewhere(nonce) => st.(consumed := st.consumed + {nonce})
    case Begin(p, id) => SetPoller(st, p, Some(Polled(id, st.intents[id])))
    case NoMessage(p) => SetPoller(st, p, None)
    case Incomplete(p, eventNonce) =>
      SetPoller(st, p, Some(MarkingBurned(st.pollers[p].id, st.pollers[p].row, eventNonce)))
    case Complete(p, m) => SetPoller(st, p, Some(AfterComplete(cfg, st.pollers[p], m)))
    case LookUpKey(p, registration) => SetPoller(st, p, Some(AfterLookup(st.pollers[p], registration)))
    case Settle(p, outcome) =>
      var w := st.pollers[p];
      SetPoller(st, p, AfterSettle(w, outcome))
        .(consumed := if outcome.Settled? || outcome.SettledUnseen? then st.consumed + {w.m.nonce} else st.consumed)
    case DbStep(p) =>
      var e := EffectOf(cfg, st, st.pollers[p]);
      SetPoller(st, p, e.next).(intents := e.intents, ledger := e.ledger)
    case Crash(p) => SetPoller(st, p, None)
  }

  ghost predicate Init(st: State) {
    st == State(map[], map[], {}, map[])
  }
}
