/**
 pollOnrampIntents and processIntent as they are written, over the tables they update. Every write and every
 answer of the outside world is recorded as a step of the poller machine, so the job keeps what the machine keeps.
 */
module OnrampJob {
  import opened Prelude
  import opened OnrampService
  import opened OnrampPoller
  import opened OnrampSafety

  /** One message of an answer of Iris: `decoded` is its message text, if it is there and can be decoded. */
  datatype IrisMessage = IrisMessage(complete: bool, eventNonce: Option<nat>, decoded: Option<Message>)

  /** What Iris has for the intent; the call, or the decoding of the message, may throw. */
  datatype Iris = NoneYet | Partial(eventNonce: Option<nat>) | Whole(m: Message) | IrisFails

  /** How the relayer's attempt to settle ends, were the nonce still unused. */
  datatype Relay = Submits(txHash: nat) | SubmitsUnseen | NoRecipient | NoRelayer | Breaks

  predicate Names(message: IrisMessage, nonce: nat) {
    message.eventNonce == Some(nonce) || (message.decoded.Some? && message.decoded.value.nonce == nonce)
  }

  /** A message about an intent with a nonce names it; about one without, it is complete. */
  predicate About(row: Intent, message: IrisMessage) {
    if row.nonce.Some? then Names(message, row.nonce.value) else message.complete
  }

  function FirstAbout(row: Intent, messages: seq<IrisMessage>): Option<IrisMessage> {
    if messages == [] then None
    else if About(row, messages[0]) then Some(messages[0])
    else FirstAbout(row, messages[1..])
  }

  /** Of an intent with a nonce, the first message that names it; otherwise the first complete one, or else the first. */
  function SelectIrisMessage(row: Intent, messages: seq<IrisMessage>): Option<IrisMessage> {
    var first := FirstAbout(row, messages);
    if messages == [] || first.Some? || row.nonce.Some? then first else Some(messages[0])
  }

  function Reading(row: Intent, answer: Option<seq<IrisMessage>>): Iris {
    if answer.None? then IrisFails
    else
      match SelectIrisMessage(row, answer.value)
      case None => NoneYet
      case Some(message) =>
        if !message.complete then Partial(message.eventNonce)
        else if message.decoded.None? then IrisFails
        else Whole(message.decoded.value)
  }

  /** Iris answers for the burn transaction of the intent. */
  predicate GenuineAnswer(cfg: Config, row: Intent, answer: Option<seq<IrisMessage>>) {
    answer.Some? ==>
      forall k :: 0 <= k < |answer.value| && answer.value[k].decoded.Some? ==> Genuine(cfg, row, answer.value[k].decoded.value)
  }

  /** The two places that name a message's nonce agree. */
  predicate OneNonce(message: IrisMessage) {
    message.eventNonce.Some? && message.decoded.Some? ==> message.eventNonce.value == message.decoded.value.nonce
  }

  lemma {:induction false} FirstAboutIs(row: Intent, messages: seq<IrisMessage>)
    ensures FirstAbout(row, messages).None? <==> forall k :: 0 <= k < |messages| ==> !About(row, messages[k])
    ensures FirstAbout(row, messages).Some? ==>
      exists i :: 0 <= i < |messages| && messages[i] == FirstAbout(row, messages).value && About(row, messages[i])
                  && forall j :: 0 <= j < i ==> !About(row, messages[j])
  {
    if messages != [] && !About(row, messages[0]) {
      FirstAboutIs(row, messages[1..]);
      assert forall k :: 0 < k < |messages| ==> messages[k] == messages[1..][k - 1];
      if FirstAbout(row, messages[1..]).Some? {
        var i :| 0 <= i < |messages| - 1 && messages[1..][i] == FirstAbout(row, messages[1..]).value
                 && About(row, messages[1..][i]) && forall j :: 0 <= j < i ==> !About(row, messages[1..][j]);
        assert messages[i + 1] == messages[1..][i];
      }
    }
  }

  /** What a poll makes of the message it selected. */
  predicate ReadAs(message: IrisMessage, iris: Iris) {
    if !message.complete then iris == Partial(message.eventNonce)
    else if message.decoded.None? then iris == IrisFails
    else iris == Whole(message.decoded.value)
  }

  /**
   What a poll acts on. For an intent with a nonce: the first message that names it, and none exactly when none does.
   For one without: the first complete message, or the first of all when none is complete.
   */
  lemma SelectedMessage(row: Intent, messages: seq<IrisMessage>)
    ensures var iris := Reading(row, Some(messages));
            if row.nonce.Some? then
              && (iris.NoneYet? <==> forall k :: 0 <= k < |messages| ==> !Names(messages[k], row.nonce.value))
              && (!iris.NoneYet? ==>
                    exists i :: 0 <= i < |messages| && Names(messages[i], row.nonce.value) && ReadAs(messages[i], iris)
                                && forall j :: 0 <= j < i ==> !Names(messages[j], row.nonce.value))
            else
              && (iris.NoneYet? <==> messages == [])
              && (messages != [] ==>
                    exists i :: 0 <= i < |messages| && ReadAs(messages[i], iris)
                                && if messages[i].complete then forall j :: 0 <= j < i ==> !messages[j].complete
                                   else i == 0 && forall j :: 0 <= j < |messages| ==> !messages[j].complete)
  {
    FirstAboutIs(row, messages);
    if messages != [] && FirstAbout(row, messages).None? && row.nonce.None? {
      assert !About(row, messages[0]);
    }
  }

  /** So where the two places that name a nonce agree, a poll never acts on a message of another nonce, nor of another burn. */
  lemma ActsOnItsNonce(cfg: Config, row: Intent, messages: seq<IrisMessage>)
    requires GenuineAnswer(cfg, row, Some(messages)) && forall k :: 0 <= k < |messages| ==> OneNonce(messages[k])
    ensures var iris := Reading(row, Some(messages));
            iris.Whole? ==> Genuine(cfg, row, iris.m) && (row.nonce.Some? ==> iris.m.nonce == row.nonce.value)
  {
    FirstAboutIs(row, messages);
  }

  /**
   What Iris, the key registry and the relayer answer for one intent, none when the call throws, and whether the
   credit transaction commits or is rolled back.
   */
  datatype World = World(answer: Option<seq<IrisMessage>>, registration: Option<Registration>, relay: Relay, commits: bool)

  /** A used nonce makes the contract reject the message, which the relayer reads as settled already. */
  function OutcomeOf(relay: Relay, consumed: set<nat>, nonce: nat): Outcome {
    match relay
    case Submits(txHash) => if nonce in consumed then AlreadySettled else Settled(txHash)
    case SubmitsUnseen => if nonce in consumed then AlreadySettled else SettledUnseen
    case NoRecipient => NotRegistered
    case NoRelayer => Unavailable
    case Breaks => Broken
  }

  /** How processIntent ends: with an outcome, or by throwing. */
  datatype PollOutcome = CreditedNow | FailedNow | Parked | Pending | Skipped | Threw

  datatype PollResult = PollResult(credited: nat, failed: nat, parked: nat, pending: nat, polled: nat, skipped: nat)

  function Counted(r: PollResult, outcome: PollOutcome): PollResult {
    match outcome
    case CreditedNow => r.(credited := r.credited + 1)
    case FailedNow => r.(failed := r.failed + 1)
    case Parked => r.(parked := r.parked + 1)
    case Pending => r.(pending := r.pending + 1)
    case Skipped => r.(skipped := r.skipped + 1)
    case Threw => r
  }

  /** One more intent polled. */
  function CountedOne(r: PollResult, outcome: PollOutcome): PollResult {
    Counted(r.(polled := r.polled + 1), outcome)
  }

  function Tally(outcomes: seq<PollOutcome>): PollResult {
    if outcomes == [] then PollResult(0, 0, 0, 0, 0, 0)
    else
      CountedOne(Tally(outcomes[..|outcomes| - 1]), outcomes[|outcomes| - 1])
  }

  lemma TallySnoc(outcomes: seq<PollOutcome>, outcome: PollOutcome)
    ensures Tally(outcomes + [outcome]) == CountedOne(Tally(outcomes), outcome)
  {
    assert (outcomes + [outcome])[..|outcomes|] == outcomes;
  }

  /** The counters add up to the intents polled, a poll that throws being one of them. */
  lemma {:induction false} TallyAdds(outcomes: seq<PollOutcome>)
    requires forall k :: 0 <= k < |outcomes| - 1 ==> outcomes[k] != Threw
    ensures var r := Tally(outcomes);
            r.polled == |outcomes|
            && r.polled == r.credited + r.failed + r.parked + r.pending + r.skipped
                           + (if outcomes != [] && outcomes[|outcomes| - 1] == Threw then 1 else 0)
  {
    if outcomes != [] {
      TallyAdds(outcomes[..|outcomes| - 1]);
    }
  }

  /** How many of the intents have a status. */
  function CountStatus(intents: Store, ids: seq<nat>, status: Status): nat {
    if ids == [] then 0
    else
      var id := ids[|ids| - 1];
      CountStatus(intents, ids[..|ids| - 1], status) + if id in intents && intents[id].status == status then 1 else 0
  }

  lemma {:induction false} CountKept(a: Store, b: Store, ids: seq<nat>, status: Status)
    requires forall k :: 0 <= k < |ids| && ids[k] in a ==> ids[k] in b && b[ids[k]] == a[ids[k]]
    requires forall k :: 0 <= k < |ids| ==> ids[k] in a
    ensures CountStatus(a, ids, status) == CountStatus(b, ids, status)
  {
    if ids != [] {
      CountKept(a, b, ids[..|ids| - 1], status);
    }
  }

  /** Polling one more intent adds that intent to the count of its new status. */
  lemma CountStep(before: Store, after: Store, ids: seq<nat>, i: nat, status: Status)
    requires i < |ids| && Distinct(ids)
    requires forall k :: 0 <= k < |ids| ==> ids[k] in before
    requires ids[i] in after && after == before[ids[i] := after[ids[i]]]
    ensures CountStatus(after, ids[..i + 1], status)
            == CountStatus(before, ids[..i], status) + if after[ids[i]].status == status then 1 else 0
  {
    CountKept(before, after, ids[..i], status);
    assert ids[..i + 1][..i] == ids[..i];
  }

  /** What an outcome says of the stored row. */
  predicate OutcomeHolds(outcome: PollOutcome, row: Intent) {
    match outcome
    case CreditedNow => row.status == Credited
    case FailedNow => row.status == Failed
    case Parked => row.status == NeedsOnboarding
    case Pending => !IsTerminal(row.status)
    case Skipped => row.status == Attested
    case Threw => !IsTerminal(row.status)
  }

  lemma ReadingIsGenuine(cfg: Config, row: Intent, answer: Option<seq<IrisMessage>>)
    requires GenuineAnswer(cfg, row, answer)
    ensures Reading(row, answer).Whole? ==> Genuine(cfg, row, Reading(row, answer).m)
  {
    if answer.Some? {
      FirstAboutIs(row, answer.value);
    }
  }

  /** How settling an attested intent ends, by the relayer, by whether the nonce was used, and by the credit's commit. */
  predicate SettledSays(relay: Relay, commits: bool, used: bool, outcome: PollOutcome) {
    && outcome in {CreditedNow, Parked, Skipped, Threw}
    && (outcome == CreditedNow <==> commits && (relay.Submits? || (relay.SubmitsUnseen? && used)))
    && (outcome == Parked <==> relay.NoRecipient?)
    && (outcome == Skipped <==> relay.NoRelayer?)
  }

  /** The message's domains and recipient are the intent's and the router's. */
  predicate Passes(cfg: Config, row: Intent, m: Message) {
    m.sourceDomain == row.sourceDomain && m.destDomain == cfg.destDomain && m.mintRecipient == cfg.router
  }

  predicate Used(iris: Iris, consumed: set<nat>) {
    iris.Whole? && iris.m.nonce in consumed
  }

  /** How a poll ends, by what Iris, the key registry and the relayer answer. */
  predicate PollSays(cfg: Config, row: Intent, iris: Iris, world: World, used: bool, outcome: PollOutcome) {
    match iris
    case NoneYet => outcome == Pending
    case Partial(_) => outcome == Pending
    case IrisFails => outcome == Threw
    case Whole(m) =>
      if !Passes(cfg, row, m) then outcome == FailedNow
      else
        match world.registration
        case None => outcome == Threw
        case Some(registration) =>
          match registration
          case Unregistered => outcome == Parked
          case OtherKey => outcome == FailedNow
          case SameKey => SettledSays(world.relay, world.commits, used, outcome)
  }

  function SettleHash(row: Intent, relay: Relay, used: bool, outcome: PollOutcome): Option<nat> {
    if outcome == CreditedNow && relay.Submits? && !used then Some(relay.txHash) else row.settleTxHash
  }

  /** What a poll stores of the intent; OutcomeHolds says its status. */
  predicate StoredSays(cfg: Config, row: Intent, iris: Iris, world: World, used: bool, outcome: PollOutcome, after: Intent) {
    match iris
    case NoneYet => after == row
    case IrisFails => after == row
    case Partial(eventNonce) =>
      after == row.(nonce := if eventNonce.Some? then eventNonce else row.nonce,
                    status := if row.status == Initiated then Burned else row.status)
    case Whole(m) =>
      if !Passes(cfg, row, m) then after == row.(status := Failed)
      else
        after == row.(amount := Some(m.minted), nonce := Some(m.nonce), userId := m.userId, status := after.status,
                      settleTxHash := SettleHash(row, world.relay, used, outcome))
  }

  /** A credit adds the ledger row of a mirrored funding, unless it is there; nothing else changes the ledger. */
  predicate LedgerSays(cfg: Config, id: nat, before: map<LedgerKey, LedgerRow>, after: map<LedgerKey, LedgerRow>, row: Intent) {
    if row.status == Credited && row.orgId.Some? && row.amount.Some? && row.destToken in cfg.tokens then
      var key := LedgerKey(row.orgId.value, id);
      && key in after && (key in before ==> after == before)
      && (key !in before ==> after == before[key := LedgerRow(row.amount.value, row.destToken, row.settleTxHash)])
    else after == before
  }

  function Alone(next: Option<Poller>): map<nat, Poller> {
    if next.Some? then map[0 := next.value] else map[]
  }

  /** The tables after a write, as the tables before it determine them. */
  function WriteEffect(cfg: Config, intents: Store, ledger: map<LedgerKey, LedgerRow>, w: Poller): Effect
    requires HasWrite(w)
  {
    EffectOf(cfg, State(intents, ledger, {}, map[]), w)
  }

  lemma SameEffect(cfg: Config, st: State, w: Poller)
    requires HasWrite(w)
    ensures WriteEffect(cfg, st.intents, st.ledger, w) == EffectOf(cfg, st, w)
  {
  }

  lemma WriteIsStep(cfg: Config, st: State, w: Poller, e: Effect)
    requires st.pollers == map[0 := w] && HasWrite(w) && e == EffectOf(cfg, st, w)
    ensures Enabled(cfg, st, DbStep(0))
    ensures Apply(cfg, st, DbStep(0)) == State(e.intents, e.ledger, st.consumed, Alone(e.next))
  {
    assert e.next.None? ==> st.pollers - {0} == map[];
  }

  lemma OnlyView(cfg: Config, st: State, w: Poller)
    requires Inv(cfg, st) && st.pollers == map[0 := w]
    ensures OwnView(cfg, st, w)
  {
    assert st.pollers[0] == w;
  }

  lemma WriteIsDone(cfg: Config, st: State, w: Poller)
    requires Inv(cfg, st) && st.pollers == map[0 := w] && HasWrite(w)
    ensures OwnDone(cfg, st, w, EffectOf(cfg, st, w))
  {
    OnlyView(cfg, st, w);
    OwnEffect(cfg, st, w);
  }

  /** What the poller does after Iris has answered. */
  function Heard(cfg: Config, w: Poller, iris: Iris): Option<Poller> {
    match iris
    case NoneYet => None
    case Partial(eventNonce) => Some(MarkingBurned(w.id, w.row, eventNonce))
    case Whole(m) => Some(AfterComplete(cfg, w, m))
    case IrisFails => None
  }

  function HearStep(iris: Iris): Step {
    match iris
    case NoneYet => NoMessage(0)
    case Partial(eventNonce) => Incomplete(0, eventNonce)
    case Whole(m) => Complete(0, m)
    case IrisFails => Crash(0)
  }

  lemma HearIsStep(cfg: Config, st: State, w: Poller, iris: Iris)
    requires st.pollers == map[0 := w] && w.Polled? && !FastPath(w.row) && (iris.Whole? ==> Genuine(cfg, w.row, iris.m))
    ensures Enabled(cfg, st, HearStep(iris))
    ensures Apply(cfg, st, HearStep(iris)) == st.(pollers := Alone(Heard(cfg, w, iris)))
  {
    assert st.pollers - {0} == map[];
  }

  /** Steps taken one after the other from a state that keeps the invariant, by a poller with its intents to itself. */
  ghost function Play(cfg: Config, st: State, steps: seq<Step>): Option<State> {
    if steps == [] then if Inv(cfg, st) then Some(st) else None
    else
      var before := Play(cfg, st, steps[..|steps| - 1]);
      var step := steps[|steps| - 1];
      if before.None? || !Enabled(cfg, before.value, step) || !Exclusive(Apply(cfg, before.value, step)) then None
      else Some(Apply(cfg, before.value, step))
  }

  lemma PlayOne(cfg: Config, st: State, steps: seq<Step>, step: Step)
    requires Play(cfg, st, steps).Some? && Enabled(cfg, Play(cfg, st, steps).value, step)
    requires Exclusive(Apply(cfg, Play(cfg, st, steps).value, step))
    ensures Play(cfg, st, steps + [step]) == Some(Apply(cfg, Play(cfg, st, steps).value, step))
  {
    assert (steps + [step])[..|steps|] == steps;
  }

  lemma {:induction false} PlayKeepsInv(cfg: Config, st: State, steps: seq<Step>)
    requires Play(cfg, st, steps).Some?
    ensures Inv(cfg, Play(cfg, st, steps).value)
  {
    if steps != [] {
      PlayKeepsInv(cfg, st, steps[..|steps| - 1]);
      StepKeepsInv(cfg, Play(cfg, st, steps[..|steps| - 1]).value, steps[|steps| - 1]);
    }
  }

  /** A write of the only poller does what its view of the intent promises. */
  lemma PlayedWrite(cfg: Config, first: State, steps: seq<Step>, w: Poller)
    requires var st := Play(cfg, first, steps); st.Some? && st.value.pollers == map[0 := w] && HasWrite(w)
    ensures var st := Play(cfg, first, steps).value; OwnDone(cfg, st, w, EffectOf(cfg, st, w))
  {
    PlayKeepsInv(cfg, first, steps);
    WriteIsDone(cfg, Play(cfg, first, steps).value, w);
  }

  lemma SettleIsStep(cfg: Config, st: State, w: Poller, relay: Relay)
    requires w.Settling? && st.pollers == map[0 := w]
    ensures var outcome := OutcomeOf(relay, st.consumed, w.m.nonce);
            && Enabled(cfg, st, Settle(0, outcome))
            && Apply(cfg, st, Settle(0, outcome))
               == State(st.intents, st.ledger,
                        if outcome.Settled? || outcome.SettledUnseen? then st.consumed + {w.m.nonce} else st.consumed,
                        Alone(AfterSettle(w, outcome)))
  {
  }

  /** A row with what the attested message says of it. */
  function WithAttestation(row: Intent, m: Message, status: Status): Intent {
    row.(amount := Some(m.minted), nonce := Some(m.nonce), status := status)
  }

  lemma AdvanceEffect(cfg: Config, intents: Store, ledger: map<LedgerKey, LedgerRow>, id: nat, row: Intent, m: Message)
    requires id in intents && intents[id] == row && !IsTerminal(row.status) && row.status != Minted
    ensures var next := WithAttestation(row, m, if row.status == Initiated then Burned else Attested);
            WriteEffect(cfg, intents, ledger, Advancing(id, row, m))
            == Effect(intents[id := next], ledger,
                      Some(if row.status == Initiated then Advancing(id, next, m) else Settling(id, next, m)))
  {
  }

  lemma OwnRow(cfg: Config, st: State, w: Poller)
    requires Inv(cfg, st) && st.pollers == map[0 := w]
    ensures w.id in st.intents && st.intents[w.id] == w.row && RowOk(w.row) && PollerOk(cfg, st.consumed, w)
  {
    assert st.pollers[0] == w;
  }

  class PollJob {
    const cfg: Config
    var intents: Store
    var ledger: map<LedgerKey, LedgerRow>
    var consumed: set<nat>
    ghost var pollers: map<nat, Poller>
    ghost const first: State
    ghost var trace: seq<Step>

    constructor (cfg: Config, st: State)
      requires Inv(cfg, st) && st.pollers == map[]
      ensures Valid() && this.cfg == cfg && first == st && Now() == st && trace == []
    {
      this.cfg, first := cfg, st;
      intents, ledger, consumed, pollers, trace := st.intents, st.ledger, st.consumed, st.pollers, [];
    }

    ghost function Now(): State
      reads this
    {
      State(intents, ledger, consumed, pollers)
    }

    /** The tables are where the recorded steps lead. */
    ghost predicate Valid()
      reads this
    {
      Play(cfg, first, trace) == Some(Now())
    }

    /** The job works on one intent, at this await. */
    ghost predicate At(w: Poller)
      reads this
    {
      pollers == map[0 := w]
    }

    ghost method Record(before: State, step: Step)
      requires Play(cfg, first, trace) == Some(before) && Enabled(cfg, before, step) && Now() == Apply(cfg, before, step)
      requires Exclusive(Now())
      modifies this`trace
      ensures Valid() && trace == old(trace) + [step]
    {
      PlayOne(cfg, first, trace, step);
      trace := trace + [step];
    }

    /** An answer that writes nothing moves the job on. */
    ghost method Move(step: Step, next: Option<Poller>)
      requires Valid() && Enabled(cfg, Now(), step) && pollers.Keys <= {0}
      requires Apply(cfg, Now(), step) == Now().(pollers := Alone(next))
      modifies this`trace, this`pollers
      ensures Valid() && pollers == Alone(next)
      ensures trace == old(trace) + [step]
    {
      ghost var before := Now();
      pollers := Alone(next);
      Record(before, step);
    }

    /** One write or transaction of the poller. */
    method Write(w: Poller)
      requires Valid() && At(w) && HasWrite(w)
      modifies this
      ensures Valid() && consumed == old(consumed) && trace == old(trace) + [DbStep(0)]
      ensures var e := WriteEffect(cfg, old(intents), old(ledger), w);
              intents == e.intents && ledger == e.ledger && pollers == Alone(e.next)
              && OwnDone(cfg, old(Now()), w, e)
    {
      ghost var before := Now();
      var e := WriteEffect(cfg, intents, ledger, w);
      SameEffect(cfg, before, w);
      PlayedWrite(cfg, first, trace, w);
      WriteIsStep(cfg, before, w, e);
      intents, ledger := e.intents, e.ledger;
      pollers := Alone(e.next);
      Record(before, DbStep(0));
    }

    method FailIntent(id: nat, row: Intent)
      requires Valid() && At(FailingIntent(id, row))
      modifies this
      ensures consumed == old(consumed)
      ensures Valid() && pollers == map[]
      ensures intents == old(intents)[id := row.(status := Failed)] && ledger == old(ledger)
    {
      PlayKeepsInv(cfg, first, trace);
      OwnRow(cfg, Now(), FailingIntent(id, row));
      Write(FailingIntent(id, row));
    }

    method MarkBurned(id: nat, row: Intent, eventNonce: Option<nat>)
      requires Valid() && At(MarkingBurned(id, row, eventNonce))
      modifies this
      ensures consumed == old(consumed)
      ensures Valid() && pollers == map[]
      ensures intents == old(intents)[id := row.(nonce := if eventNonce.Some? then eventNonce else row.nonce,
                                                 status := if row.status == Initiated then Burned else row.status)]
      ensures ledger == old(ledger)
    {
      PlayKeepsInv(cfg, first, trace);
      OwnRow(cfg, Now(), MarkingBurned(id, row, eventNonce));
      Write(MarkingBurned(id, row, eventNonce));
    }

    method ParkNeedsOnboarding(id: nat, row: Intent, m: Message)
      requires Valid() && At(Parking(id, row, m))
      modifies this
      ensures consumed == old(consumed)
      ensures Valid() && pollers == map[] && ledger == old(ledger)
      ensures intents == old(intents)[id := WithAttestation(row, m, NeedsOnboarding)]
    {
      PlayKeepsInv(cfg, first, trace);
      OwnRow(cfg, Now(), Parking(id, row, m));
      Write(Parking(id, row, m));
    }

    method ReassociateIntent(id: nat, row: Intent, m: Message) returns (reassociated: Intent)
      requires Valid() && At(Reassociating(id, row, m))
      modifies this
      ensures consumed == old(consumed)
      ensures Valid() && At(CheckingKey(id, reassociated, m))
      ensures intents == old(intents)[id := reassociated] && ledger == old(ledger)
      ensures reassociated == WithAttestation(row, m, row.status).(userId := m.userId)
    {
      PlayKeepsInv(cfg, first, trace);
      OwnRow(cfg, Now(), Reassociating(id, row, m));
      Write(Reassociating(id, row, m));
      reassociated := intents[id];
    }

    method AdvanceOnce(id: nat, row: Intent, m: Message) returns (next: Intent)
      requires Valid() && At(Advancing(id, row, m))
      modifies this
      ensures consumed == old(consumed)
      ensures Valid() && intents == old(intents)[id := next] && ledger == old(ledger)
      ensures next == WithAttestation(row, m, if row.status == Initiated then Burned else Attested)
      ensures At(if row.status == Initiated then Advancing(id, next, m) else Settling(id, next, m))
    {
      PlayKeepsInv(cfg, first, trace);
      OwnRow(cfg, Now(), Advancing(id, row, m));
      AdvanceEffect(cfg, intents, ledger, id, row, m);
      Write(Advancing(id, row, m));
      next := intents[id];
    }

    /** Whatever status was polled, the intent ends attested. */
    method AdvanceToAttested(id: nat, row: Intent, m: Message) returns (attested: Intent)
      requires Valid() && At(Advancing(id, row, m))
      modifies this
      ensures consumed == old(consumed)
      ensures Valid() && At(Settling(id, attested, m)) && ledger == old(ledger)
      ensures attested == WithAttestation(row, m, Attested) && intents == old(intents)[id := attested]
    {
      attested := AdvanceOnce(id, row, m);
      if row.status == Initiated {
        attested := AdvanceOnce(id, attested, m);
      }
    }

    method CreditIntent(id: nat, row: Intent, m: Message, txHash: Option<nat>)
      requires Valid() && At(Crediting(id, row, m, txHash))
      modifies this
      ensures consumed == old(consumed)
      ensures Valid() && pollers == map[]
      ensures var credited := row.(status := Credited,
                                   settleTxHash := if txHash.Some? then txHash else row.settleTxHash);
              intents == old(intents)[id := credited] && ledger == FinalizeTreasuryFunding(cfg, old(ledger), id, credited)
    {
      ghost var w := Crediting(id, row, m, txHash);
      PlayKeepsInv(cfg, first, trace);
      OwnRow(cfg, Now(), w);
      OwnCredit(cfg, Now(), w);
      SameEffect(cfg, Now(), w);
      Write(Crediting(id, row, m, txHash));
    }

    /** The relayer's answer, with the nonce consumed when its transaction went through. */
    method SettleDeposit(id: nat, row: Intent, m: Message, relay: Relay) returns (outcome: Outcome)
      requires Valid() && At(Settling(id, row, m))
      modifies this
      ensures Valid() && intents == old(intents) && ledger == old(ledger)
      ensures outcome == OutcomeOf(relay, old(consumed), m.nonce)
      ensures m.nonce in old(consumed) && (relay.Submits? || relay.SubmitsUnseen?) ==> outcome == AlreadySettled
      ensures m.nonce !in old(consumed) && relay.Submits? ==> outcome == Settled(relay.txHash)
      ensures m.nonce !in old(consumed) && relay.SubmitsUnseen? ==> outcome == SettledUnseen
      ensures (relay.NoRecipient? <==> outcome == NotRegistered) && (relay.NoRelayer? <==> outcome == Unavailable)
      ensures relay.Breaks? <==> outcome == Broken
      ensures consumed == if relay.Submits? || relay.SubmitsUnseen? then old(consumed) + {m.nonce} else old(consumed)
      ensures pollers == Alone(AfterSettle(Settling(id, row, m), outcome))
    {
      outcome := OutcomeOf(relay, consumed, m.nonce);
      ghost var before := Now();
      SettleIsStep(cfg, before, Settling(id, row, m), relay);
      if outcome.Settled? || outcome.SettledUnseen? {
        consumed := consumed + {m.nonce};
      }
      assert m.nonce in consumed ==> consumed + {m.nonce} == consumed;
      pollers := Alone(AfterSettle(Settling(id, row, m), outcome));
      Record(before, Settle(0, outcome));
    }

    ghost method NotTerminal(w: Poller)
      requires Valid() && At(w)
      ensures w.id in intents && intents[w.id] == w.row && RowOk(w.row) && PollerOk(cfg, consumed, w)
    {
      PlayKeepsInv(cfg, first, trace);
      OwnRow(cfg, Now(), w);
    }

    /** The poll throws: nothing is written, and the intent stays for the next poll. */
    ghost method Abandon(w: Poller)
      requires Valid() && At(w)
      modifies this`trace, this`pollers
      ensures Valid() && pollers == map[]
    {
      assert pollers - {0} == map[];
      Move(Crash(0), None);
    }

    /** The credit transaction after a settlement; when it is rolled back the intent stays attested. */
    method TryCredit(id: nat, row: Intent, m: Message, txHash: Option<nat>, commits: bool) returns (outcome: PollOutcome)
      requires Valid() && At(Crediting(id, row, m, txHash)) && row.status == Attested && id in intents && intents[id] == row
      modifies this
      ensures Valid() && pollers == map[] && id in intents && intents == old(intents)[id := intents[id]]
      ensures outcome == if commits then CreditedNow else Threw
      ensures intents[id] == if commits then row.(status := Credited,
                                                  settleTxHash := if txHash.Some? then txHash else row.settleTxHash)
                             else row
      ensures LedgerSays(cfg, id, old(ledger), ledger, intents[id]) && consumed == old(consumed)
    {
      if !commits {
        Abandon(Crediting(id, row, m, txHash));
        return Threw;
      }
      CreditIntent(id, row, m, txHash);
      outcome := CreditedNow;
    }

    method SettleAndCredit(id: nat, row: Intent, m: Message, relay: Relay, commits: bool) returns (outcome: PollOutcome)
      requires Valid() && At(Settling(id, row, m)) && row.status == Attested && id in intents && intents[id] == row
      requires row == WithAttestation(row, m, Attested)
      modifies this
      ensures Valid() && pollers == map[] && id in intents && intents == old(intents)[id := intents[id]]
      ensures OutcomeHolds(outcome, intents[id]) && (outcome == Threw ==> intents[id].status == Attested)
      ensures SettledSays(relay, commits, m.nonce in old(consumed), outcome)
      ensures intents[id] == row.(status := intents[id].status,
                                  settleTxHash := SettleHash(row, relay, m.nonce in old(consumed), outcome))
      ensures LedgerSays(cfg, id, old(ledger), ledger, intents[id])
      ensures consumed == old(consumed) || consumed == old(consumed) + {m.nonce}
    {
      var settle := SettleDeposit(id, row, m, relay);
      match settle
      case Settled(txHash) => outcome := TryCredit(id, row, m, Some(txHash), commits);
      case AlreadySettled => outcome := TryCredit(id, row, m, None, commits);
      case NotRegistered => ParkNeedsOnboarding(id, row, m); outcome := Parked;
      case Unavailable => outcome := Skipped;
      case SettledUnseen => outcome := Threw;
      case Broken => outcome := Threw;
    }

    ghost method LookUp(id: nat, row: Intent, m: Message, registration: Registration)
      requires Valid() && At(CheckingKey(id, row, m))
      modifies this`trace, this`pollers
      ensures Valid() && At(AfterLookup(CheckingKey(id, row, m), registration))
    {
      Move(LookUpKey(0, registration), Some(AfterLookup(CheckingKey(id, row, m), registration)));
    }

    method ActOnKey(id: nat, row: Intent, m: Message, world: World) returns (outcome: PollOutcome)
      requires Valid() && At(CheckingKey(id, row, m)) && id in intents && intents[id] == row && Passes(cfg, row, m)
      requires row == WithAttestation(row, m, row.status).(userId := m.userId) && row.status != Credited
      modifies this
      ensures Valid() && pollers == map[] && id in intents && intents == old(intents)[id := intents[id]]
      ensures OutcomeHolds(outcome, intents[id]) && (outcome == Threw ==> intents[id].status in {Attested, row.status})
      ensures PollSays(cfg, row, Whole(m), world, m.nonce in old(consumed), outcome)
      ensures StoredSays(cfg, row, Whole(m), world, m.nonce in old(consumed), outcome, intents[id])
      ensures LedgerSays(cfg, id, old(ledger), ledger, intents[id])
      ensures consumed == old(consumed) || consumed == old(consumed) + {m.nonce}
    {
      if world.registration.None? {
        NotTerminal(CheckingKey(id, row, m));
        Abandon(CheckingKey(id, row, m));
        return Threw;
      }
      LookUp(id, row, m, world.registration.value);
      match world.registration.value
      case Unregistered => ParkNeedsOnboarding(id, row, m); outcome := Parked;
      case OtherKey => FailIntent(id, row); outcome := FailedNow;
      case SameKey => outcome := AdvanceAndSettle(id, row, m, world);
    }

    method AdvanceAndSettle(id: nat, row: Intent, m: Message, world: World) returns (outcome: PollOutcome)
      requires Valid() && At(Advancing(id, row, m)) && id in intents
      modifies this
      ensures Valid() && pollers == map[] && id in intents && intents == old(intents)[id := intents[id]]
      ensures OutcomeHolds(outcome, intents[id]) && (outcome == Threw ==> intents[id].status == Attested)
      ensures SettledSays(world.relay, world.commits, m.nonce in old(consumed), outcome)
      ensures intents[id] == WithAttestation(row, m, intents[id].status)
                             .(settleTxHash := SettleHash(row, world.relay, m.nonce in old(consumed), outcome))
      ensures LedgerSays(cfg, id, old(ledger), ledger, intents[id])
      ensures consumed == old(consumed) || consumed == old(consumed) + {m.nonce}
    {
      var attested := AdvanceToAttested(id, row, m);
      outcome := SettleAndCredit(id, attested, m, world.relay, world.commits);
    }

    method ProcessMessage(id: nat, row: Intent, m: Message, world: World) returns (outcome: PollOutcome)
      requires Valid() && At(Reassociating(id, row, m)) && id in intents && intents[id] == row && Passes(cfg, row, m)
      requires row.status != Credited
      modifies this
      ensures Valid() && pollers == map[] && id in intents && intents == old(intents)[id := intents[id]]
      ensures OutcomeHolds(outcome, intents[id]) && (outcome == Threw ==> intents[id].status in {Attested, row.status})
      ensures PollSays(cfg, row, Whole(m), world, m.nonce in old(consumed), outcome)
      ensures StoredSays(cfg, row, Whole(m), world, m.nonce in old(consumed), outcome, intents[id])
      ensures LedgerSays(cfg, id, old(ledger), ledger, intents[id])
      ensures consumed == old(consumed) || consumed == old(consumed) + {m.nonce}
    {
      var reassociated := ReassociateIntent(id, row, m);
      outcome := ActOnKey(id, reassociated, m, world);
    }

    ghost method Ask(id: nat, row: Intent)
      requires Valid() && pollers == map[] && id in intents && intents[id] == row && !IsTerminal(row.status)
      modifies this`trace, this`pollers
      ensures Valid() && At(Polled(id, row)) && row.status != Minted
    {
      Move(Begin(0, id), Some(Polled(id, row)));
      PlayKeepsInv(cfg, first, trace);
      OwnRow(cfg, Now(), Polled(id, row));
    }

    /** What Iris answers decides the next await. */
    ghost method Hear(id: nat, row: Intent, iris: Iris)
      requires Valid() && At(Polled(id, row)) && row.status != Minted
      requires iris.Whole? ==> Genuine(cfg, row, iris.m)
      modifies this`trace, this`pollers
      ensures Valid() && pollers == Alone(Heard(cfg, Polled(id, row), iris))
    {
      HearIsStep(cfg, Now(), Polled(id, row), iris);
      Move(HearStep(iris), Heard(cfg, Polled(id, row), iris));
    }

    /**
     One intent polled with nothing in between: what the outcome says is true of the stored row. A poll that throws
     leaves the intent attested or in the status it had, so that the next poll takes it up.
     */
    method ProcessIntent(id: nat, world: World) returns (outcome: PollOutcome)
      requires Valid() && pollers == map[] && id in intents && !IsTerminal(intents[id].status)
      requires GenuineAnswer(cfg, intents[id], world.answer)
      modifies this
      ensures Valid() && pollers == map[] && id in intents && intents == old(intents)[id := intents[id]]
      ensures OutcomeHolds(outcome, intents[id])
      ensures outcome == Threw ==> intents[id].status in {Attested, old(intents)[id].status}
      ensures var row := old(intents)[id];
              var iris := Reading(row, world.answer);
              && PollSays(cfg, row, iris, world, Used(iris, old(consumed)), outcome)
              && StoredSays(cfg, row, iris, world, Used(iris, old(consumed)), outcome, intents[id])
              && LedgerSays(cfg, id, old(ledger), ledger, intents[id])
              && (consumed == old(consumed) || (iris.Whole? && consumed == old(consumed) + {iris.m.nonce}))
    {
      var row := intents[id];
      Ask(id, row);
      var iris := Reading(row, world.answer);
      ReadingIsGenuine(cfg, row, world.answer);
      Hear(id, row, iris);
      match iris
      case NoneYet => outcome := Pending;
      case Partial(eventNonce) =>
        MarkBurned(id, row, eventNonce);
        outcome := Pending;
      case Whole(m) =>
        if m.sourceDomain != row.sourceDomain || m.destDomain != cfg.destDomain || m.mintRecipient != cfg.router {
          FailIntent(id, row);
          outcome := FailedNow;
        } else {
          outcome := ProcessMessage(id, row, m, world);
        }
      case IrisFails => outcome := Threw;
    }

    method PollOne(ids: seq<nat>, ghost outcomes: seq<PollOutcome>, i: nat, world: World, result: PollResult)
      returns (outcome: PollOutcome, counted: PollResult)
      requires Valid() && pollers == map[] && i == |outcomes| < |ids| && CountsTrue(intents, ids, outcomes, result)
      requires Distinct(ids) && (forall k :: 0 <= k < |ids| ==> ids[k] in intents)
      requires !IsTerminal(intents[ids[i]].status)
      requires GenuineAnswer(cfg, intents[ids[i]], world.answer)
      modifies this
      ensures Valid() && pollers == map[] && CountsTrue(intents, ids, outcomes + [outcome], counted)
      ensures ids[i] in intents && intents == old(intents)[ids[i] := intents[ids[i]]]
      ensures var row := old(intents)[ids[i]];
              var iris := Reading(row, world.answer);
              && PollSays(cfg, row, iris, world, Used(iris, old(consumed)), outcome)
              && (consumed == old(consumed) || (iris.Whole? && consumed == old(consumed) + {iris.m.nonce}))
    {
      ghost var before := intents;
      outcome := ProcessIntent(ids[i], world);
      counted := CountedOne(result, outcome);
      CountsTrueStep(before, intents, ids, outcomes, outcome, result);
    }

    /**
     The loop over the polled intents, which a throw ends. Every outcome is true of its stored intent, the counters
     count the outcomes, and credited and failed count exactly the intents that now have those statuses. Each outcome is
     the one that the answers for its intent and the nonces used before the loop call for: no poll disturbs another.
     */
    method PollOnrampIntents(ids: seq<nat>, worlds: seq<World>)
      returns (result: PollResult, threw: bool, ghost outcomes: seq<PollOutcome>)
      requires Valid() && pollers == map[] && |worlds| == |ids| && Distinct(ids)
      requires forall k :: 0 <= k < |ids| ==> ids[k] in intents && !IsTerminal(intents[ids[k]].status)
      requires forall k :: 0 <= k < |ids| ==> GenuineAnswer(cfg, intents[ids[k]], worlds[k].answer)
      modifies this
      ensures Valid() && pollers == map[] && |outcomes| <= |ids| && CountsTrue(intents, ids, outcomes, result)
      ensures Untouched(old(intents), intents, ids, |outcomes|)
      ensures ThrowsOnlyLast(outcomes, threw) && (!threw ==> |outcomes| == |ids|)
      ensures forall k :: 0 <= k < |outcomes| ==> PolledAs(cfg, old(intents)[ids[k]], worlds[k], old(consumed), outcomes[k])
      ensures result.polled == result.credited + result.failed + result.parked + result.pending + result.skipped
                               + (if threw then 1 else 0)
      ensures result.credited == CountStatus(intents, ids, Credited)
      ensures result.failed == CountStatus(intents, ids, Failed)
    {
      result, threw, outcomes := PollResult(0, 0, 0, 0, 0, 0), false, [];
      BurnsAreUnique(cfg, first, trace);
      var i := 0;
      while i < |ids| && !threw
        invariant 0 <= i == |outcomes| <= |ids| && Valid() && pollers == map[]
        invariant CountsTrue(intents, ids, outcomes, result) && Untouched(old(intents), intents, ids, i)
        invariant ThrowsOnlyLast(outcomes, threw)
        invariant NewNonces(cfg, old(intents), ids, i, old(consumed), consumed)
        invariant forall k :: 0 <= k < i ==> PolledAs(cfg, old(intents)[ids[k]], worlds[k], old(consumed), outcomes[k])
      {
        ghost var before, earlier, used := intents, outcomes, consumed;
        assert intents[ids[i]] == old(intents)[ids[i]];
        var outcome: PollOutcome;
        outcome, result := PollOne(ids, outcomes, i, worlds[i], result);
        outcomes := outcomes + [outcome];
        threw := outcome == Threw;
        ReadingIsGenuine(cfg, old(intents)[ids[i]], worlds[i].answer);
        OwnNonce(cfg, old(intents), ids, i, old(consumed), used, Reading(old(intents)[ids[i]], worlds[i].answer));
        NewNoncesStep(cfg, old(intents), ids, i, old(consumed), used, consumed, Reading(old(intents)[ids[i]], worlds[i].answer));
        UntouchedStep(old(intents), before, intents, ids, i);
        ThrowsOnlyLastStep(earlier, outcome);
        i := i + 1;
      }
      PollSums(old(intents), intents, ids, outcomes, threw);
    }
  }

  predicate PolledAs(cfg: Config, row: Intent, world: World, consumed: set<nat>, outcome: PollOutcome) {
    var iris := Reading(row, world.answer);
    PollSays(cfg, row, iris, world, Used(iris, consumed), outcome)
  }

  lemma BurnsAreUnique(cfg: Config, st: State, steps: seq<Step>)
    requires Play(cfg, st, steps).Some?
    ensures UniqueBurns(Play(cfg, st, steps).value.intents)
  {
    PlayKeepsInv(cfg, st, steps);
  }

  /** The nonces used since are of the burns of the intents polled since. */
  ghost predicate NewNonces(cfg: Config, intents: Store, ids: seq<nat>, i: nat, before: set<nat>, after: set<nat>)
    requires i <= |ids|
  {
    && before <= after
    && forall n :: n in after && n !in before ==>
         exists k :: 0 <= k < i && ids[k] in intents && intents[ids[k]].sourceTxHash == cfg.burnOf(n)
  }

  /** A nonce of an intent's own burn was used before the loop or not at all: other polls use nonces of other burns. */
  lemma OwnNonce(cfg: Config, intents: Store, ids: seq<nat>, i: nat, before: set<nat>, now: set<nat>, iris: Iris)
    requires i < |ids| && Distinct(ids) && ids[i] in intents && UniqueBurns(intents)
    requires NewNonces(cfg, intents, ids, i, before, now)
    requires iris.Whole? ==> Genuine(cfg, intents[ids[i]], iris.m)
    ensures Used(iris, now) <==> Used(iris, before)
  {
    forall k | 0 <= k < i && ids[k] in intents ensures intents[ids[k]].sourceTxHash != intents[ids[i]].sourceTxHash {
      assert ids[k] != ids[i];
    }
  }

  lemma NewNoncesStep(cfg: Config, intents: Store, ids: seq<nat>, i: nat, before: set<nat>, now: set<nat>, after: set<nat>,
                      iris: Iris)
    requires i < |ids| && ids[i] in intents && NewNonces(cfg, intents, ids, i, before, now)
    requires iris.Whole? ==> Genuine(cfg, intents[ids[i]], iris.m)
    requires after == now || (iris.Whole? && after == now + {iris.m.nonce})
    ensures NewNonces(cfg, intents, ids, i + 1, before, after)
  {
    forall n | n in after && n !in before
      ensures exists k :: 0 <= k < i + 1 && ids[k] in intents && intents[ids[k]].sourceTxHash == cfg.burnOf(n)
    {
      if n in now {
        var k :| 0 <= k < i && ids[k] in intents && intents[ids[k]].sourceTxHash == cfg.burnOf(n);
      } else {
        assert intents[ids[i]].sourceTxHash == cfg.burnOf(n);
      }
    }
  }

  predicate Distinct(ids: seq<nat>) {
    forall a, b :: 0 <= a < b < |ids| ==> ids[a] != ids[b]
  }

  predicate OutcomesHold(intents: Store, ids: seq<nat>, outcomes: seq<PollOutcome>)
    requires |outcomes| <= |ids|
  {
    forall k :: 0 <= k < |outcomes| ==> ids[k] in intents && OutcomeHolds(outcomes[k], intents[ids[k]])
  }

  lemma OutcomesHoldStep(before: Store, after: Store, ids: seq<nat>, outcomes: seq<PollOutcome>, outcome: PollOutcome)
    requires |outcomes| < |ids| && Distinct(ids) && OutcomesHold(before, ids, outcomes)
    requires ids[|outcomes|] in after && after == before[ids[|outcomes|] := after[ids[|outcomes|]]]
    requires OutcomeHolds(outcome, after[ids[|outcomes|]])
    ensures OutcomesHold(after, ids, outcomes + [outcome])
  {
  }

  lemma CountedStatus(r: PollResult, outcome: PollOutcome, row: Intent)
    requires OutcomeHolds(outcome, row)
    ensures CountedOne(r, outcome).credited == r.credited + if row.status == Credited then 1 else 0
    ensures CountedOne(r, outcome).failed == r.failed + if row.status == Failed then 1 else 0
  {
  }

  /** Each outcome so far is true of its intent, and the counters count the outcomes and the settled intents. */
  predicate CountsTrue(intents: Store, ids: seq<nat>, outcomes: seq<PollOutcome>, result: PollResult)
    requires |outcomes| <= |ids|
  {
    && result == Tally(outcomes)
    && OutcomesHold(intents, ids, outcomes)
    && result.credited == CountStatus(intents, ids[..|outcomes|], Credited)
    && result.failed == CountStatus(intents, ids[..|outcomes|], Failed)
  }

  lemma CountsTrueStep(before: Store, after: Store, ids: seq<nat>, outcomes: seq<PollOutcome>, outcome: PollOutcome,
                       result: PollResult)
    requires |outcomes| < |ids| && Distinct(ids) && CountsTrue(before, ids, outcomes, result)
    requires forall k :: 0 <= k < |ids| ==> ids[k] in before
    requires ids[|outcomes|] in after && after == before[ids[|outcomes|] := after[ids[|outcomes|]]]
    requires OutcomeHolds(outcome, after[ids[|outcomes|]])
    ensures CountsTrue(after, ids, outcomes + [outcome], CountedOne(result, outcome))
  {
    TallySnoc(outcomes, outcome);
    OutcomesHoldStep(before, after, ids, outcomes, outcome);
    CountedStatus(result, outcome, after[ids[|outcomes|]]);
    CountStep(before, after, ids, |outcomes|, Credited);
    CountStep(before, after, ids, |outcomes|, Failed);
  }

  /** From the i-th on, and outside the list, every intent is as it was. */
  predicate Untouched(before: Store, after: Store, ids: seq<nat>, i: nat)
    requires i <= |ids|
  {
    && before.Keys <= after.Keys
    && (forall k :: i <= k < |ids| && ids[k] in before ==> after[ids[k]] == before[ids[k]])
    && (forall id :: id in before && id !in ids ==> after[id] == before[id])
  }

  lemma UntouchedStep(before: Store, mid: Store, after: Store, ids: seq<nat>, i: nat)
    requires i < |ids| && Distinct(ids) && Untouched(before, mid, ids, i)
    requires ids[i] in after && after == mid[ids[i] := after[ids[i]]]
    ensures Untouched(before, after, ids, i + 1)
  {
  }

  predicate ThrowsOnlyLast(outcomes: seq<PollOutcome>, threw: bool) {
    && (forall k :: 0 <= k < |outcomes| - 1 ==> outcomes[k] != Threw)
    && (threw <==> outcomes != [] && outcomes[|outcomes| - 1] == Threw)
  }

  lemma ThrowsOnlyLastStep(outcomes: seq<PollOutcome>, outcome: PollOutcome)
    requires ThrowsOnlyLast(outcomes, false)
    ensures ThrowsOnlyLast(outcomes + [outcome], outcome == Threw)
  {
  }

  lemma PollSums(before: Store, after: Store, ids: seq<nat>, outcomes: seq<PollOutcome>, threw: bool)
    requires |outcomes| <= |ids| && Untouched(before, after, ids, |outcomes|) && ThrowsOnlyLast(outcomes, threw)
    requires forall k :: 0 <= k < |ids| ==> ids[k] in before && !IsTerminal(before[ids[k]].status)
    ensures var r := Tally(outcomes);
            r.polled == r.credited + r.failed + r.parked + r.pending + r.skipped + (if threw then 1 else 0)
    ensures CountStatus(after, ids, Credited) == CountStatus(after, ids[..|outcomes|], Credited)
    ensures CountStatus(after, ids, Failed) == CountStatus(after, ids[..|outcomes|], Failed)
  {
    TallyAdds(outcomes);
    RestUncounted(after, ids, |outcomes|, Credited);
    RestUncounted(after, ids, |outcomes|, Failed);
  }

  /** Intents the loop has not reached are not settled. */
  lemma {:induction false} RestUncounted(intents: Store, ids: seq<nat>, i: nat, status: Status)
    requires i <= |ids| && IsTerminal(status)
    requires forall k :: i <= k < |ids| ==> ids[k] in intents && !IsTerminal(intents[ids[k]].status)
    ensures CountStatus(intents, ids, status) == CountStatus(intents, ids[..i], status)
  {
    if i == |ids| {
      assert ids[..i] == ids;
    } else {
      var front := ids[..|ids| - 1];
      RestUncounted(intents, front, i, status);
      assert front[..i] == ids[..i];
    }
  }
}
