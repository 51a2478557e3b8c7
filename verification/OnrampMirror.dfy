/** The ledger mirror with any number of pollers on one intent: exactly when it stays right, and how it goes wrong. */
module OnrampMirror {
  import opened Prelude
  import opened OnrampService
  import opened OnrampPoller
  import opened OnrampSafety

  /** A mirrored funding has a ledger row exactly when it is credited. */
  predicate MirrorRight(cfg: Config, intents: Store, ledger: map<LedgerKey, LedgerRow>, id: nat) {
    id in intents && Mirrored(cfg, intents[id]) ==>
      (intents[id].status == Credited <==> LedgerKey(intents[id].orgId.value, id) in ledger)
  }

  ghost predicate MirrorsRight(cfg: Config, st: State) {
    forall id :: id in st.intents ==> MirrorRight(cfg, st.intents, st.ledger, id)
  }

  /** From the reassociation on a poller holds the amount. */
  predicate HoldsAmount(w: Poller) {
    w.CheckingKey? || w.Parking? || w.Advancing? || w.Settling? || w.Crediting? ==> w.row.amount.Some?
  }

  /** What a poller saw is still the same funding, and if it saw a terminal status, that status is stored. */
  predicate SeenOk(intents: Store, w: Poller) {
    && w.id in intents
    && w.row.orgId == intents[w.id].orgId && w.row.destToken == intents[w.id].destToken
    && (IsTerminal(w.row.status) ==> intents[w.id].status == w.row.status)
    && HoldsAmount(w)
  }

  ghost predicate SeenInv(st: State) {
    && OpenInv(st)
    && (forall p :: p in st.pollers ==> SeenOk(st.intents, st.pollers[p]))
    && (forall k :: k in st.ledger ==> k.intent in st.intents)
  }

  // ---------- One credit ----------

  /** The credit transaction acts on what its poller saw as attested, or comes after another one. */
  predicate CreditSafe(cfg: Config, intents: Store, w: Poller)
    requires w.Crediting? && w.id in intents
  {
    !Mirrored(cfg, w.row) || w.row.status == Attested || intents[w.id].status == Credited
  }

  /** From a right mirror, the credit transaction leaves it right exactly when it is safe. */
  lemma CreditKeepsMirrorIff(cfg: Config, st: State, w: Poller)
    requires w.Crediting? && SeenOk(st.intents, w) && RowOk(w.row) && RowOk(st.intents[w.id])
    requires MirrorRight(cfg, st.intents, st.ledger, w.id)
    ensures var e := Credit(cfg, st, w);
            MirrorRight(cfg, e.intents, e.ledger, w.id) <==> CreditSafe(cfg, st.intents, w)
  {
  }

  /** What a write leaves of the intents and the ledger, as far as mirrors go. */
  ghost predicate FundingKept(st: State, w: Poller, e: Effect) {
    && e.intents.Keys == st.intents.Keys
    && (forall id :: id in st.intents && id != w.id ==> e.intents[id] == st.intents[id])
    && (w.id in st.intents ==>
          e.intents[w.id].orgId == st.intents[w.id].orgId && e.intents[w.id].destToken == st.intents[w.id].destToken)
    && (e.next.Some? ==> SeenOk(e.intents, e.next.value))
    && (forall k :: k in e.ledger && k !in st.ledger ==> k.intent == w.id && w.id in st.intents)
    && (forall k :: k in st.ledger ==> k in e.ledger)
  }

  ghost predicate NoCredit(st: State, w: Poller, e: Effect) {
    w.id in st.intents && w.id in e.intents && st.intents[w.id].status != Credited ==> e.intents[w.id].status != Credited
  }

  lemma CreditKeepsFunding(cfg: Config, st: State, w: Poller)
    requires w.Crediting? && SeenOk(st.intents, w) && RowOk(w.row) && RowOk(st.intents[w.id])
    ensures FundingKept(st, w, EffectOf(cfg, st, w))
  {
  }

  /** Only the poller's own row may have changed, and it is still the same funding. */
  predicate OneRow(st: State, w: Poller, e: Effect) {
    e.intents == st.intents
    || (w.id in st.intents && w.id in e.intents && e.intents == st.intents[w.id := e.intents[w.id]]
        && e.intents[w.id].orgId == st.intents[w.id].orgId && e.intents[w.id].destToken == st.intents[w.id].destToken)
  }

  lemma AdvanceOneRow(cfg: Config, st: State, w: Poller)
    requires w.Advancing?
    ensures OneRow(st, w, EffectOf(cfg, st, w)) && EffectOf(cfg, st, w).ledger == st.ledger
  {
  }

  lemma AdvanceSees(cfg: Config, st: State, w: Poller)
    requires w.Advancing? && SeenOk(st.intents, w)
    ensures var e := EffectOf(cfg, st, w); e.next.Some? ==> SeenOk(e.intents, e.next.value)
  {
  }

  lemma AdvanceKeepsFunding(cfg: Config, st: State, w: Poller)
    requires w.Advancing? && SeenOk(st.intents, w) && RowOk(w.row) && RowOk(st.intents[w.id])
    ensures FundingKept(st, w, EffectOf(cfg, st, w)) && EffectOf(cfg, st, w).ledger == st.ledger
  {
    AdvanceOneRow(cfg, st, w);
    AdvanceSees(cfg, st, w);
    RowKept(st, w, EffectOf(cfg, st, w));
  }

  lemma RowKept(st: State, w: Poller, e: Effect)
    requires OneRow(st, w, e) && e.ledger == st.ledger && (e.next.Some? ==> SeenOk(e.intents, e.next.value))
    ensures FundingKept(st, w, e)
  {
  }

  lemma AdvanceIsNoCredit(cfg: Config, st: State, w: Poller)
    requires w.Advancing?
    ensures NoCredit(st, w, EffectOf(cfg, st, w))
  {
  }

  lemma MessageKeepsFunding(cfg: Config, st: State, w: Poller)
    requires (w.Reassociating? || w.Parking?) && SeenOk(st.intents, w) && RowOk(w.row) && RowOk(st.intents[w.id])
    ensures FundingKept(st, w, EffectOf(cfg, st, w)) && EffectOf(cfg, st, w).ledger == st.ledger
  {
  }

  lemma MessageIsNoCredit(cfg: Config, st: State, w: Poller)
    requires (w.Reassociating? || w.Parking?)
    ensures NoCredit(st, w, EffectOf(cfg, st, w))
  {
  }

  lemma FailureKeepsFunding(cfg: Config, st: State, w: Poller)
    requires (w.FailingIntent? || w.MarkingBurned?) && SeenOk(st.intents, w) && RowOk(w.row) && RowOk(st.intents[w.id])
    ensures FundingKept(st, w, EffectOf(cfg, st, w)) && EffectOf(cfg, st, w).ledger == st.ledger
  {
  }

  lemma FailureIsNoCredit(cfg: Config, st: State, w: Poller)
    requires (w.FailingIntent? || w.MarkingBurned?)
    ensures NoCredit(st, w, EffectOf(cfg, st, w))
  {
  }

  /** Every write but the credit transaction keeps the ledger and credits nothing. */
  lemma OtherKeepsFunding(cfg: Config, st: State, w: Poller)
    requires HasWrite(w) && !w.Crediting? && SeenOk(st.intents, w) && RowOk(w.row) && RowOk(st.intents[w.id])
    ensures FundingKept(st, w, EffectOf(cfg, st, w)) && EffectOf(cfg, st, w).ledger == st.ledger
    ensures NoCredit(st, w, EffectOf(cfg, st, w))
  {
    if w.Advancing? {
      AdvanceKeepsFunding(cfg, st, w);
      AdvanceIsNoCredit(cfg, st, w);
    } else if w.Reassociating? || w.Parking? {
      MessageKeepsFunding(cfg, st, w);
      MessageIsNoCredit(cfg, st, w);
    } else {
      FailureKeepsFunding(cfg, st, w);
      FailureIsNoCredit(cfg, st, w);
    }
  }

  lemma WriteKeepsFunding(cfg: Config, st: State, w: Poller)
    requires SeenInv(st) && HasWrite(w) && SeenOk(st.intents, w) && RowOk(w.row)
    ensures FundingKept(st, w, EffectOf(cfg, st, w))
  {
    assert RowOk(st.intents[w.id]);
    if w.Crediting? {
      CreditKeepsFunding(cfg, st, w);
    } else {
      OtherKeepsFunding(cfg, st, w);
    }
  }

  /** Another poller's view survives a write. */
  lemma SeenAfterWrite(cfg: Config, st: State, w: Poller, v: Poller)
    requires SeenOk(st.intents, w) && SeenOk(st.intents, v) && HasWrite(w)
    requires FundingKept(st, w, EffectOf(cfg, st, w)) && MovesOnly(st.intents, EffectOf(cfg, st, w).intents, w.id)
    ensures SeenOk(EffectOf(cfg, st, w).intents, v)
  {
    var after := EffectOf(cfg, st, w).intents;
    if v.id == w.id {
      assert Moves(st.intents[w.id].status, after[w.id].status);
    }
  }

  lemma DbStepKeepsSeen(cfg: Config, st: State, p: nat)
    requires SeenInv(st) && Enabled(cfg, st, DbStep(p))
    ensures SeenInv(Apply(cfg, st, DbStep(p)))
  {
    var w, st' := st.pollers[p], Apply(cfg, st, DbStep(p));
    assert SeenOk(st.intents, w) && RowOk(w.row);
    WriteKeepsFunding(cfg, st, w);
    OpenStep(cfg, st, DbStep(p));
    EffectMoves(cfg, st, w);
    forall q | q in st'.pollers ensures SeenOk(st'.intents, st'.pollers[q]) {
      if q != p {
        SeenAfterWrite(cfg, st, w, st.pollers[q]);
      }
    }
  }

  lemma HeardSeen(cfg: Config, st: State, step: Step, p: nat)
    requires (forall q :: q in st.pollers ==> SeenOk(st.intents, st.pollers[q])) && Enabled(cfg, st, step)
    requires step.Begin? || step.NoMessage? || step.Incomplete? || step.Complete?
    requires step.p == p && p in Apply(cfg, st, step).pollers
    ensures SeenOk(st.intents, Apply(cfg, st, step).pollers[p])
  {
  }

  lemma AnsweredSeen(cfg: Config, st: State, step: Step, p: nat)
    requires (forall q :: q in st.pollers ==> SeenOk(st.intents, st.pollers[q])) && Enabled(cfg, st, step)
    requires step.LookUpKey? || step.Settle?
    requires step.p == p && p in Apply(cfg, st, step).pollers
    ensures SeenOk(st.intents, Apply(cfg, st, step).pollers[p])
  {
  }

  lemma MemoryKeepsSeen(cfg: Config, st: State, step: Step)
    requires SeenInv(st) && Enabled(cfg, st, step) && !step.DbStep?
    ensures SeenInv(Apply(cfg, st, step))
  {
    OpenStep(cfg, st, step);
    var st' := Apply(cfg, st, step);
    forall q | q in st'.pollers ensures SeenOk(st'.intents, st'.pollers[q]) {
      if !step.SettleElsewhere? && !step.Crash? && !step.Create? && step.p == q {
        if step.LookUpKey? || step.Settle? {
          AnsweredSeen(cfg, st, step, q);
        } else {
          HeardSeen(cfg, st, step, q);
        }
      } else {
        assert st'.pollers[q] == st.pollers[q] && SeenOk(st.intents, st.pollers[q]);
      }
    }
  }

  lemma {:induction false} SeenRun(cfg: Config, states: seq<State>, steps: seq<Step>, i: nat)
    requires Run(cfg, states, steps) && i < |states|
    ensures SeenInv(states[i])
  {
    if i > 0 {
      SeenRun(cfg, states, steps, i - 1);
      assert NextAt(cfg, states, steps, i - 1);
      if steps[i - 1].DbStep? {
        DbStepKeepsSeen(cfg, states[i - 1], steps[i - 1].p);
      } else {
        MemoryKeepsSeen(cfg, states[i - 1], steps[i - 1]);
      }
    }
  }

  // ---------- Whole runs ----------

  /** The step is no credit transaction, or a safe one. */
  predicate StepSafe(cfg: Config, st: State, step: Step) {
    step.DbStep? && step.p in st.pollers && st.pollers[step.p].Crediting? ==>
      st.pollers[step.p].id in st.intents && CreditSafe(cfg, st.intents, st.pollers[step.p])
  }

  lemma DbStepMirrors(cfg: Config, st: State, p: nat, id: nat)
    requires SeenInv(st) && MirrorsRight(cfg, st) && Enabled(cfg, st, DbStep(p)) && id in st.intents
    ensures var st' := Apply(cfg, st, DbStep(p));
            if st.pollers[p].Crediting? && st.pollers[p].id == id
            then MirrorRight(cfg, st'.intents, st'.ledger, id) <==> CreditSafe(cfg, st.intents, st.pollers[p])
            else MirrorRight(cfg, st'.intents, st'.ledger, id)
  {
    var w := st.pollers[p];
    assert SeenOk(st.intents, w) && RowOk(w.row) && RowOk(st.intents[w.id]);
    assert MirrorRight(cfg, st.intents, st.ledger, id);
    WriteKeepsFunding(cfg, st, w);
    if w.id == id {
      if w.Crediting? {
        CreditKeepsMirrorIff(cfg, st, w);
      } else {
        OtherKeepsMirror(cfg, st, w);
      }
    }
  }

  /** A write that is no credit keeps its own intent's mirror right. */
  lemma OtherKeepsMirror(cfg: Config, st: State, w: Poller)
    requires HasWrite(w) && !w.Crediting? && OpenInv(st) && SeenOk(st.intents, w)
    requires RowOk(w.row) && RowOk(st.intents[w.id]) && MirrorRight(cfg, st.intents, st.ledger, w.id)
    ensures var e := EffectOf(cfg, st, w); MirrorRight(cfg, e.intents, e.ledger, w.id)
  {
    EffectMoves(cfg, st, w);
    OtherKeepsFunding(cfg, st, w);
  }

  /** From right mirrors, one step of any poller leaves them right exactly when it is safe. */
  lemma StepKeepsMirrorsIff(cfg: Config, st: State, step: Step)
    requires SeenInv(st) && MirrorsRight(cfg, st) && Enabled(cfg, st, step)
    ensures MirrorsRight(cfg, Apply(cfg, st, step)) <==> StepSafe(cfg, st, step)
  {
    var st' := Apply(cfg, st, step);
    if step.DbStep? {
      var w := st.pollers[step.p];
      assert SeenOk(st.intents, w);
      WriteKeepsFunding(cfg, st, w);
      forall id | id in st'.intents
        ensures if w.Crediting? && w.id == id
                then MirrorRight(cfg, st'.intents, st'.ledger, id) <==> CreditSafe(cfg, st.intents, w)
                else MirrorRight(cfg, st'.intents, st'.ledger, id)
      {
        DbStepMirrors(cfg, st, step.p, id);
      }
    } else {
      MemoryMirrors(cfg, st, step);
    }
  }

  lemma MemoryMirrors(cfg: Config, st: State, step: Step)
    requires SeenInv(st) && MirrorsRight(cfg, st) && Enabled(cfg, st, step) && !step.DbStep?
    ensures MirrorsRight(cfg, Apply(cfg, st, step))
  {
    var st' := Apply(cfg, st, step);
    forall id | id in st'.intents ensures MirrorRight(cfg, st'.intents, st'.ledger, id) {
      if id in st.intents {
        assert MirrorRight(cfg, st.intents, st.ledger, id);
      }
    }
  }

  ghost predicate SafeUpTo(cfg: Config, states: seq<State>, steps: seq<Step>, n: nat)
    requires n <= |steps| < |states|
  {
    forall i :: 0 <= i < n ==> StepSafe(cfg, states[i], steps[i])
  }

  /**
   In every run, however many pollers work on an intent, all mirrors are right up to a moment exactly when every
   credit transaction before it was safe.
   */
  lemma {:induction false} MirrorsRightIff(cfg: Config, states: seq<State>, steps: seq<Step>, n: nat)
    requires Run(cfg, states, steps) && n <= |steps|
    ensures (forall i :: 0 <= i <= n ==> MirrorsRight(cfg, states[i])) <==> SafeUpTo(cfg, states, steps, n)
  {
    if n > 0 {
      MirrorsRightIff(cfg, states, steps, n - 1);
      SeenRun(cfg, states, steps, n - 1);
      assert NextAt(cfg, states, steps, n - 1);
      if MirrorsRight(cfg, states[n - 1]) {
        StepKeepsMirrorsIff(cfg, states[n - 1], steps[n - 1]);
      }
    }
  }

  predicate HasRow(cfg: Config, intents: Store, ledger: map<LedgerKey, LedgerRow>, id: nat) {
    id in intents && intents[id].status == Credited && Mirrored(cfg, intents[id]) ==>
      LedgerKey(intents[id].orgId.value, id) in ledger
  }

  ghost predicate CreditedHaveRows(cfg: Config, st: State) {
    forall id :: id in st.intents ==> HasRow(cfg, st.intents, st.ledger, id)
  }

  lemma CreditWritesRow(cfg: Config, st: State, w: Poller)
    requires w.Crediting? && SeenOk(st.intents, w) && RowOk(w.row) && RowOk(st.intents[w.id])
    requires HasRow(cfg, st.intents, st.ledger, w.id)
    ensures var e := Credit(cfg, st, w); HasRow(cfg, e.intents, e.ledger, w.id)
  {
  }

  lemma OwnRowKept(cfg: Config, st: State, w: Poller)
    requires SeenInv(st) && HasWrite(w) && SeenOk(st.intents, w) && RowOk(w.row)
    requires HasRow(cfg, st.intents, st.ledger, w.id)
    ensures var e := EffectOf(cfg, st, w); HasRow(cfg, e.intents, e.ledger, w.id)
  {
    assert RowOk(st.intents[w.id]);
    if w.Crediting? {
      CreditWritesRow(cfg, st, w);
    } else {
      EffectMoves(cfg, st, w);
      OtherKeepsFunding(cfg, st, w);
    }
  }

  lemma OtherRowKept(cfg: Config, st: State, w: Poller, e: Effect, id: nat)
    requires FundingKept(st, w, e) && id != w.id && HasRow(cfg, st.intents, st.ledger, id)
    ensures HasRow(cfg, e.intents, e.ledger, id)
  {
  }

  lemma DbStepKeepsRows(cfg: Config, st: State, p: nat)
    requires SeenInv(st) && CreditedHaveRows(cfg, st) && Enabled(cfg, st, DbStep(p))
    ensures CreditedHaveRows(cfg, Apply(cfg, st, DbStep(p)))
  {
    var w := st.pollers[p];
    var e := EffectOf(cfg, st, w);
    assert SeenOk(st.intents, w) && RowOk(w.row);
    WriteKeepsFunding(cfg, st, w);
    forall id | id in e.intents ensures HasRow(cfg, e.intents, e.ledger, id) {
      assert HasRow(cfg, st.intents, st.ledger, id);
      if id == w.id {
        OwnRowKept(cfg, st, w);
      } else {
        OtherRowKept(cfg, st, w, e, id);
      }
    }
  }

  lemma StepKeepsRows(cfg: Config, st: State, step: Step)
    requires SeenInv(st) && CreditedHaveRows(cfg, st) && Enabled(cfg, st, step)
    ensures CreditedHaveRows(cfg, Apply(cfg, st, step))
  {
    if step.DbStep? {
      DbStepKeepsRows(cfg, st, step.p);
    } else {
      var st' := Apply(cfg, st, step);
      forall id | id in st'.intents ensures HasRow(cfg, st'.intents, st'.ledger, id) {
        assert id in st.intents ==> HasRow(cfg, st.intents, st.ledger, id);
      }
    }
  }

  /** In every run, whatever the pollers do, a credited mirrored funding has its ledger row. */
  lemma {:induction false} CreditedHasRow(cfg: Config, states: seq<State>, steps: seq<Step>, i: nat)
    requires Run(cfg, states, steps) && i < |states|
    ensures CreditedHaveRows(cfg, states[i])
  {
    if i > 0 {
      CreditedHasRow(cfg, states, steps, i - 1);
      SeenRun(cfg, states, steps, i - 1);
      assert NextAt(cfg, states, steps, i - 1);
      StepKeepsRows(cfg, states[i - 1], steps[i - 1]);
    }
  }

  // ---------- Two pollers on one intent ----------

  const TWO_CONFIG := Config(1, 9, {Usdc}, (n: nat) => 100, (n: nat) => 5)
  const MESSAGE := Message(0, 1, 9, 3, 100, 2)
  const NEW_INTENT := Intent(Some(4), 2, 0, 5, Usdc, None, None, Initiated, None)
  const KNOWN := NEW_INTENT.(amount := Some(100), nonce := Some(3))
  const BURNED := KNOWN.(status := Burned)
  const ATTESTED := KNOWN.(status := Attested)
  const LEDGER_ROW := LedgerRow(100, Usdc, None)

  /** What the other poller makes of the intent: parked without a key, failed with another key. */
  function Lost(other: Registration): Intent {
    ATTESTED.(status := if other == Unregistered then NeedsOnboarding else Failed)
  }

  function Losing(other: Registration): Poller {
    if other == Unregistered then Parking(7, ATTESTED, MESSAGE) else FailingIntent(7, ATTESTED)
  }

  function With(row: Intent, pollers: map<nat, Poller>): State {
    State(map[7 := row], map[], {}, pollers)
  }

  /** A first poll attests the intent and finds no relayer. */
  const FIRST_POLL: seq<Step> := [
    Create(7, NEW_INTENT), Begin(1, 7), Complete(1, MESSAGE), DbStep(1), LookUpKey(1, SameKey), DbStep(1), DbStep(1),
    Settle(1, Unavailable)]

  function FirstState(k: nat): State {
    match k
    case 0 => State(map[], map[], {}, map[])
    case 1 => With(NEW_INTENT, map[])
    case 2 => With(NEW_INTENT, map[1 := Polled(7, NEW_INTENT)])
    case 3 => With(NEW_INTENT, map[1 := Reassociating(7, NEW_INTENT, MESSAGE)])
    case 4 => With(KNOWN, map[1 := CheckingKey(7, KNOWN, MESSAGE)])
    case 5 => With(KNOWN, map[1 := Advancing(7, KNOWN, MESSAGE)])
    case 6 => With(BURNED, map[1 := Advancing(7, BURNED, MESSAGE)])
    case 7 => With(ATTESTED, map[1 := Settling(7, ATTESTED, MESSAGE)])
    case _ => With(ATTESTED, map[])
  }

  /**
   Then two pollers take the attested intent. The second looks up the key first and loses the intent; the first
   patches it, settles, and writes the ledger row.
   */
  function BothPoll(other: Registration): seq<Step> {
    [Begin(0, 7), Begin(1, 7), Complete(0, MESSAGE), Complete(1, MESSAGE), DbStep(0), DbStep(1), LookUpKey(1, other),
     LookUpKey(0, SameKey), DbStep(1), DbStep(0), Settle(0, Settled(8)), DbStep(0)]
  }

  function BothState(other: Registration, k: nat): State {
    match k
    case 0 => With(ATTESTED, map[])
    case 1 => With(ATTESTED, map[0 := Polled(7, ATTESTED)])
    case 2 => With(ATTESTED, map[0 := Polled(7, ATTESTED), 1 := Polled(7, ATTESTED)])
    case 3 => With(ATTESTED, map[0 := Reassociating(7, ATTESTED, MESSAGE), 1 := Polled(7, ATTESTED)])
    case 4 => With(ATTESTED, map[0 := Reassociating(7, ATTESTED, MESSAGE), 1 := Reassociating(7, ATTESTED, MESSAGE)])
    case 5 => With(ATTESTED, map[0 := CheckingKey(7, ATTESTED, MESSAGE), 1 := Reassociating(7, ATTESTED, MESSAGE)])
    case 6 => With(ATTESTED, map[0 := CheckingKey(7, ATTESTED, MESSAGE), 1 := CheckingKey(7, ATTESTED, MESSAGE)])
    case 7 => With(ATTESTED, map[0 := CheckingKey(7, ATTESTED, MESSAGE), 1 := Losing(other)])
    case 8 => With(ATTESTED, map[0 := Advancing(7, ATTESTED, MESSAGE), 1 := Losing(other)])
    case 9 => With(Lost(other), map[0 := Advancing(7, ATTESTED, MESSAGE)])
    case 10 => With(Lost(other), map[0 := Settling(7, Lost(other), MESSAGE)])
    case 11 => State(map[7 := Lost(other)], map[], {3}, map[0 := Crediting(7, Lost(other), MESSAGE, Some(8))])
    case _ => State(map[7 := Lost(other)], map[LedgerKey(4, 7) := LEDGER_ROW], {3}, map[])
  }

  /** A write step is the write's effect and what becomes of its poller. */
  lemma DbStepIs(cfg: Config, st: State, p: nat, w: Poller, e: Effect, st': State)
    requires p in st.pollers && st.pollers[p] == w && HasWrite(w) && EffectOf(cfg, st, w) == e
    requires st' == State(e.intents, e.ledger, st.consumed,
                          if e.next.Some? then st.pollers[p := e.next.value] else st.pollers - {p})
    ensures Next(cfg, st, DbStep(p), st')
  {
  }

  lemma FirstBegins()
    ensures Next(TWO_CONFIG, FirstState(0), Create(7, NEW_INTENT), FirstState(1))
    ensures Next(TWO_CONFIG, FirstState(1), Begin(1, 7), FirstState(2))
  {
  }

  lemma FirstHears()
    ensures Next(TWO_CONFIG, FirstState(2), Complete(1, MESSAGE), FirstState(3))
    ensures Next(TWO_CONFIG, FirstState(4), LookUpKey(1, SameKey), FirstState(5))
  {
  }

  lemma FirstReassociates()
    ensures Next(TWO_CONFIG, FirstState(3), DbStep(1), FirstState(4))
  {
    var w := Reassociating(7, NEW_INTENT, MESSAGE);
    DbStepIs(TWO_CONFIG, FirstState(3), 1, w,
             Effect(map[7 := KNOWN], map[], Some(CheckingKey(7, KNOWN, MESSAGE))), FirstState(4));
  }

  lemma FirstAdvances()
    ensures Next(TWO_CONFIG, FirstState(5), DbStep(1), FirstState(6))
  {
    var w := Advancing(7, KNOWN, MESSAGE);
    DbStepIs(TWO_CONFIG, FirstState(5), 1, w,
             Effect(map[7 := BURNED], map[], Some(Advancing(7, BURNED, MESSAGE))), FirstState(6));
  }

  lemma FirstAttests()
    ensures Next(TWO_CONFIG, FirstState(6), DbStep(1), FirstState(7))
  {
    var w := Advancing(7, BURNED, MESSAGE);
    DbStepIs(TWO_CONFIG, FirstState(6), 1, w,
             Effect(map[7 := ATTESTED], map[], Some(Settling(7, ATTESTED, MESSAGE))), FirstState(7));
  }

  lemma FirstEnds()
    ensures Next(TWO_CONFIG, FirstState(7), Settle(1, Unavailable), FirstState(8))
  {
    assert FirstState(7).pollers - {1} == map[];
  }

  lemma BothBegin(other: Registration)
    ensures Next(TWO_CONFIG, BothState(other, 0), Begin(0, 7), BothState(other, 1))
    ensures Next(TWO_CONFIG, BothState(other, 1), Begin(1, 7), BothState(other, 2))
  {
  }

  lemma BothHear(other: Registration)
    ensures Next(TWO_CONFIG, BothState(other, 2), Complete(0, MESSAGE), BothState(other, 3))
    ensures Next(TWO_CONFIG, BothState(other, 3), Complete(1, MESSAGE), BothState(other, 4))
  {
  }

  lemma PatchEffect(st: State)
    requires st.intents == map[7 := ATTESTED] && st.ledger == map[]
    ensures EffectOf(TWO_CONFIG, st, Reassociating(7, ATTESTED, MESSAGE))
            == Effect(map[7 := ATTESTED], map[], Some(CheckingKey(7, ATTESTED, MESSAGE)))
  {
  }

  lemma BothReassociate(other: Registration, p: nat)
    requires p < 2
    ensures Next(TWO_CONFIG, BothState(other, 4 + p), DbStep(p), BothState(other, 5 + p))
  {
    PatchEffect(BothState(other, 4 + p));
    DbStepIs(TWO_CONFIG, BothState(other, 4 + p), p, Reassociating(7, ATTESTED, MESSAGE),
             Effect(map[7 := ATTESTED], map[], Some(CheckingKey(7, ATTESTED, MESSAGE))), BothState(other, 5 + p));
  }

  lemma OtherLooksUp(other: Registration)
    requires other != SameKey
    ensures Next(TWO_CONFIG, BothState(other, 6), LookUpKey(1, other), BothState(other, 7))
  {
  }

  lemma FirstLooksUp(other: Registration)
    requires other != SameKey
    ensures Next(TWO_CONFIG, BothState(other, 7), LookUpKey(0, SameKey), BothState(other, 8))
  {
  }

  lemma LossEffect(other: Registration, st: State)
    requires other != SameKey && st.intents == map[7 := ATTESTED] && st.ledger == map[]
    ensures EffectOf(TWO_CONFIG, st, Losing(other)) == Effect(map[7 := Lost(other)], map[], None)
  {
  }

  lemma OtherLoses(other: Registration)
    requires other != SameKey
    ensures Next(TWO_CONFIG, BothState(other, 8), DbStep(1), BothState(other, 9))
  {
    var st := BothState(other, 8);
    LossEffect(other, st);
    assert st.pollers - {1} == map[0 := Advancing(7, ATTESTED, MESSAGE)];
    DbStepIs(TWO_CONFIG, st, 1, Losing(other), Effect(map[7 := Lost(other)], map[], None), BothState(other, 9));
  }

  lemma LoserPatched(other: Registration)
    requires other != SameKey
    ensures Next(TWO_CONFIG, BothState(other, 9), DbStep(0), BothState(other, 10))
  {
    var w := Advancing(7, ATTESTED, MESSAGE);
    DbStepIs(TWO_CONFIG, BothState(other, 9), 0, w,
             Effect(map[7 := Lost(other)], map[], Some(Settling(7, Lost(other), MESSAGE))), BothState(other, 10));
  }

  lemma LoserSettles(other: Registration)
    ensures Next(TWO_CONFIG, BothState(other, 10), Settle(0, Settled(8)), BothState(other, 11))
  {
  }

  lemma LoserEffect(other: Registration, st: State)
    requires other != SameKey && st.intents == map[7 := Lost(other)] && st.ledger == map[]
    ensures EffectOf(TWO_CONFIG, st, Crediting(7, Lost(other), MESSAGE, Some(8)))
            == Effect(st.intents, map[LedgerKey(4, 7) := LEDGER_ROW], None)
  {
    assert MarkCredited(st.intents, 7, Lost(other), Some(8)) == Ok((st.intents, Lost(other)));
  }

  lemma LoserMirrored(other: Registration)
    requires other != SameKey
    ensures Next(TWO_CONFIG, BothState(other, 11), DbStep(0), BothState(other, 12))
  {
    var st := BothState(other, 11);
    LoserEffect(other, st);
    assert st.pollers - {0} == map[];
    DbStepIs(TWO_CONFIG, st, 0, Crediting(7, Lost(other), MESSAGE, Some(8)),
             Effect(st.intents, map[LedgerKey(4, 7) := LEDGER_ROW], None), BothState(other, 12));
  }

  lemma FirstStep(k: nat)
    requires k < 8
    ensures Next(TWO_CONFIG, FirstState(k), FIRST_POLL[k], FirstState(k + 1))
  {
    match k
    case 0 => FirstBegins();
    case 1 => FirstBegins();
    case 2 => FirstHears();
    case 3 => FirstReassociates();
    case 4 => FirstHears();
    case 5 => FirstAdvances();
    case 6 => FirstAttests();
    case _ => FirstEnds();
  }

  lemma BothStep(other: Registration, k: nat)
    requires k < 12 && other != SameKey
    ensures Next(TWO_CONFIG, BothState(other, k), BothPoll(other)[k], BothState(other, k + 1))
  {
    if k < 4 {
      BothAsk(other, k);
    } else if k < 6 {
      BothReassociate(other, k - 4);
    } else {
      BothAct(other, k);
    }
  }

  lemma BothAsk(other: Registration, k: nat)
    requires k < 4
    ensures Next(TWO_CONFIG, BothState(other, k), BothPoll(other)[k], BothState(other, k + 1))
  {
    if k < 2 {
      BothBegin(other);
    } else {
      BothHear(other);
    }
  }

  lemma BothAct(other: Registration, k: nat)
    requires 6 <= k < 12 && other != SameKey
    ensures Next(TWO_CONFIG, BothState(other, k), BothPoll(other)[k], BothState(other, k + 1))
  {
    match k
    case 6 => OtherLooksUp(other);
    case 7 => FirstLooksUp(other);
    case 8 => OtherLoses(other);
    case 9 => LoserPatched(other);
    case 10 => LoserSettles(other);
    case _ => LoserMirrored(other);
  }

  function TwoState(other: Registration, i: nat): State {
    if i < 8 then FirstState(i) else BothState(other, i - 8)
  }

  function TwoStep(other: Registration, i: nat): Step
    requires i < 20
  {
    if i < 8 then FIRST_POLL[i] else BothPoll(other)[i - 8]
  }

  lemma TwoNext(other: Registration, i: nat)
    requires i < 20 && other != SameKey
    ensures Next(TWO_CONFIG, TwoState(other, i), TwoStep(other, i), TwoState(other, i + 1))
  {
    if i < 8 {
      FirstStep(i);
    } else {
      BothStep(other, i - 8);
    }
  }

  lemma LostIsLost(other: Registration)
    requires other != SameKey
    ensures var last := BothState(other, 12);
            && last.intents[7].status == (if other == Unregistered then NeedsOnboarding else Failed)
            && LedgerKey(4, 7) in last.ledger && !MirrorRight(TWO_CONFIG, last.intents, last.ledger, 7)
  {
  }

  /**
   Two runs from the start in which a second poller takes the intent from the first: it fails it or parks it. The
   first settles on chain, reports the intent as credited and writes its ledger row; the intent stays lost.
   */
  lemma TwoPollersMirrorALoss(other: Registration) returns (states: seq<State>, steps: seq<Step>)
    requires other != SameKey
    ensures Run(TWO_CONFIG, states, steps)
    ensures var last := states[|steps|];
            && 7 in last.intents && last.intents[7].status == (if other == Unregistered then NeedsOnboarding else Failed)
            && LedgerKey(4, 7) in last.ledger && !MirrorRight(TWO_CONFIG, last.intents, last.ledger, 7)
  {
    states := seq(21, i requires 0 <= i => TwoState(other, i));
    steps := seq(20, i requires 0 <= i < 20 => TwoStep(other, i));
    LostIsLost(other);
    forall i | 0 <= i < 20 ensures NextAt(TWO_CONFIG, states, steps, i) {
      TwoNext(other, i);
    }
  }
}
