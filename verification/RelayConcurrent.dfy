/**
 Any number of overlapping completions of one operation and transaction, interleaved at their awaits.
 A call first awaits its store read and later, in one go, looks at the in-flight map: it either saves an
 already completed record, joins the running completion, or registers its own. Nothing here crashes;
 `RelayProtocol` covers crashes for calls that do not overlap.
 */
module RelayConcurrent {
  import opened Common
  import opened RelayTypes

  /** Where a completion that a call owns stands. */
  datatype Stage = InPort(effect: Effect) | SavingFlag(effect: Effect) | LastSave | Resolved | Broken

  datatype Call =
    | Reading(input: Operation)
    | HasRead(snapshot: Operation)
    | SavingCompleted(op: Operation)
    | Joined(owner: nat)
    | Owning(op: Operation, stage: Stage)
    | Returned(op: Operation)
    | Rejected

  datatype State = State(
    txId: string,
    stored: Option<Operation>,
    inFlight: Option<nat>,
    calls: map<nat, Call>,
    runs: multiset<Effect>)

  datatype Step =
    | Arrive(input: Operation)
    | ReadStore
    | Enter
    | PortDone
    | PortThrows
    | SaveDone
    | Finish
    | JoinerResumes

  /** The first effect still missing, or the last save when none is. */
  function NextStage(op: Operation): Stage {
    if !op.finalized then InPort(Finalize)
    else if !op.deliveriesDrained then InPort(Drain)
    else if !op.transactionPersisted then InPort(Persist)
    else LastSave
  }

  function StageAfter(op: Operation, effect: Effect): Stage {
    match effect
    case Finalize => if !op.deliveriesDrained then InPort(Drain) else if !op.transactionPersisted then InPort(Persist) else LastSave
    case Drain => if !op.transactionPersisted then InPort(Persist) else LastSave
    case Persist => LastSave
  }

  /** The owned promise has settled; its entry is still in the map. */
  predicate IsOver(stage: Stage) {
    stage.Resolved? || stage.Broken?
  }

  predicate Enabled(s: State, id: nat, step: Step) {
    match step
    case Arrive(_) => id !in s.calls
    case ReadStore => id in s.calls && s.calls[id].Reading?
    case Enter => id in s.calls && s.calls[id].HasRead?
    case PortDone => id in s.calls && s.calls[id].Owning? && s.calls[id].stage.InPort?
    case PortThrows => id in s.calls && s.calls[id].Owning? && s.calls[id].stage.InPort?
    case SaveDone =>
      id in s.calls && (s.calls[id].SavingCompleted?
                        || (s.calls[id].Owning? && (s.calls[id].stage.SavingFlag? || s.calls[id].stage.LastSave?)))
    case Finish => id in s.calls && s.calls[id].Owning? && IsOver(s.calls[id].stage)
    case JoinerResumes =>
      id in s.calls && s.calls[id].Joined? && s.calls[id].owner in s.calls
      && var owner := s.calls[s.calls[id].owner];
      owner.Returned? || owner.Rejected? || (owner.Owning? && IsOver(owner.stage))
  }

  function With(s: State, id: nat, call: Call): State {
    s.(calls := s.calls[id := call])
  }

  function Apply(s: State, id: nat, step: Step): State
    requires Enabled(s, id, step)
  {
    match step
    case Arrive(input) => With(s, id, Reading(input))
    case ReadStore =>
      var record := if s.stored.Some? then s.stored.value else s.calls[id].input;
      With(s, id, HasRead(WithSucceededPhase(record, s.txId)))
    case Enter =>
      var op := s.calls[id].snapshot;
      if IsAlreadyCompleted(op) then With(s, id, SavingCompleted(op))
      else if s.inFlight.Some? then With(s, id, Joined(s.inFlight.value))
      else With(s, id, Owning(op, NextStage(op))).(inFlight := Some(id))
    case PortDone =>
      var Owning(op, InPort(effect)) := s.calls[id];
      With(s, id, Owning(WithFlag(op, effect), SavingFlag(effect))).(runs := s.runs + multiset{effect})
    case PortThrows => With(s, id, Owning(s.calls[id].op, Broken))
    case SaveDone =>
      (match s.calls[id]
       case SavingCompleted(op) => With(s, id, Returned(op)).(stored := Some(op))
       case Owning(op, SavingFlag(effect)) => With(s, id, Owning(op, StageAfter(op, effect))).(stored := Some(op))
       case Owning(op, _) => With(s, id, Owning(op, Resolved)).(stored := Some(op)))
    case Finish =>
      var Owning(op, stage) := s.calls[id];
      With(s, id, if stage.Broken? then Call.Rejected else Returned(op)).(inFlight := None)
    case JoinerResumes =>
      var owner := s.calls[s.calls[id].owner];
      With(s, id, if owner.Rejected? || (owner.Owning? && owner.stage.Broken?) then Call.Rejected else Returned(owner.op))
  }

  function Initial(txId: string, stored: Option<Operation>): State {
    State(txId, stored, None, map[], multiset{})
  }

  type Schedule = seq<(nat, Step)>

  predicate Runnable(s: State, schedule: Schedule)
    decreases |schedule|
  {
    schedule != [] ==>
      && Enabled(s, schedule[0].0, schedule[0].1)
      && Runnable(Apply(s, schedule[0].0, schedule[0].1), schedule[1..])
  }

  function Run(s: State, schedule: Schedule): State
    requires Runnable(s, schedule)
    decreases |schedule|
  {
    if schedule == [] then s else Run(Apply(s, schedule[0].0, schedule[0].1), schedule[1..])
  }

  // ---------------------------------------------------------------- one owner, complete results

  /** The flags an owned record must have at its stage: everything before the stage is done. */
  predicate StageFits(op: Operation, stage: Stage) {
    match stage
    case InPort(Finalize) => !op.finalized
    case InPort(Drain) => op.finalized && !op.deliveriesDrained
    case InPort(Persist) => op.finalized && op.deliveriesDrained && !op.transactionPersisted
    case SavingFlag(Finalize) => op.finalized
    case SavingFlag(Drain) => op.finalized && op.deliveriesDrained
    case SavingFlag(Persist) => IsAlreadyCompleted(op)
    case LastSave => IsAlreadyCompleted(op)
    case Resolved => IsAlreadyCompleted(op)
    case Broken => true
  }

  predicate CallFits(s: State, id: nat)
    requires id in s.calls
  {
    match s.calls[id]
    case SavingCompleted(op) => IsAlreadyCompleted(op)
    case Joined(owner) =>
      owner in s.calls && (s.calls[owner].Owning? || s.calls[owner].Returned? || s.calls[owner].Rejected?)
    case Owning(op, stage) => s.inFlight == Some(id) && StageFits(op, stage)
    case Returned(op) => IsAlreadyCompleted(op)
    case _ => true
  }

  predicate Inv(s: State) {
    && (forall id :: id in s.calls ==> CallFits(s, id))
    && (s.inFlight.Some? ==> s.inFlight.value in s.calls && s.calls[s.inFlight.value].Owning?)
  }

  lemma InvStep(s: State, id: nat, step: Step)
    requires Inv(s) && Enabled(s, id, step)
    ensures Inv(Apply(s, id, step))
  {
    var t := Apply(s, id, step);
    assert id in s.calls ==> CallFits(s, id);
    forall other | other in t.calls
      ensures CallFits(t, other)
    {
      if other != id {
        assert CallFits(s, other);
      }
    }
  }

  lemma {:induction false} InvRun(s: State, schedule: Schedule)
    requires Inv(s) && Runnable(s, schedule)
    ensures Inv(Run(s, schedule))
    decreases |schedule|
  {
    if schedule != [] {
      InvStep(s, schedule[0].0, schedule[0].1);
      InvRun(Apply(s, schedule[0].0, schedule[0].1), schedule[1..]);
    }
  }

  /**
   Whatever the interleaving: never do two calls own a completion at once, the in-flight entry names the
   one that does, and every call that returned has a result with all three flags set.
   */
  lemma OneOwnerAndCompleteResults(txId: string, stored: Option<Operation>, schedule: Schedule)
    requires Runnable(Initial(txId, stored), schedule)
    ensures var s := Run(Initial(txId, stored), schedule);
            && (forall a, b :: a in s.calls && b in s.calls && s.calls[a].Owning? && s.calls[b].Owning? ==> a == b)
            && (forall a :: a in s.calls && s.calls[a].Owning? ==> s.inFlight == Some(a))
            && (s.inFlight.Some? ==> s.inFlight.value in s.calls && s.calls[s.inFlight.value].Owning?)
            && (forall a :: a in s.calls && s.calls[a].Returned? ==> IsAlreadyCompleted(s.calls[a].op))
  {
    InvRun(Initial(txId, stored), schedule);
    var s := Run(Initial(txId, stored), schedule);
    forall a | a in s.calls ensures CallFits(s, a) {
    }
  }

  // ---------------------------------------------------------------- one record for all

  /** The record is `base` completed with the transaction, up to effects still to be done. */
  predicate Completes(op: Operation, base: Operation, txId: string) {
    Finished(op, txId) == Finished(base, txId) && op == WithSucceededPhase(op, txId)
  }

  predicate CallCompletes(s: State, call: Call, base: Operation) {
    match call
    case Reading(input) => s.stored.Some? || input == base
    case HasRead(op) => Completes(op, base, s.txId)
    case SavingCompleted(op) => Completes(op, base, s.txId)
    case Owning(op, _) => Completes(op, base, s.txId)
    case Returned(op) => Completes(op, base, s.txId)
    case _ => true
  }

  /** Everything stored and held comes from one record. */
  predicate FromOne(s: State, base: Operation) {
    && (s.stored.Some? ==> Finished(s.stored.value, s.txId) == Finished(base, s.txId))
    && (forall id :: id in s.calls ==> CallCompletes(s, s.calls[id], base))
  }

  /** The record is the stored one, or, while nothing is stored, what every call brings. */
  predicate BroughtAs(stored: Option<Operation>, schedule: Schedule, base: Operation) {
    if stored.Some? then stored.value == base
    else forall i :: 0 <= i < |schedule| && schedule[i].1.Arrive? ==> schedule[i].1.input == base
  }

  /** The step keeps its own call and what it stores, and touches no other call. */
  predicate KeepsOwn(s: State, t: State, id: nat, base: Operation) {
    && id in t.calls && CallCompletes(t, t.calls[id], base)
    && (t.stored.Some? ==> Finished(t.stored.value, t.txId) == Finished(base, t.txId))
    && t.txId == s.txId
    && t.calls == s.calls[id := t.calls[id]]
  }

  lemma EarlyStepKeepsOwn(s: State, id: nat, step: Step, base: Operation)
    requires Inv(s) && FromOne(s, base) && Enabled(s, id, step)
    requires step.Arrive? || step.ReadStore? || step.Enter? || step.JoinerResumes?
    requires step.Arrive? && s.stored.None? ==> step.input == base
    ensures KeepsOwn(s, Apply(s, id, step), id, base)
  {
    assert id in s.calls ==> CallFits(s, id) && CallCompletes(s, s.calls[id], base);
    if step.JoinerResumes? {
      assert CallCompletes(s, s.calls[s.calls[id].owner], base);
    }
  }

  lemma OwnerStepKeepsOwn(s: State, id: nat, step: Step, base: Operation)
    requires Inv(s) && FromOne(s, base) && Enabled(s, id, step)
    requires step.PortDone? || step.PortThrows? || step.SaveDone? || step.Finish?
    ensures KeepsOwn(s, Apply(s, id, step), id, base)
  {
    assert CallFits(s, id) && CallCompletes(s, s.calls[id], base);
  }

  lemma FromOneStep(s: State, id: nat, step: Step, base: Operation)
    requires Inv(s) && FromOne(s, base) && Enabled(s, id, step)
    requires step.Arrive? && s.stored.None? ==> step.input == base
    ensures FromOne(Apply(s, id, step), base)
  {
    var t := Apply(s, id, step);
    StoredStays(s, id, step);
    match step {
      case Arrive(_) => EarlyStepKeepsOwn(s, id, step, base);
      case ReadStore => EarlyStepKeepsOwn(s, id, step, base);
      case Enter => EarlyStepKeepsOwn(s, id, step, base);
      case JoinerResumes => EarlyStepKeepsOwn(s, id, step, base);
      case _ => OwnerStepKeepsOwn(s, id, step, base);
    }
    forall other | other in t.calls
      ensures CallCompletes(t, t.calls[other], base)
    {
      if other != id {
        assert CallCompletes(s, s.calls[other], base);
      }
    }
  }

  lemma {:induction false} FromOneRun(s: State, schedule: Schedule, base: Operation)
    requires Inv(s) && FromOne(s, base) && Runnable(s, schedule)
    requires forall i :: 0 <= i < |schedule| && schedule[i].1.Arrive? && s.stored.None? ==> schedule[i].1.input == base
    ensures FromOne(Run(s, schedule), base)
    decreases |schedule|
  {
    if schedule != [] {
      var (id, step) := schedule[0];
      InvStep(s, id, step);
      FromOneStep(s, id, step, base);
      StoredStays(s, id, step);
      FromOneRun(Apply(s, id, step), schedule[1..], base);
    }
  }

  lemma StoredStays(s: State, id: nat, step: Step)
    requires Enabled(s, id, step)
    ensures s.stored.Some? ==> Apply(s, id, step).stored.Some?
  {
  }

  /**
   Whatever the interleaving, and however often effects run: every call that returns, owner, joiner or latecomer,
   returns the very same record, the stored one completed with this transaction. What is stored is that record too,
   up to effects still to be done.
   */
  lemma AllReturnOneRecord(txId: string, stored: Option<Operation>, schedule: Schedule, base: Operation)
    requires Runnable(Initial(txId, stored), schedule) && BroughtAs(stored, schedule, base)
    ensures var s := Run(Initial(txId, stored), schedule);
            && (forall id :: id in s.calls && s.calls[id].Returned? ==> ShowsCompletion(base, s.calls[id].op, txId))
            && (s.stored.Some? ==> Finished(s.stored.value, txId) == Finished(base, txId))
  {
    var start := Initial(txId, stored);
    var s := Run(start, schedule);
    InvRun(start, schedule);
    TransactionStays(start, schedule);
    FromOneRun(start, schedule, base);
    CompletionIsShown(base, txId);
    forall id | id in s.calls && s.calls[id].Returned?
      ensures s.calls[id].op == Finished(base, txId)
    {
      assert CallFits(s, id) && CallCompletes(s, s.calls[id], base);
    }
  }

  lemma {:induction false} TransactionStays(s: State, schedule: Schedule)
    requires Runnable(s, schedule)
    ensures Run(s, schedule).txId == s.txId
    decreases |schedule|
  {
    if schedule != [] {
      TransactionStays(Apply(s, schedule[0].0, schedule[0].1), schedule[1..]);
    }
  }

  // ---------------------------------------------------------------- the ledger of effects

  predicate StoredHas(s: State, effect: Effect) {
    s.stored.Some? && Flag(s.stored.value, effect)
  }

  predicate SameFlags(s: State, op: Operation) {
    && op.finalized == StoredHas(s, Finalize)
    && op.deliveriesDrained == StoredHas(s, Drain)
    && op.transactionPersisted == StoredHas(s, Persist)
  }

  /**
   An entry that starts a completion of its own, or finds nothing to do, still sees the stored flags. What a call
   read does not matter when it joins a completion that is under way.
   */
  predicate Fresh(s: State, id: nat, step: Step)
    requires Enabled(s, id, step)
  {
    step.Enter? && (s.inFlight.None? || IsAlreadyCompleted(s.calls[id].snapshot)) ==> SameFlags(s, s.calls[id].snapshot)
  }

  predicate AllFresh(s: State, schedule: Schedule)
    requires Runnable(s, schedule)
    decreases |schedule|
  {
    schedule != [] ==>
      && Fresh(s, schedule[0].0, schedule[0].1)
      && AllFresh(Apply(s, schedule[0].0, schedule[0].1), schedule[1..])
  }

  datatype Owner = Nobody | Owner(op: Operation, stage: Stage)

  function OwnerOf(s: State): Owner {
    if s.inFlight.Some? && s.inFlight.value in s.calls && s.calls[s.inFlight.value].Owning? then
      Owner(s.calls[s.inFlight.value].op, s.calls[s.inFlight.value].stage)
    else Nobody
  }

  /** The owner has run `effect` and its flag is not stored yet, nor given up. */
  predicate InHand(owner: Owner, effect: Effect) {
    owner.Owner? && owner.stage == SavingFlag(effect)
  }

  predicate StoredCompleted(s: State) {
    StoredHas(s, Finalize) && StoredHas(s, Drain) && StoredHas(s, Persist)
  }

  /**
   The ledger of one effect, given whether its flag was stored at the start (`before`): it has run exactly
   when its flag is new, and the owner's record knows of it exactly when it is stored or in hand.
   */
  predicate Ledger(s: State, effect: Effect, before: bool) {
    var owner := OwnerOf(s);
    && (before ==> StoredHas(s, effect))
    && !(StoredHas(s, effect) && InHand(owner, effect))
    && s.runs[effect] == (if !before && (StoredHas(s, effect) || InHand(owner, effect)) then 1 else 0)
    && (owner.Owner? ==> Flag(owner.op, effect) == (StoredHas(s, effect) || InHand(owner, effect)))
  }

  predicate Ledgers(s: State, start: State) {
    && Ledger(s, Finalize, StoredHas(start, Finalize))
    && Ledger(s, Drain, StoredHas(start, Drain))
    && Ledger(s, Persist, StoredHas(start, Persist))
  }

  /** Calls that are done, or have nothing to do, stand before a completed record. */
  predicate DoneFits(s: State) {
    && (forall id :: id in s.calls && (s.calls[id].SavingCompleted? || s.calls[id].Returned?) ==> StoredCompleted(s))
    && (OwnerOf(s).Owner? && OwnerOf(s).stage.Resolved? ==> StoredCompleted(s))
  }

  predicate FreshInv(s: State, start: State) {
    Inv(s) && Ledgers(s, start) && DoneFits(s)
  }

  // ---------------------------------------------------------------- steps that leave the ledger alone

  /** Steps of calls that do not own the completion and do not start one. */
  predicate Aside(s: State, id: nat, step: Step)
    requires Enabled(s, id, step)
  {
    match step
    case Arrive(_) => true
    case ReadStore => true
    case JoinerResumes => true
    case Enter => s.inFlight.Some? || IsAlreadyCompleted(s.calls[id].snapshot)
    case _ => false
  }

  lemma AsideKeepsOwner(s: State, id: nat, step: Step)
    requires Inv(s) && Enabled(s, id, step) && Aside(s, id, step)
    ensures var t := Apply(s, id, step);
            OwnerOf(t) == OwnerOf(s) && t.stored == s.stored && t.runs == s.runs
  {
  }

  lemma AsideKeepsLedgers(s: State, start: State, id: nat, step: Step)
    requires FreshInv(s, start) && Enabled(s, id, step) && Aside(s, id, step) && Fresh(s, id, step)
    ensures Ledgers(Apply(s, id, step), start)
  {
    AsideKeepsOwner(s, id, step);
    var t := Apply(s, id, step);
    assert Ledger(t, Finalize, StoredHas(start, Finalize)) by { assert Ledger(s, Finalize, StoredHas(start, Finalize)); }
    assert Ledger(t, Drain, StoredHas(start, Drain)) by { assert Ledger(s, Drain, StoredHas(start, Drain)); }
    assert Ledger(t, Persist, StoredHas(start, Persist)) by { assert Ledger(s, Persist, StoredHas(start, Persist)); }
  }

  lemma AsideKeepsDone(s: State, start: State, id: nat, step: Step)
    requires FreshInv(s, start) && Enabled(s, id, step) && Aside(s, id, step) && Fresh(s, id, step)
    ensures DoneFits(Apply(s, id, step))
  {
    AsideKeepsOwner(s, id, step);
    var t := Apply(s, id, step);
    forall other | other in t.calls && (t.calls[other].SavingCompleted? || t.calls[other].Returned?)
      ensures StoredCompleted(t)
    {
      if other == id {
        JustDone(s, start, id, step);
      }
    }
  }

  /** A call that turns out done by such a step found a completed record. */
  lemma JustDone(s: State, start: State, id: nat, step: Step)
    requires FreshInv(s, start) && Enabled(s, id, step) && Aside(s, id, step) && Fresh(s, id, step)
    requires Apply(s, id, step).calls[id].SavingCompleted? || Apply(s, id, step).calls[id].Returned?
    ensures StoredCompleted(s)
  {
    if step.JoinerResumes? {
      assert CallFits(s, id) && CallFits(s, s.calls[id].owner);
    }
  }

  // ---------------------------------------------------------------- steps of the owner

  lemma RegisterKeeps(s: State, start: State, id: nat)
    requires FreshInv(s, start) && Enabled(s, id, Enter) && !Aside(s, id, Enter) && Fresh(s, id, Enter)
    ensures Ledgers(Apply(s, id, Enter), start) && DoneFits(Apply(s, id, Enter))
  {
    var t := Apply(s, id, Enter);
    var op := s.calls[id].snapshot;
    assert OwnerOf(s) == Nobody && OwnerOf(t) == Owner(op, NextStage(op)) && t.stored == s.stored && t.runs == s.runs;
  }

  lemma PortKeeps(s: State, start: State, id: nat, step: Step)
    requires FreshInv(s, start) && Enabled(s, id, step) && (step.PortDone? || step.PortThrows?)
    ensures Ledgers(Apply(s, id, step), start) && DoneFits(Apply(s, id, step))
  {
    assert CallFits(s, id);
    var t := Apply(s, id, step);
    var Owning(op, InPort(effect)) := s.calls[id];
    assert OwnerOf(s) == Owner(op, InPort(effect)) && t.stored == s.stored;
    if step.PortDone? {
      assert OwnerOf(t) == Owner(WithFlag(op, effect), SavingFlag(effect)) && t.runs == s.runs + multiset{effect};
    } else {
      assert OwnerOf(t) == Owner(op, Broken) && t.runs == s.runs;
    }
  }

  lemma SaveOfCompletedKeeps(s: State, start: State, id: nat)
    requires FreshInv(s, start) && Enabled(s, id, SaveDone) && s.calls[id].SavingCompleted?
    ensures Ledgers(Apply(s, id, SaveDone), start) && DoneFits(Apply(s, id, SaveDone))
  {
    assert CallFits(s, id);
    var t := Apply(s, id, SaveDone);
    assert OwnerOf(t) == OwnerOf(s) && t.runs == s.runs && StoredCompleted(s) && StoredCompleted(t);
  }

  lemma SaveOfOwnerKeeps(s: State, start: State, id: nat)
    requires FreshInv(s, start) && Enabled(s, id, SaveDone) && s.calls[id].Owning?
    ensures Ledgers(Apply(s, id, SaveDone), start) && DoneFits(Apply(s, id, SaveDone))
  {
    assert CallFits(s, id);
    var t := Apply(s, id, SaveDone);
    var Owning(op, stage) := s.calls[id];
    assert OwnerOf(s) == Owner(op, stage) && t.stored == Some(op) && t.runs == s.runs;
    assert OwnerOf(t) == Owner(op, if stage.SavingFlag? then StageAfter(op, stage.effect) else Resolved);
    assert StoredCompleted(s) ==> StoredCompleted(t);
  }

  lemma FinishKeeps(s: State, start: State, id: nat)
    requires FreshInv(s, start) && Enabled(s, id, Finish)
    ensures Ledgers(Apply(s, id, Finish), start) && DoneFits(Apply(s, id, Finish))
  {
    assert CallFits(s, id);
    var t := Apply(s, id, Finish);
    assert OwnerOf(s) == Owner(s.calls[id].op, s.calls[id].stage) && OwnerOf(t) == Nobody;
    assert t.stored == s.stored && t.runs == s.runs;
  }

  lemma FreshStep(s: State, start: State, id: nat, step: Step)
    requires FreshInv(s, start) && Enabled(s, id, step) && Fresh(s, id, step)
    ensures FreshInv(Apply(s, id, step), start)
  {
    InvStep(s, id, step);
    if Aside(s, id, step) {
      AsideKeepsLedgers(s, start, id, step);
      AsideKeepsDone(s, start, id, step);
    } else {
      match step
      case Enter => RegisterKeeps(s, start, id);
      case PortDone => PortKeeps(s, start, id, step);
      case PortThrows => PortKeeps(s, start, id, step);
      case SaveDone =>
        if s.calls[id].SavingCompleted? {
          SaveOfCompletedKeeps(s, start, id);
        } else {
          SaveOfOwnerKeeps(s, start, id);
        }
      case Finish => FinishKeeps(s, start, id);
    }
  }

  lemma {:induction false} FreshRun(s: State, start: State, schedule: Schedule)
    requires FreshInv(s, start) && Runnable(s, schedule) && AllFresh(s, schedule)
    ensures FreshInv(Run(s, schedule), start)
    decreases |schedule|
  {
    if schedule != [] {
      FreshStep(s, start, schedule[0].0, schedule[0].1);
      FreshRun(Apply(s, schedule[0].0, schedule[0].1), start, schedule[1..]);
    }
  }

  /**
   If every entry that does not join still sees the stored flags, each effect runs at most once however the calls
   overlap, never if its flag was stored at the start, and exactly once if it was not and any call returned.
   */
  lemma ExactlyOnce(txId: string, stored: Option<Operation>, schedule: Schedule, effect: Effect)
    requires Runnable(Initial(txId, stored), schedule) && AllFresh(Initial(txId, stored), schedule)
    ensures var start := Initial(txId, stored);
            var s := Run(start, schedule);
            && s.runs[effect] <= 1
            && (StoredHas(start, effect) ==> s.runs[effect] == 0)
            && (!StoredHas(start, effect) && (exists id :: id in s.calls && s.calls[id].Returned?) ==>
                  s.runs[effect] == 1)
  {
    var start := Initial(txId, stored);
    FreshRun(start, start, schedule);
    assert Ledger(Run(start, schedule), effect, StoredHas(start, effect));
  }

  // ---------------------------------------------------------------- reading and entering as one step

  predicate NoFlags(op: Operation) {
    !op.finalized && !op.deliveriesDrained && !op.transactionPersisted
  }

  /** Every entry directly follows its own call's store read. */
  predicate Atomic(schedule: Schedule) {
    forall i :: 0 < i < |schedule| && schedule[i].1.Enter? ==> schedule[i - 1] == (schedule[i].0, ReadStore)
  }

  /** While nothing is stored, calls bring records without flags. */
  predicate PlainCalls(s: State) {
    s.stored.Some? || forall id :: id in s.calls && s.calls[id].Reading? ==> NoFlags(s.calls[id].input)
  }

  predicate PlainInputs(s: State, schedule: Schedule) {
    && PlainCalls(s)
    && (s.stored.Some? || forall i :: 0 <= i < |schedule| && schedule[i].1.Arrive? ==> NoFlags(schedule[i].1.input))
  }

  lemma PlainStep(s: State, schedule: Schedule)
    requires schedule != [] && Enabled(s, schedule[0].0, schedule[0].1) && PlainInputs(s, schedule)
    ensures PlainInputs(Apply(s, schedule[0].0, schedule[0].1), schedule[1..])
  {
    var t := Apply(s, schedule[0].0, schedule[0].1);
    if t.stored.None? {
      forall id | id in t.calls && t.calls[id].Reading?
        ensures NoFlags(t.calls[id].input)
      {
      }
    }
  }

  lemma {:induction false} AtomicIsFresh(s: State, schedule: Schedule)
    requires Runnable(s, schedule) && Atomic(schedule) && PlainInputs(s, schedule)
    requires schedule != [] ==> Fresh(s, schedule[0].0, schedule[0].1)
    ensures AllFresh(s, schedule)
    decreases |schedule|
  {
    if schedule != [] {
      var (id, step) := schedule[0];
      var rest := schedule[1..];
      var t := Apply(s, id, step);
      PlainStep(s, schedule);
      assert forall i :: 0 < i < |rest| ==> rest[i] == schedule[i + 1] && rest[i - 1] == schedule[i];
      if rest != [] && rest[0].1.Enter? {
        assert schedule[1].1.Enter? && schedule[0] == (schedule[1].0, ReadStore);
      }
      AtomicIsFresh(t, rest);
    }
  }

  /** If each call's store read and look at the map are one step, every effect runs exactly once, as `ExactlyOnce` says. */
  lemma AtomicReadsRunOnce(txId: string, stored: Option<Operation>, schedule: Schedule, effect: Effect)
    requires Runnable(Initial(txId, stored), schedule) && Atomic(schedule)
    requires PlainInputs(Initial(txId, stored), schedule)
    ensures var start := Initial(txId, stored);
            var s := Run(start, schedule);
            && s.runs[effect] <= 1
            && (StoredHas(start, effect) ==> s.runs[effect] == 0)
            && (!StoredHas(start, effect) && (exists id :: id in s.calls && s.calls[id].Returned?) ==>
                  s.runs[effect] == 1)
  {
    AtomicIsFresh(Initial(txId, stored), schedule);
    ExactlyOnce(txId, stored, schedule, effect);
  }

  // ---------------------------------------------------------------- an owner that runs to its end

  lemma RunStep(s: State, id: nat, step: Step, rest: Schedule)
    requires Enabled(s, id, step) && Runnable(Apply(s, id, step), rest)
    ensures Runnable(s, [(id, step)] + rest)
    ensures Run(s, [(id, step)] + rest) == Run(Apply(s, id, step), rest)
    ensures AllFresh(s, [(id, step)] + rest) <==> Fresh(s, id, step) && AllFresh(Apply(s, id, step), rest)
  {
    assert ([(id, step)] + rest)[1..] == rest;
  }

  lemma {:induction false} RunConcat(s: State, first: Schedule, second: Schedule)
    requires Runnable(s, first) && Runnable(Run(s, first), second)
    ensures Runnable(s, first + second) && Run(s, first + second) == Run(Run(s, first), second)
    decreases |first|
  {
    if first == [] {
      assert first + second == second;
    } else {
      var (id, step) := first[0];
      RunConcat(Apply(s, id, step), first[1..], second);
      assert first + second == [(id, step)] + (first[1..] + second);
      RunStep(s, id, step, first[1..] + second);
    }
  }

  /** The effects whose flags a record lacks. */
  function Missing(op: Operation): multiset<Effect> {
    (if op.finalized then multiset{} else multiset{Finalize})
    + (if op.deliveriesDrained then multiset{} else multiset{Drain})
    + (if op.transactionPersisted then multiset{} else multiset{Persist})
  }

  function AllSet(op: Operation): Operation {
    op.(finalized := true, deliveriesDrained := true, transactionPersisted := true)
  }

  function MissingCount(op: Operation): nat {
    (if op.finalized then 0 else 1) + (if op.deliveriesDrained then 0 else 1) + (if op.transactionPersisted then 0 else 1)
  }

  /** The state an owner leaves when it runs to its end undisturbed: every effect its record lacks has run once more. */
  function AfterOwner(s: State, id: nat, op: Operation): State {
    State(s.txId, Some(AllSet(op)), None, s.calls[id := Returned(AllSet(op))], s.runs + Missing(op))
  }

  lemma OwnerRunsOneEffect(s: State, id: nat, op: Operation, effect: Effect)
    requires id in s.calls && s.calls[id] == Owning(op, NextStage(op)) && NextStage(op) == InPort(effect)
    ensures Enabled(s, id, PortDone) && Enabled(Apply(s, id, PortDone), id, SaveDone)
    ensures var next := WithFlag(op, effect);
            && Apply(Apply(s, id, PortDone), id, SaveDone)
               == State(s.txId, Some(next), s.inFlight, s.calls[id := Owning(next, NextStage(next))], s.runs + multiset{effect})
            && Missing(op) == multiset{effect} + Missing(next) && MissingCount(next) < MissingCount(op)
            && AllSet(next) == AllSet(op)
  {
    var t := Apply(s, id, PortDone);
    assert t.calls[id] == Owning(WithFlag(op, effect), SavingFlag(effect));
    assert Apply(t, id, SaveDone).calls == s.calls[id := Owning(WithFlag(op, effect), NextStage(WithFlag(op, effect)))];
  }

  lemma OwnerEnds(s: State, id: nat, op: Operation)
    requires id in s.calls && s.calls[id] == Owning(op, LastSave) && IsAlreadyCompleted(op)
    ensures var last := [(id, SaveDone)] + [(id, Finish)];
            Runnable(s, last) && AllFresh(s, last) && Run(s, last) == AfterOwner(s, id, op)
  {
    var t := Apply(s, id, SaveDone);
    RunStep(t, id, Finish, []);
    RunStep(s, id, SaveDone, [(id, Finish)]);
    assert [(id, Finish)] + [] == [(id, Finish)];
    var u := Apply(t, id, Finish);
    assert u.calls == s.calls[id := Returned(AllSet(op))] && AllSet(op) == op;
    assert u.runs == s.runs + Missing(op);
  }

  lemma {:induction false} OwnerFinishes(s: State, id: nat, op: Operation) returns (rest: Schedule)
    requires id in s.calls && s.calls[id] == Owning(op, NextStage(op))
    ensures Runnable(s, rest) && AllFresh(s, rest) && Run(s, rest) == AfterOwner(s, id, op)
    decreases MissingCount(op)
  {
    if NextStage(op).LastSave? {
      OwnerEnds(s, id, op);
      rest := [(id, SaveDone)] + [(id, Finish)];
    } else {
      var effect := NextStage(op).effect;
      var next := WithFlag(op, effect);
      OwnerRunsOneEffect(s, id, op, effect);
      var t := Apply(s, id, PortDone);
      var u := Apply(t, id, SaveDone);
      var tail := OwnerFinishes(u, id, next);
      RunStep(t, id, SaveDone, tail);
      RunStep(s, id, PortDone, [(id, SaveDone)] + tail);
      rest := [(id, PortDone)] + ([(id, SaveDone)] + tail);
      FinishedTwice(s, u, id, op, next, effect);
    }
  }

  lemma FinishedTwice(s: State, u: State, id: nat, op: Operation, next: Operation, effect: Effect)
    requires u.txId == s.txId && u.calls == s.calls[id := Owning(next, NextStage(next))]
    requires u.runs == s.runs + multiset{effect} && AllSet(next) == AllSet(op)
    requires Missing(op) == multiset{effect} + Missing(next)
    ensures AfterOwner(u, id, next) == AfterOwner(s, id, op)
  {
    assert u.runs + Missing(next) == s.runs + Missing(op);
  }

  // ---------------------------------------------------------------- freshness is exactly what is needed

  /** What a call has read lies between the flags stored at the start and those stored now. */
  predicate Between(snapshot: Operation, s: State, start: State, effect: Effect) {
    && (StoredHas(start, effect) ==> Flag(snapshot, effect))
    && (Flag(snapshot, effect) ==> StoredHas(s, effect))
  }

  predicate Snapshots(s: State, start: State) {
    forall id :: id in s.calls && s.calls[id].HasRead? ==>
      && Between(s.calls[id].snapshot, s, start, Finalize)
      && Between(s.calls[id].snapshot, s, start, Drain)
      && Between(s.calls[id].snapshot, s, start, Persist)
  }

  /** A stored flag stays stored. */
  lemma StoredGrows(s: State, start: State, id: nat, step: Step, effect: Effect)
    requires FreshInv(s, start) && Enabled(s, id, step) && StoredHas(s, effect)
    ensures StoredHas(Apply(s, id, step), effect)
  {
    assert Ledger(s, effect, StoredHas(start, effect));
    if step.SaveDone? {
      assert CallFits(s, id);
    }
  }

  lemma ReadIsBetween(s: State, start: State, id: nat, effect: Effect)
    requires FreshInv(s, start) && PlainCalls(s) && Enabled(s, id, ReadStore)
    ensures Between(Apply(s, id, ReadStore).calls[id].snapshot, s, start, effect)
  {
    assert Ledger(s, effect, StoredHas(start, effect));
  }

  lemma SnapshotStep(s: State, start: State, id: nat, step: Step)
    requires FreshInv(s, start) && PlainCalls(s) && Snapshots(s, start) && Enabled(s, id, step)
    ensures Snapshots(Apply(s, id, step), start)
  {
    var t := Apply(s, id, step);
    forall effect | StoredHas(s, effect)
      ensures StoredHas(t, effect)
    {
      StoredGrows(s, start, id, step, effect);
    }
    if step.ReadStore? {
      ReadIsBetween(s, start, id, Finalize);
      ReadIsBetween(s, start, id, Drain);
      ReadIsBetween(s, start, id, Persist);
    }
    forall other | other in t.calls && t.calls[other].HasRead?
      ensures Between(t.calls[other].snapshot, t, start, Finalize)
      ensures Between(t.calls[other].snapshot, t, start, Drain)
      ensures Between(t.calls[other].snapshot, t, start, Persist)
    {
      if other != id {
        assert t.calls[other] == s.calls[other];
      }
    }
  }

  lemma {:induction false} SnapshotRun(s: State, start: State, schedule: Schedule)
    requires FreshInv(s, start) && PlainInputs(s, schedule) && Snapshots(s, start)
    requires Runnable(s, schedule) && AllFresh(s, schedule)
    ensures FreshInv(Run(s, schedule), start) && Snapshots(Run(s, schedule), start)
    decreases |schedule|
  {
    if schedule != [] {
      var (id, step) := schedule[0];
      FreshStep(s, start, id, step);
      SnapshotStep(s, start, id, step);
      PlainStep(s, schedule);
      SnapshotRun(Apply(s, id, step), start, schedule[1..]);
    }
  }

  /** In a reached state, an entry that is not fresh starts a completion and lacks an effect that has already run. */
  lemma StaleLacksAnEffect(s: State, start: State, id: nat) returns (effect: Effect)
    requires FreshInv(s, start) && Snapshots(s, start) && Enabled(s, id, Enter) && !Fresh(s, id, Enter)
    ensures s.inFlight.None? && !IsAlreadyCompleted(s.calls[id].snapshot)
    ensures !Flag(s.calls[id].snapshot, effect) && s.runs[effect] == 1
  {
    var op := s.calls[id].snapshot;
    effect := if op.finalized != StoredHas(s, Finalize) then Finalize
              else if op.deliveriesDrained != StoredHas(s, Drain) then Drain
              else Persist;
    assert Between(op, s, start, effect) && Ledger(s, effect, StoredHas(start, effect));
    assert OwnerOf(s) == Nobody;
  }

  /**
   The converse of `ExactlyOnce`: after any run in which every entry was fresh, the first entry that is not can be
   carried on, without another stale entry, to a state in which some effect has run twice.
   */
  lemma StaleEntryRepeats(txId: string, stored: Option<Operation>, schedule: Schedule, id: nat)
    returns (rest: Schedule, effect: Effect)
    requires var start := Initial(txId, stored);
             && PlainInputs(start, schedule) && Runnable(start, schedule) && AllFresh(start, schedule)
             && Enabled(Run(start, schedule), id, Enter) && !Fresh(Run(start, schedule), id, Enter)
    ensures var entered := Apply(Run(Initial(txId, stored), schedule), id, Enter);
            Runnable(entered, rest) && AllFresh(entered, rest) && Run(entered, rest).runs[effect] == 2
  {
    var start := Initial(txId, stored);
    SnapshotRun(start, start, schedule);
    rest, effect := StaleEntryAt(Run(start, schedule), start, id);
  }

  lemma StaleEntryAt(s: State, start: State, id: nat) returns (rest: Schedule, effect: Effect)
    requires FreshInv(s, start) && Snapshots(s, start) && Enabled(s, id, Enter) && !Fresh(s, id, Enter)
    ensures var entered := Apply(s, id, Enter);
            Runnable(entered, rest) && AllFresh(entered, rest) && Run(entered, rest).runs[effect] == 2
  {
    effect := StaleLacksAnEffect(s, start, id);
    rest := OwnerFinishes(Apply(s, id, Enter), id, s.calls[id].snapshot);
  }

  /** Every continuation without another stale entry runs no effect more than once. */
  ghost predicate RunsOnceFrom(s: State) {
    forall rest: Schedule, effect: Effect ::
      Runnable(s, rest) && AllFresh(s, rest) ==> Run(s, rest).runs[effect] <= 1
  }

  lemma RanAtMostOnce(s: State, start: State, effect: Effect)
    requires FreshInv(s, start)
    ensures s.runs[effect] <= 1
  {
    assert Ledger(s, effect, StoredHas(start, effect)) by {
      match effect case Finalize => case Drain => case Persist =>
    }
  }

  lemma FreshStaysSafe(s: State, start: State)
    requires FreshInv(s, start)
    ensures RunsOnceFrom(s)
  {
    forall rest: Schedule, effect: Effect | Runnable(s, rest) && AllFresh(s, rest)
      ensures Run(s, rest).runs[effect] <= 1
    {
      FreshRun(s, start, rest);
      RanAtMostOnce(Run(s, rest), start, effect);
    }
  }

  /** After any run of fresh entries, the next entry is safe if and only if what its call read is fresh. */
  lemma FreshEntryIsExactlySafe(txId: string, stored: Option<Operation>, schedule: Schedule, id: nat)
    requires var start := Initial(txId, stored);
             && PlainInputs(start, schedule) && Runnable(start, schedule) && AllFresh(start, schedule)
             && Enabled(Run(start, schedule), id, Enter)
    ensures var s := Run(Initial(txId, stored), schedule);
            Fresh(s, id, Enter) <==> RunsOnceFrom(Apply(s, id, Enter))
  {
    var start := Initial(txId, stored);
    var s := Run(start, schedule);
    var entered := Apply(s, id, Enter);
    if Fresh(s, id, Enter) {
      FreshRun(start, start, schedule);
      FreshStep(s, start, id, Enter);
      FreshStaysSafe(entered, start);
    } else {
      var rest, effect := StaleEntryRepeats(txId, stored, schedule, id);
      assert Run(entered, rest).runs[effect] == 2;
    }
  }

  // ---------------------------------------------------------------- a run that repeats everything

  /** Two calls arrive and both read before the first one enters. */
  lemma BothRead(op: Operation, txId: string)
    ensures var schedule := [(0, Arrive(op)), (1, Arrive(op)), (0, ReadStore), (1, ReadStore)];
            var read := WithSucceededPhase(op, txId);
            Runnable(Initial(txId, Some(op)), schedule)
            && Run(Initial(txId, Some(op)), schedule)
               == State(txId, Some(op), None, map[0 := HasRead(read), 1 := HasRead(read)], multiset{})
  {
    var s0 := Initial(txId, Some(op));
    var s1 := Apply(s0, 0, Arrive(op));
    var s2 := Apply(s1, 1, Arrive(op));
    var s3 := Apply(s2, 0, ReadStore);
    var s4 := Apply(s3, 1, ReadStore);
    RunStep(s3, 1, ReadStore, []);
    RunStep(s2, 0, ReadStore, [(1, ReadStore)]);
    RunStep(s1, 1, Arrive(op), [(0, ReadStore), (1, ReadStore)]);
    RunStep(s0, 0, Arrive(op), [(1, Arrive(op)), (0, ReadStore), (1, ReadStore)]);
    assert s4.calls == map[0 := s4.calls[0], 1 := s4.calls[1]];
    assert [(0, Arrive(op))] + [(1, Arrive(op)), (0, ReadStore), (1, ReadStore)]
        == [(0, Arrive(op)), (1, Arrive(op)), (0, ReadStore), (1, ReadStore)];
  }

  /** A call that has read an uncompleted record enters while nothing is under way, and runs to its end. */
  lemma EnterAndFinish(s: State, id: nat) returns (schedule: Schedule)
    requires id in s.calls && s.calls[id].HasRead? && s.inFlight.None? && !IsAlreadyCompleted(s.calls[id].snapshot)
    ensures Runnable(s, schedule) && Run(s, schedule) == AfterOwner(s, id, s.calls[id].snapshot)
  {
    var op := s.calls[id].snapshot;
    var entered := Apply(s, id, Enter);
    var rest := OwnerFinishes(entered, id, op);
    RunStep(s, id, Enter, rest);
    schedule := [(id, Enter)] + rest;
    assert AfterOwner(entered, id, op).calls == s.calls[id := Returned(AllSet(op))];
  }

  /**
   Stale entries are reachable from every stored record that is not completed yet, in particular from one without
   any flags: when both of two calls read before the first has stored, every missing effect runs twice, and both
   calls return normally.
   */
  lemma OverlappingReadsRunTwice(op: Operation, txId: string) returns (schedule: Schedule)
    requires !IsAlreadyCompleted(op)
    ensures Runnable(Initial(txId, Some(op)), schedule)
    ensures var s := Run(Initial(txId, Some(op)), schedule);
            && s.runs == Missing(op) + Missing(op)
            && s.calls.Keys == {0, 1} && s.calls[0].Returned? && s.calls[1].Returned?
    ensures NoFlags(op) ==>
              Run(Initial(txId, Some(op)), schedule).runs == multiset{Finalize, Finalize, Drain, Drain, Persist, Persist}
  {
    var s0 := Initial(txId, Some(op));
    var opening := [(0, Arrive(op)), (1, Arrive(op)), (0, ReadStore), (1, ReadStore)];
    BothRead(op, txId);
    var both := TwoReadersRepeat(Run(s0, opening), WithSucceededPhase(op, txId));
    RunConcat(s0, opening, both);
    schedule := opening + both;
  }

  /** Two calls that hold the same uncompleted read, run one after the other, repeat every effect it lacks. */
  lemma TwoReadersRepeat(s: State, op: Operation) returns (schedule: Schedule)
    requires s.calls == map[0 := HasRead(op), 1 := HasRead(op)] && s.inFlight.None? && !IsAlreadyCompleted(op)
    ensures Runnable(s, schedule)
    ensures var t := Run(s, schedule);
            && t.runs == s.runs + Missing(op) + Missing(op)
            && t.calls.Keys == {0, 1} && t.calls[0].Returned? && t.calls[1].Returned?
  {
    var first := EnterAndFinish(s, 0);
    var middle := Run(s, first);
    assert middle.calls[1] == HasRead(op);
    var second := EnterAndFinish(middle, 1);
    RunConcat(s, first, second);
    schedule := first + second;
  }
}
