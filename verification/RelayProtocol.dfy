/**
 The protocol a relay run follows, told as the history of everything the runtime asked of the outside
 world: store saves, wallet submissions, completion effects, relayer answers and crashes. `Legal` says
 what may come next after a history. The theorems below hold of every legal history of any length;
 `RelayRuntime` shows that every call of the runtime only ever writes legal histories.
 */
module RelayProtocol {
  import opened Common
  import opened RelayTypes

  datatype Event =
    | Began(key: Key, escrowSend: bool)
    | Saved(op: Operation)
    | DirectCalled(key: Key)
    | DirectFailed(key: Key)
    | Receipt(key: Key, txId: string)
    | Ran(effect: Effect, key: Key, txId: string)
    | Refused(effect: Effect, key: Key)
    | Answered(key: Key, outcome: CreateOutcome)
    | RetryTaken(key: Key)
    | Reported(key: Key, answer: StatusAnswer)
    | Unanswered(key: Key)
    | Waited(key: Key, ms: real)
    | CrashHappened

  /** A history, newest event outermost. */
  datatype Trace = Start | Then(before: Trace, event: Event)

  /** `early` is an initial part of `t`. */
  predicate Earlier(early: Trace, t: Trace) {
    early == t || (t.Then? && Earlier(early, t.before))
  }

  lemma {:induction false} EarlierTransitive(a: Trace, b: Trace, c: Trace)
    requires Earlier(a, b) && Earlier(b, c)
    ensures Earlier(a, c)
  {
    if b != c {
      EarlierTransitive(a, b, c.before);
    }
  }

  /** From `early` to `t` the relayer was not asked for a status, and nobody waited. */
  predicate Calm(early: Trace, t: Trace) {
    early == t || (t.Then? && !t.event.Reported? && !t.event.Waited? && Calm(early, t.before))
  }

  lemma {:induction false} CalmTransitive(a: Trace, b: Trace, c: Trace)
    requires Calm(a, b) && Calm(b, c)
    ensures Calm(a, c)
  {
    if b != c {
      CalmTransitive(a, b, c.before);
    }
  }

  lemma CalmChains()
    ensures forall a, b, c {:trigger Calm(a, b), Calm(b, c)} :: Calm(a, b) && Calm(b, c) ==> Calm(a, c)
  {
    forall a, b, c | Calm(a, b) && Calm(b, c) ensures Calm(a, c) {
      CalmTransitive(a, b, c);
    }
  }

  lemma {:induction false} CalmIsEarlier(early: Trace, t: Trace)
    requires Calm(early, t)
    ensures Earlier(early, t)
  {
    if early != t {
      CalmIsEarlier(early, t.before);
    }
  }

  /** How often the relayer reported on an operation. */
  function Reports(t: Trace, k: Key): nat {
    if t.Start? then 0 else Reports(t.before, k) + if t.event.Reported? && t.event.key == k then 1 else 0
  }

  function LastReport(t: Trace, k: Key): Option<StatusAnswer> {
    if t.Start? then None
    else if t.event.Reported? && t.event.key == k then Some(t.event.answer)
    else LastReport(t.before, k)
  }

  /** The delays waited through for an operation, in order. */
  function Waits(t: Trace, k: Key): seq<real> {
    if t.Start? then [] else Waits(t.before, k) + if t.event.Waited? && t.event.key == k then [t.event.ms] else []
  }

  lemma {:induction false} CalmKeepsReports(early: Trace, t: Trace, k: Key)
    requires Calm(early, t)
    ensures Reports(t, k) == Reports(early, k) && LastReport(t, k) == LastReport(early, k)
    ensures Waits(t, k) == Waits(early, k)
  {
    if early != t {
      CalmKeepsReports(early, t.before, k);
    }
  }

  /** The durable store is what the saves wrote, the last save of a key winning. */
  function StoreOf(t: Trace): map<Key, Operation> {
    match t
    case Start => map[]
    case Then(before, Saved(op)) => StoreOf(before)[op.key := op]
    case Then(before, _) => StoreOf(before)
  }

  predicate BegunAs(t: Trace, k: Key, escrowSend: bool) {
    t.Then? && (t.event == Began(k, escrowSend) || BegunAs(t.before, k, escrowSend))
  }

  predicate Confirmed(t: Trace, k: Key, txId: string) {
    t.Then? &&
    (|| t.event == Receipt(k, txId)
     || (t.event.Reported? && t.event.key == k && ReportsSuccess(t.event.answer)
         && t.event.answer.transactionHash == Some(txId))
     || Confirmed(t.before, k, txId))
  }

  predicate StoredFlag(t: Trace, k: Key, effect: Effect) {
    k in StoreOf(t) && Flag(StoreOf(t)[k], effect)
  }

  predicate JustRan(t: Trace, k: Key, effect: Effect) {
    t.Then? && t.event.Ran? && t.event.effect == effect && t.event.key == k
  }

  predicate JustReceived(t: Trace, k: Key) {
    t.Then? && t.event.Receipt? && t.event.key == k
  }

  predicate JustBegan(t: Trace, k: Key) {
    t.Then? && t.event.Began? && t.event.key == k
  }

  // ---------------------------------------------------------------- what may come next

  /** Finalize, drain and persist are due strictly in that order, each only while its flag is not stored. */
  predicate Due(t: Trace, k: Key, effect: Effect) {
    && !StoredFlag(t, k, effect)
    && (effect != Finalize ==> StoredFlag(t, k, Finalize))
    && (effect == Persist ==> StoredFlag(t, k, Drain))
  }

  predicate MaySave(t: Trace, op: Operation) {
    var k := op.key;
    && BegunAs(t, k, op.escrowSend)
    && op.finalized == (StoredFlag(t, k, Finalize) || JustRan(t, k, Finalize))
    && op.deliveriesDrained == (StoredFlag(t, k, Drain) || JustRan(t, k, Drain))
    && op.transactionPersisted == (StoredFlag(t, k, Persist) || JustRan(t, k, Persist))
    && (k in StoreOf(t) && HasLeft(StoreOf(t)[k].phase) ==> HasLeft(op.phase))
    && (t.Then? && t.event.Ran? && t.event.key == k ==> op.phase == Phase.Succeeded)
  }

  /** The record's three flags are the stored ones. */
  predicate FlagsAsStored(t: Trace, op: Operation) {
    && op.finalized == StoredFlag(t, op.key, Finalize)
    && op.deliveriesDrained == StoredFlag(t, op.key, Drain)
    && op.transactionPersisted == StoredFlag(t, op.key, Persist)
  }

  predicate MayCallDirect(t: Trace, k: Key) {
    && BegunAs(t, k, false)
    && if k in StoreOf(t) then CanOfferDirectSubmission(StoreOf(t)[k]) else JustBegan(t, k)
  }

  /** A wallet receipt is followed by its completion, and an effect by the save of its flag, unless cut. */
  predicate Continues(t: Trace, e: Event) {
    t.Start? || e.CrashHappened? ||
    match t.event
    case DirectCalled(k) => (e.Receipt? && e.key == k) || e == DirectFailed(k)
    case Receipt(k, txId) => e == Ran(Finalize, k, txId) || e == Refused(Finalize, k)
    case Ran(effect, k, txId) => e.Saved? && e.op.key == k && e.op.transactionHash == Some(txId)
    case _ => true
  }

  predicate Legal(t: Trace, e: Event) {
    && Continues(t, e)
    && match e
       case Began(k, _) => !BegunAs(t, k, true) && !BegunAs(t, k, false)
       case Saved(op) => MaySave(t, op)
       case DirectCalled(k) => MayCallDirect(t, k)
       case DirectFailed(k) => t.Then? && t.event == DirectCalled(k)
       case Receipt(k, _) => t.Then? && t.event == DirectCalled(k)
       case Ran(effect, k, txId) => Due(t, k, effect) && Confirmed(t, k, txId)
       case Refused(effect, k) => Due(t, k, effect)
       case Answered(k, _) => k in StoreOf(t) && StoreOf(t)[k].phase == Phase.Prepared
       case RetryTaken(k) => k in StoreOf(t) && CanRetryRelayAttempt(StoreOf(t)[k])
       case Reported(k, _) => k in StoreOf(t) && Present(StoreOf(t)[k].relayRequestId)
       case Unanswered(k) => BegunAs(t, k, true) || BegunAs(t, k, false)
       case Waited(k, _) => k in StoreOf(t)
       case CrashHappened => true
  }

  predicate LegalTrace(t: Trace) {
    t.Then? ==> LegalTrace(t.before) && Legal(t.before, t.event)
  }

  /** No call is in the middle of a wallet submission or of an effect. */
  predicate Quiet(t: Trace) {
    t.Then? ==> !t.event.DirectCalled? && !t.event.Receipt? && !t.event.Ran?
  }

  // ---------------------------------------------------------------- counting

  function Receipts(t: Trace, k: Key): nat {
    if t.Start? then 0
    else Receipts(t.before, k) + if t.event.Receipt? && t.event.key == k then 1 else 0
  }

  function Runs(t: Trace, k: Key, effect: Effect): nat {
    if t.Start? then 0 else Runs(t.before, k, effect) + if JustRan(t, k, effect) then 1 else 0
  }

  /** Crashes that fell between an effect and the save of its flag. */
  function LostRuns(t: Trace, k: Key, effect: Effect): nat {
    if t.Start? then 0
    else LostRuns(t.before, k, effect) +
         if t.event.CrashHappened? && JustRan(t.before, k, effect) then 1 else 0
  }

  /** Crashes, plus finalize calls for `k` that threw. */
  function Interruptions(t: Trace, k: Key): nat {
    if t.Start? then 0
    else Interruptions(t.before, k) +
         if t.event.CrashHappened? || t.event == Refused(Finalize, k) then 1 else 0
  }

  predicate CrashFree(t: Trace) {
    t.Then? ==> !t.event.CrashHappened? && CrashFree(t.before)
  }

  // ---------------------------------------------------------------- what every legal history keeps

  lemma {:induction false} BegunStays(early: Trace, t: Trace, k: Key, escrowSend: bool)
    requires Earlier(early, t) && BegunAs(early, k, escrowSend)
    ensures BegunAs(t, k, escrowSend)
  {
    if early != t {
      BegunStays(early, t.before, k, escrowSend);
    }
  }

  /** An operation is begun as an escrow send or as a plain one, never as both. */
  lemma {:induction false} BegunOneWay(t: Trace, k: Key)
    requires LegalTrace(t)
    ensures !(BegunAs(t, k, true) && BegunAs(t, k, false))
  {
    if t.Then? {
      BegunOneWay(t.before, k);
    }
  }

  /** Every stored record carries its own key and the escrow mark it was begun with. */
  lemma {:induction false} StoredWasBegun(t: Trace, k: Key)
    requires LegalTrace(t) && k in StoreOf(t)
    ensures StoreOf(t)[k].key == k && BegunAs(t, k, StoreOf(t)[k].escrowSend)
  {
    if !(t.event.Saved? && t.event.op.key == k) {
      StoredWasBegun(t.before, k);
    }
  }

  /** Stored flags always form an initial part of finalize, drain, persist. */
  lemma {:induction false} FlagsInOrder(t: Trace, k: Key)
    requires LegalTrace(t)
    ensures StoredFlag(t, k, Persist) ==> StoredFlag(t, k, Drain)
    ensures StoredFlag(t, k, Drain) ==> StoredFlag(t, k, Finalize)
  {
    if t.Then? {
      FlagsInOrder(t.before, k);
      if t.event.Saved? && t.event.op.key == k && t.before.Then? && t.before.event.Ran? {
        assert Due(t.before.before, t.before.event.key, t.before.event.effect);
        assert MaySave(t.before, t.event.op);
      }
    }
  }

  lemma {:induction false} FlagStays(early: Trace, t: Trace, k: Key, effect: Effect)
    requires LegalTrace(t) && Earlier(early, t) && StoredFlag(early, k, effect)
    ensures StoredFlag(t, k, effect)
  {
    if early != t {
      FlagStays(early, t.before, k, effect);
    }
  }

  lemma {:induction false} LeftStays(early: Trace, t: Trace, k: Key)
    requires LegalTrace(t) && Earlier(early, t)
    requires k in StoreOf(early) && HasLeft(StoreOf(early)[k].phase)
    ensures k in StoreOf(t) && HasLeft(StoreOf(t)[k].phase)
  {
    if early != t {
      LeftStays(early, t.before, k);
    }
  }

  // ---------------------------------------------------------------- the wallet is reached rarely

  /** Once the store holds a phase other than prepared or admission_failed, the wallet is never reached again. */
  lemma NoDirectAfterLeaving(early: Trace, t: Trace, k: Key)
    requires LegalTrace(t) && t.Then? && Earlier(early, t.before)
    requires k in StoreOf(early) && HasLeft(StoreOf(early)[k].phase)
    ensures t.event != DirectCalled(k)
  {
    LeftStays(early, t.before, k);
  }

  /** An escrow send never reaches the wallet. */
  lemma {:induction false} EscrowNeverDirect(t: Trace, k: Key)
    requires LegalTrace(t) && t.Then? && BegunAs(t, k, true)
    ensures t.event != DirectCalled(k)
    ensures Receipts(t, k) == 0
  {
    BegunOneWay(t.before, k);
    if t.event == Began(k, true) {
      NotBegunNoReceipts(t.before, k);
    } else {
      EscrowNeverDirect(t.before, k);
    }
  }

  lemma {:induction false} NotBegunNoReceipts(t: Trace, k: Key)
    requires LegalTrace(t) && !BegunAs(t, k, true) && !BegunAs(t, k, false)
    ensures Receipts(t, k) == 0 && k !in StoreOf(t)
    ensures t.Then? ==> t.event != DirectCalled(k)
  {
    if t.Then? {
      NotBegunNoReceipts(t.before, k);
    }
  }

  /** A receipt whose completion has not been cut: it is being completed, or the record has left. */
  predicate Held(t: Trace, k: Key) {
    || JustReceived(t, k)
    || JustRan(t, k, Finalize)
    || (k in StoreOf(t) && HasLeft(StoreOf(t)[k].phase))
  }

  /** The wallet submits an operation at most once more than its completion was interrupted. */
  lemma {:induction false} ReceiptsBounded(t: Trace, k: Key)
    requires LegalTrace(t)
    ensures Receipts(t, k) <= Interruptions(t, k) + 1
    ensures !Held(t, k) ==> Receipts(t, k) <= Interruptions(t, k)
  {
    if t.Then? {
      var b := t.before;
      ReceiptsBounded(b, k);
      match t.event
      case Receipt(k', _) =>
        if k' == k {
          assert MayCallDirect(b.before, k);
          ReceiptsBounded(b.before, k);
          if k !in StoreOf(b.before) {
            NotBegunNoReceipts(b.before.before, k);
          }
        }
      case Saved(op) =>
        if op.key == k && JustRan(b, k, Finalize) {
          assert MaySave(b, op);
        }
      case _ =>
    }
  }

  /** Without crashes and with completions that do not throw, there is at most one receipt. */
  lemma AtMostOneReceipt(t: Trace, k: Key)
    requires LegalTrace(t) && Interruptions(t, k) == 0
    ensures Receipts(t, k) <= 1
  {
    ReceiptsBounded(t, k);
  }

  /** A receipt in hand: just received, or its finalize has just run and is not saved yet. */
  predicate ReceiptInHand(t: Trace, k: Key) {
    JustReceived(t, k) || (JustRan(t, k, Finalize) && JustReceived(t.before, k))
  }

  /** Receipts whose completion was cut or refused before the finalize flag was saved. */
  function LostReceipts(t: Trace, k: Key): nat {
    if t.Start? then 0
    else LostReceipts(t.before, k) +
         if ReceiptInHand(t.before, k) && (t.event.CrashHappened? || t.event == Refused(Finalize, k)) then 1 else 0
  }

  /** Receipts whose finalize flag was saved. */
  function SavedReceipts(t: Trace, k: Key): nat {
    if t.Start? then 0
    else SavedReceipts(t.before, k) +
         if ReceiptInHand(t.before, k) && t.event.Saved? && t.event.op.key == k then 1 else 0
  }

  /** A receipt is saved at most once, and then the record has left and no receipt is in hand or to come. */
  lemma {:induction false} SavedReceiptIsLast(t: Trace, k: Key)
    requires LegalTrace(t)
    ensures SavedReceipts(t, k) <= 1
    ensures SavedReceipts(t, k) == 1 ==>
              && k in StoreOf(t) && HasLeft(StoreOf(t)[k].phase) && !ReceiptInHand(t, k)
              && t.event != DirectCalled(k)
  {
    if t.Then? {
      SavedReceiptIsLast(t.before, k);
    }
  }

  /**
   The exact ledger of receipts: those lost to a crash or a throwing finalize before their flag was saved, the saved
   one, and the one in hand. The last two are at most one together.
   */
  lemma {:induction false} ReceiptsAreAccountedFor(t: Trace, k: Key)
    requires LegalTrace(t)
    ensures Receipts(t, k) == LostReceipts(t, k) + SavedReceipts(t, k) + if ReceiptInHand(t, k) then 1 else 0
    ensures SavedReceipts(t, k) + (if ReceiptInHand(t, k) then 1 else 0) <= 1
    ensures LostReceipts(t, k) <= Interruptions(t, k)
  {
    SavedReceiptIsLast(t, k);
    if t.Then? {
      ReceiptsAreAccountedFor(t.before, k);
    }
  }

  /** There is at most one receipt exactly when none was lost, or one was and no other was saved or is in hand. */
  lemma AtMostOneReceiptExactly(t: Trace, k: Key)
    requires LegalTrace(t)
    ensures Receipts(t, k) <= 1 <==>
              || LostReceipts(t, k) == 0
              || (LostReceipts(t, k) == 1 && SavedReceipts(t, k) == 0 && !ReceiptInHand(t, k))
  {
    ReceiptsAreAccountedFor(t, k);
  }

  /** A submission whose admission failed. */
  function FailedAdmission(k: Key): Trace {
    var prepared := BuildPrepared(NewOperation(k, false, "", false));
    Then(Then(Then(Start, Began(k, false)), Saved(prepared)), Saved(AdmissionFailure(prepared, INFRASTRUCTURE_FAILED)))
  }

  lemma FailedAdmissionIsLegal(k: Key)
    ensures LegalTrace(FailedAdmission(k)) && BegunAs(FailedAdmission(k), k, false) && CrashFree(FailedAdmission(k))
    ensures Receipts(FailedAdmission(k), k) == 0 && Interruptions(FailedAdmission(k), k) == 0
    ensures k in StoreOf(FailedAdmission(k)) && CanOfferDirectSubmission(StoreOf(FailedAdmission(k))[k])
  {
    var prepared := BuildPrepared(NewOperation(k, false, "", false));
    var t1 := Then(Start, Began(k, false));
    var t2 := Then(t1, Saved(prepared));
    assert BegunAs(t1, k, false) && StoreOf(t1) == map[] && LegalTrace(t1);
    assert CrashFree(t1) && Receipts(t1, k) == 0 && Interruptions(t1, k) == 0;
    assert BegunAs(t2, k, false) && StoreOf(t2) == map[k := prepared] && LegalTrace(t2);
    assert CrashFree(t2) && Receipts(t2, k) == 0 && Interruptions(t2, k) == 0;
  }

  /** A fallback submission that got a receipt, after `n` earlier ones whose finalize threw. */
  function Resubmitted(k: Key, n: nat): Trace {
    var before := if n == 0 then FailedAdmission(k) else Then(Resubmitted(k, n - 1), Refused(Finalize, k));
    Then(Then(before, DirectCalled(k)), Receipt(k, "receipt"))
  }

  /**
   The bound is reached for every number of interruptions: after a failed admission each fallback gets a receipt,
   its finalize throws, nothing is stored, and the next fallback is still allowed to submit.
   */
  lemma {:induction false} BoundIsReached(k: Key, n: nat)
    ensures LegalTrace(Resubmitted(k, n)) && CrashFree(Resubmitted(k, n))
    ensures Interruptions(Resubmitted(k, n), k) == n && Receipts(Resubmitted(k, n), k) == n + 1
    ensures StoreOf(Resubmitted(k, n)) == StoreOf(FailedAdmission(k)) && BegunAs(Resubmitted(k, n), k, false)
  {
    FailedAdmissionIsLegal(k);
    if n > 0 {
      BoundIsReached(k, n - 1);
      var refused := Then(Resubmitted(k, n - 1), Refused(Finalize, k));
      assert LegalTrace(refused) && CrashFree(refused) && BegunAs(refused, k, false);
      assert StoreOf(refused) == StoreOf(FailedAdmission(k));
      assert Interruptions(refused, k) == n && Receipts(refused, k) == n;
      Resubmit(k, refused);
    } else {
      Resubmit(k, FailedAdmission(k));
    }
  }

  lemma Resubmit(k: Key, t: Trace)
    requires LegalTrace(t) && CrashFree(t) && BegunAs(t, k, false)
    requires StoreOf(t) == StoreOf(FailedAdmission(k))
    requires k in StoreOf(t) && CanOfferDirectSubmission(StoreOf(t)[k])
    requires t.Then? ==> !t.event.DirectCalled? && !t.event.Receipt? && !t.event.Ran?
    ensures var next := Then(Then(t, DirectCalled(k)), Receipt(k, "receipt"));
            && LegalTrace(next) && CrashFree(next) && BegunAs(next, k, false) && StoreOf(next) == StoreOf(t)
            && Interruptions(next, k) == Interruptions(t, k) && Receipts(next, k) == Receipts(t, k) + 1
  {
    var called := Then(t, DirectCalled(k));
    assert LegalTrace(called) && CrashFree(called) && BegunAs(called, k, false) && StoreOf(called) == StoreOf(t);
    assert Interruptions(called, k) == Interruptions(t, k) && Receipts(called, k) == Receipts(t, k);
  }

  // ---------------------------------------------------------------- every effect is accounted for

  /**
   The exact ledger of an effect: it ran once for every crash that lost it, once more if its flag is
   stored, and once more if it has just run.
   */
  lemma {:induction false} RunsAreAccountedFor(t: Trace, k: Key, effect: Effect)
    requires LegalTrace(t)
    ensures Runs(t, k, effect) == LostRuns(t, k, effect)
                                  + (if StoredFlag(t, k, effect) then 1 else 0)
                                  + (if JustRan(t, k, effect) then 1 else 0)
  {
    if t.Then? {
      RunsAreAccountedFor(t.before, k, effect);
      if t.event.Saved? && t.event.op.key == k {
        assert MaySave(t.before, t.event.op);
        if JustRan(t.before, k, effect) {
          assert Due(t.before.before, k, effect);
        }
      }
    }
  }

  lemma {:induction false} NothingLostWithoutCrashes(t: Trace, k: Key, effect: Effect)
    requires CrashFree(t)
    ensures LostRuns(t, k, effect) == 0
  {
    if t.Then? {
      NothingLostWithoutCrashes(t.before, k, effect);
    }
  }

  /** An effect completes at most once plus the crashes that fell between it and its save. */
  lemma EffectAtMostOncePlusLosses(t: Trace, k: Key, effect: Effect)
    requires LegalTrace(t)
    ensures Runs(t, k, effect) <= 1 + LostRuns(t, k, effect)
    ensures CrashFree(t) ==> Runs(t, k, effect) <= 1
    ensures CrashFree(t) && StoredFlag(t, k, effect) ==> Runs(t, k, effect) == 1
  {
    RunsAreAccountedFor(t, k, effect);
    if t.Then? && JustRan(t, k, effect) {
      assert Due(t.before, k, effect);
    }
    if CrashFree(t) {
      NothingLostWithoutCrashes(t, k, effect);
    }
  }

  /** Once its flag is stored, an effect never runs again and its port is never called again. */
  lemma EffectNeverAgain(early: Trace, t: Trace, k: Key, effect: Effect)
    requires LegalTrace(t) && t.Then? && Earlier(early, t.before) && StoredFlag(early, k, effect)
    ensures !JustRan(t, k, effect) && t.event != Refused(effect, k)
    ensures StoredFlag(t, k, effect)
  {
    FlagStays(early, t.before, k, effect);
    FlagStays(early, t, k, effect);
  }

  /** A drain was preceded by a finalize, and a persist by both; every effect by a confirmed transaction. */
  lemma EffectsInOrder(t: Trace, k: Key, effect: Effect)
    requires LegalTrace(t) && JustRan(t, k, effect)
    ensures Confirmed(t.before, k, t.event.txId)
    ensures effect != Finalize ==> Runs(t.before, k, Finalize) >= 1
    ensures effect == Persist ==> Runs(t.before, k, Drain) >= 1
  {
    RunsAreAccountedFor(t.before, k, Finalize);
    RunsAreAccountedFor(t.before, k, Drain);
  }
}
