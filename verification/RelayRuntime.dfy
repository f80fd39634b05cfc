/**
 The relay runtime's public calls over a durable store. Every port may succeed, throw, or be cut by a
 crash, and the relayer answers anything; these choices are left open with `*`. The ghost `trace`
 records what happened. Every call keeps `Valid`, so every sequence of calls writes a legal history,
 and a call that ends normally states the exact record it stored.
 */
module RelayRuntime {
  import opened Common
  import opened RelayTypes
  import opened RelayProtocol

  /** The history after one effect step of a completion of `op`: nothing if its flag is set already. */
  ghost function EffectTrace(t: Trace, op: Operation, effect: Effect, txId: string): Trace {
    if Flag(op, effect) then t
    else Then(Then(t, Ran(effect, op.key, txId)), Saved(WithFlag(op, effect)))
  }

  /** The history after one uninterrupted completion of `op`, which is already in the succeeded phase. */
  ghost function CompletionTrace(t: Trace, op: Operation, txId: string): Trace {
    var op1 := WithFlag(op, Finalize);
    var op2 := WithFlag(op1, Drain);
    var t3 := EffectTrace(EffectTrace(EffectTrace(t, op, Finalize, txId), op1, Drain, txId), op2, Persist, txId);
    Then(t3, Saved(WithFlag(op2, Persist)))
  }

  /** The history after one uninterrupted poll of `op` that brought `answer`. */
  ghost function PollTrace(t: Trace, op: Operation, answer: StatusAnswer): Trace {
    var updated := ApplyStatus(op, answer);
    var saved := Then(Then(t, Reported(op.key, answer)), Saved(updated));
    if ReportsSuccess(answer) then
      CompletionTrace(saved, WithSucceededPhase(updated, answer.transactionHash.value), answer.transactionHash.value)
    else saved
  }

  lemma CompletedCompletion(t: Trace, op: Operation, txId: string)
    requires IsAlreadyCompleted(op)
    ensures CompletionTrace(t, op, txId) == Then(t, Saved(op))
  {
  }

  /** What a submission through the wallet leaves: the prepared record, completed. */
  ghost predicate CompletesSubmission(input: NewOperation, op: Operation, txId: string) {
    exists prepared ::
      ShowsSubmission(input, prepared, Phase.Prepared, None, None, None) && ShowsCompletion(prepared, op, txId)
  }

  /** The history goes on with the save of the prepared record, the relayer's answer, and the save of `op`. */
  ghost predicate PreparedFirst(before: Trace, t: Trace, input: NewOperation, outcome: CreateOutcome, op: Operation) {
    exists prepared ::
      && ShowsSubmission(input, prepared, Phase.Prepared, None, None, None)
      && t == Then(Then(Then(before, Saved(prepared)), Answered(input.key, outcome)), Saved(op))
  }

  lemma AdmissionsAreShown(op: Operation, outcome: CreateOutcome)
    ensures forall input :: ShowsSubmission(input, op, Phase.Prepared, None, None, None) ==>
              ShowsAdmission(input, AfterAdmission(op, outcome), outcome)
  {
    forall input | ShowsSubmission(input, op, Phase.Prepared, None, None, None)
      ensures ShowsAdmission(input, AfterAdmission(op, outcome), outcome)
    {
      AdmissionIsShown(input, outcome);
    }
  }

  /** The history goes on with the retry, the save of the retried record and one whole poll of it. */
  ghost predicate PolledAfterRetry(before: Trace, op: Operation, t: Trace, next: Operation, answer: StatusAnswer) {
    exists retried ::
      && ShowsRetry(op, retried) && ShowsPoll(retried, next, answer)
      && t == PollTrace(Then(Then(before, RetryTaken(op.key)), Saved(retried)), retried, answer)
  }

  class Runtime {
    var store: map<Key, Operation>
    ghost var trace: Trace
    /** What the last drain of this runtime answered. */
    ghost var drained: Option<string>
    const relayConfigured: bool
    const relayApiPresent: bool

    constructor (relayConfigured: bool, relayApiPresent: bool)
      ensures Valid() && store == map[] && trace == Start
      ensures this.relayConfigured == relayConfigured && this.relayApiPresent == relayApiPresent
    {
      store := map[];
      trace := Start;
      drained := None;
      this.relayConfigured := relayConfigured;
      this.relayApiPresent := relayApiPresent;
    }

    /** The history is legal and accounts for the whole store. */
    ghost predicate Coherent()
      reads this
    {
      LegalTrace(trace) && store == StoreOf(trace)
    }

    /** Between two calls, moreover, no submission or effect is in progress. */
    ghost predicate Valid()
      reads this
    {
      Coherent() && Quiet(trace)
    }

    /** Every record but the one under `key`. */
    ghost function Others(key: Key): map<Key, Operation>
      reads this
    {
      store - {key}
    }

    /** The call only adds to the history, and neither asks for a status nor waits. */
    twostate predicate Grows()
      reads this
    {
      Calm(old(trace), trace)
    }

    /**
     A call fails only for a reason the history ends with: the process died, or a port threw. So a call after which
     the history ends otherwise has ended with a value, unless its own checks refused it.
     */
    ghost predicate Explains<T>(e: Ended<T>)
      reads this
    {
      && (e.Crashed? ==> trace.Then? && trace.event.CrashHappened?)
      && (e.Threw? ==> trace.Then? && (trace.event.Refused? || trace.event.DirectFailed? || trace.event.Unanswered?))
    }

    // -------------------------------------------------------------- the outside world

    /** The process may die at any await, also between two calls. */
    method MayCrash() returns (e: Ended<()>)
      requires Coherent()
      modifies `trace
      ensures Coherent()
      ensures e.Done? || e.Crashed?
      ensures e.Done? ==> trace == old(trace)
      ensures e.Crashed? ==> trace == Then(old(trace), CrashHappened)
    {
      var dies: bool := *;
      if dies {
        trace := Then(trace, CrashHappened);
        return Crashed;
      }
      return Done(());
    }

    method Save(op: Operation) returns (e: Ended<()>)
      requires Coherent() && Legal(trace, Saved(op))
      modifies `store, `trace
      ensures Coherent()
      ensures e.Done? || e.Crashed?
      ensures e.Done? ==> store == old(store)[op.key := op] && trace == Then(old(trace), Saved(op))
      ensures e.Crashed? ==> store == old(store) && trace == Then(old(trace), CrashHappened)
      ensures Others(op.key) == old(Others(op.key))
    {
      var _ :- MayCrash();
      store := store[op.key := op];
      trace := Then(trace, Saved(op));
      return Done(());
    }

    method Read(key: Key) returns (e: Ended<Option<Operation>>)
      requires Coherent()
      modifies `trace
      ensures Coherent()
      ensures e.Done? || e.Crashed?
      ensures e.Done? ==> trace == old(trace) && e.value == if key in store then Some(store[key]) else None
      ensures e.Crashed? ==> trace == Then(old(trace), CrashHappened)
    {
      var _ :- MayCrash();
      return Done(if key in store then Some(store[key]) else None);
    }

    /** The finalize, drain or persist port. A crash may fall before or after the effect; a throw means no effect. */
    method RunEffect(effect: Effect, op: Operation, txId: string) returns (e: Ended<Option<string>>)
      requires Coherent() && Legal(trace, Ran(effect, op.key, txId))
      modifies `trace, `drained
      ensures Explains(e)
      ensures Coherent()
      ensures e.Done? ==> trace == Then(old(trace), Ran(effect, op.key, txId))
      ensures e.Done? ==> drained == if effect == Drain then e.value else old(drained)
      ensures !e.Done? ==> Quiet(trace) && Grows()
    {
      var _ :- MayCrash();
      var throws: bool := *;
      if throws {
        trace := Then(trace, Refused(effect, op.key));
        return Threw;
      }
      trace := Then(trace, Ran(effect, op.key, txId));
      assert Grows();
      var _ :- MayCrash();
      var warning: Option<string> := *;
      if effect == Drain {
        drained := warning;
      }
      return Done(warning);
    }

    /** The wallet. Reaching it is recorded before its answer is known. */
    method SubmitDirect(key: Key) returns (e: Ended<string>)
      requires Coherent() && Legal(trace, DirectCalled(key))
      modifies `trace
      ensures Explains(e)
      ensures Coherent() && Grows()
      ensures e.Done? ==> trace == Then(Then(old(trace), DirectCalled(key)), Receipt(key, e.value))
      ensures !e.Done? ==> Quiet(trace)
    {
      trace := Then(trace, DirectCalled(key));
      assert Grows();
      var _ :- MayCrash();
      assert Grows();
      var throws: bool := *;
      if throws {
        trace := Then(trace, DirectFailed(key));
        return Threw;
      }
      var txId: string := *;
      trace := Then(trace, Receipt(key, txId));
      assert Grows();
      var _ :- MayCrash();
      return Done(txId);
    }

    method ReadStatus(key: Key) returns (e: Ended<StatusAnswer>)
      requires Valid() && key in store && Present(store[key].relayRequestId)
      modifies `trace
      ensures Explains(e)
      ensures Valid()
      ensures e.Done? ==> trace == Then(old(trace), Reported(key, e.value))
      ensures e.Threw? ==> trace == Then(old(trace), Unanswered(key))
      ensures e.Crashed? ==> Grows()
    {
      StoredWasBegun(trace, key);
      if !relayApiPresent {
        trace := Then(trace, Unanswered(key));
        return Threw;
      }
      var _ :- MayCrash();
      var throws: bool := *;
      if throws {
        trace := Then(trace, Unanswered(key));
        return Threw;
      }
      var answer: StatusAnswer := *;
      trace := Then(trace, Reported(key, answer));
      return Done(answer);
    }

    // -------------------------------------------------------------- completion

    /** Run one effect if its flag is missing, then store the flag. */
    method ApplyEffect(effect: Effect, current: Operation, txId: string)
      returns (e: Ended<(Operation, Option<string>)>)
      requires Coherent() && Completing(trace, current, txId)
      requires !Flag(current, effect) ==> Due(trace, current.key, effect)
      requires Continues(trace, Ran(effect, current.key, txId)) || Flag(current, effect)
      requires effect != Finalize ==> Quiet(trace)
      requires Flag(current, effect) ==> Quiet(trace)
      modifies this
      ensures Explains(e)
      ensures Coherent() && Grows() && Quiet(trace)
      ensures Others(current.key) == old(Others(current.key))
      ensures e.Done? ==>
                && e.value.0 == WithFlag(current, effect)
                && Completing(trace, e.value.0, txId)
                && trace == EffectTrace(old(trace), current, effect, txId)
                && drained == (if effect == Drain && !Flag(current, effect) then e.value.1 else old(drained))
                && (Flag(current, effect) ==> e.value.1 == None)
                && store == if Flag(current, effect) then old(store) else old(store)[current.key := e.value.0]
    {
      if Flag(current, effect) {
        return Done((WithFlag(current, effect), None));
      }
      var warning :- RunEffect(effect, current, txId);
      var next := WithFlag(current, effect);
      assert Grows();
      var _ :- Save(next);
      return Done((next, warning));
    }

    /** `op` may be written over the store while completing `txId`. */
    ghost predicate Completing(t: Trace, op: Operation, txId: string) {
      && BegunAs(t, op.key, op.escrowSend)
      && op.phase == Phase.Succeeded
      && op.transactionHash == Some(txId)
      && Confirmed(t, op.key, txId)
      && FlagsAsStored(t, op)
    }

    /** The warning a completion of `op` hands on: what the drain answered, if it was still to be done. */
    ghost function Warning(op: Operation): Option<string>
      reads this
    {
      if op.deliveriesDrained then None else drained
    }

    /** A poll hands a warning on only when it reports success and completes the operation. */
    ghost function PollWarning(op: Operation, answer: StatusAnswer): Option<string>
      reads this
    {
      match answer
      case StatusAnswer(Some(Succeeded), _, Some(hash), _) => if hash == "" then None else Warning(op)
      case _ => None
    }

    /** The record a completion starts from: the stored one, or the caller's when nothing is stored. */
    ghost function CompletionStart(op: Operation, txId: string): Operation
      reads this
    {
      WithSucceededPhase(if op.key in store then store[op.key] else op, txId)
    }

    /** The two effects behind finalize. */
    method ApplyDeliveryEffects(op: Operation, txId: string) returns (e: Ended<(Operation, Option<string>)>)
      requires Coherent() && Completing(trace, op, txId) && Quiet(trace) && op.finalized
      modifies this
      ensures Explains(e)
      ensures Valid() && Grows()
      ensures Others(op.key) == old(Others(op.key))
      ensures e.Done? ==>
                && e.value.0 == op.(deliveriesDrained := true, transactionPersisted := true)
                && e.value.1 == Warning(op)
                && Completing(trace, e.value.0, txId)
                && trace == EffectTrace(EffectTrace(old(trace), op, Drain, txId), WithFlag(op, Drain), Persist, txId)
                && store[op.key := e.value.0] == old(store)[op.key := e.value.0]
    {
      CalmChains();
      FlagsInOrder(trace, op.key);
      var drained :- ApplyEffect(Drain, op, txId);
      var persisted :- ApplyEffect(Persist, drained.0, txId);
      return Done((persisted.0, drained.1));
    }

    method ApplySuccessSideEffects(op: Operation, txId: string) returns (e: Ended<(Operation, Option<string>)>)
      requires Coherent() && Completing(trace, op, txId)
      requires Continues(trace, Ran(Finalize, op.key, txId)) || op.finalized
      requires op.finalized ==> Quiet(trace)
      modifies this
      ensures Explains(e)
      ensures Valid() && Grows()
      ensures Others(op.key) == old(Others(op.key))
      ensures e.Done? ==>
                && e.value.0 == op.(finalized := true, deliveriesDrained := true, transactionPersisted := true)
                && e.value.1 == Warning(op)
                && Completing(trace, e.value.0, txId)
                && Then(trace, Saved(e.value.0)) == CompletionTrace(old(trace), op, txId)
                && store[op.key := e.value.0] == old(store)[op.key := e.value.0]
    {
      CalmChains();
      FlagsInOrder(trace, op.key);
      var finalized :- ApplyEffect(Finalize, op, txId);
      e := ApplyDeliveryEffects(finalized.0, txId);
    }

    /** `op` is known to this runtime, and nothing stands in the way of completing it with `txId`. */
    ghost predicate MayComplete(op: Operation, txId: string)
      reads this
    {
      && Coherent()
      && BegunAs(trace, op.key, op.escrowSend)
      && (op.key !in store ==> !op.finalized && !op.deliveriesDrained && !op.transactionPersisted)
      && Confirmed(trace, op.key, txId)
      && (Quiet(trace) || (trace.event == Receipt(op.key, txId) && !StoredFlag(trace, op.key, Finalize)))
    }

    method LoadForCompletion(op: Operation, txId: string) returns (e: Ended<Operation>)
      requires MayComplete(op, txId)
      modifies `trace
      ensures Explains(e)
      ensures Coherent() && Grows()
      ensures !e.Done? ==> Quiet(trace)
      ensures e.Done? ==>
                && trace == old(trace)
                && e.value == CompletionStart(op, txId)
                && e.value.key == op.key
                && Completing(trace, e.value, txId)
    {
      var stored :- Read(op.key);
      if op.key in store {
        StoredWasBegun(trace, op.key);
      }
      return Done(WithSucceededPhase(if stored.Some? then stored.value else op, txId));
    }

    method ApplySucceededCompletion(op: Operation, txId: string) returns (e: Ended<SubmitResult>)
      requires Coherent() && Completing(trace, op, txId)
      requires Continues(trace, Ran(Finalize, op.key, txId)) || op.finalized
      requires op.finalized ==> Quiet(trace)
      modifies this
      ensures Explains(e)
      ensures Valid() && Grows()
      ensures Others(op.key) == old(Others(op.key))
      ensures e.Done? ==>
                && store == old(store)[op.key :=
                              op.(finalized := true, deliveriesDrained := true, transactionPersisted := true)]
                && e.value == ToSubmitResult(store[op.key], Some(txId), Warning(op))
                && trace == CompletionTrace(old(trace), op, txId)
    {
      CalmChains();
      var applied :- ApplySuccessSideEffects(op, txId);
      var _ :- Save(applied.0);
      return Done(ToSubmitResult(applied.0, Some(txId), applied.1));
    }

    method CompleteSucceededOperation(op: Operation, txId: string) returns (e: Ended<SubmitResult>)
      requires MayComplete(op, txId)
      modifies this
      ensures Explains(e)
      ensures Valid() && Grows()
      ensures Others(op.key) == old(Others(op.key))
      ensures e.Done? ==>
                && store == old(store)[op.key := Finished(old(CompletionStart(op, txId)), txId)]
                && ShowsCompletion(if op.key in old(store) then old(store)[op.key] else op, store[op.key], txId)
                && Tells(e.value, store[op.key], Some(txId), Warning(old(CompletionStart(op, txId))))
                && trace == CompletionTrace(old(trace), old(CompletionStart(op, txId)), txId)
    {
      CompletionIsShown(if op.key in store then store[op.key] else op, txId);
      var start :- LoadForCompletion(op, txId);
      if IsAlreadyCompleted(start) {
        CompletedCompletion(trace, start, txId);
        var _ :- Save(start);
        return Done(ToSubmitResult(start, Some(txId), None));
      }
      e := ApplySucceededCompletion(start, txId);
    }

  // -------------------------------------------------------------- submit

    method CreateRequest(key: Key) returns (e: Ended<CreateOutcome>)
      requires Valid() && key in store && store[key].phase == Phase.Prepared
      modifies `trace
      ensures Explains(e)
      ensures Valid() && Grows()
      ensures e.Done? || e.Crashed?
      ensures e.Done? ==> trace == Then(old(trace), Answered(key, e.value))
    {
      var _ :- MayCrash();
      var outcome: CreateOutcome := *;
      trace := Then(trace, Answered(key, outcome));
      return Done(outcome);
    }

    /** `op` may replace the stored record of its key between two calls. */
    ghost predicate MayRewrite(op: Operation)
      reads this
    {
      && Valid()
      && BegunAs(trace, op.key, op.escrowSend)
      && FlagsAsStored(trace, op)
      && (op.key in store && HasLeft(store[op.key].phase) ==> HasLeft(op.phase))
    }

    method SaveAndReport(op: Operation, txId: Option<string>) returns (e: Ended<SubmitResult>)
      requires MayRewrite(op)
      modifies this
      ensures Explains(e)
      ensures Valid() && Grows()
      ensures Others(op.key) == old(Others(op.key))
      ensures !e.Done? ==> store == old(store)
      ensures e.Done? ==>
                && store == old(store)[op.key := op]
                && trace == Then(old(trace), Saved(op))
                && e.value == ToSubmitResult(op, txId, None)
    {
      var _ :- Save(op);
      return Done(ToSubmitResult(op, txId, None));
    }

    method CreateRelayRequest(op: Operation) returns (e: Ended<SubmitResult>, ghost outcome: CreateOutcome)
      requires MayRewrite(op) && op.key !in store && op.phase == Phase.Prepared
      modifies this
      ensures Explains(e)
      ensures Valid() && Grows()
      ensures Others(op.key) == old(Others(op.key))
      ensures e.Done? ==>
                && relayApiPresent && store == old(store)[op.key := AfterAdmission(op, outcome)]
                && trace == Then(Then(Then(old(trace), Saved(op)), Answered(op.key, outcome)), Saved(store[op.key]))
                && Tells(e.value, store[op.key], None, None)
                && (forall input :: ShowsSubmission(input, op, Phase.Prepared, None, None, None) ==>
                      ShowsAdmission(input, store[op.key], outcome))
      ensures !relayApiPresent ==> e.Threw? && store == old(store)
    {
      outcome := OtherError;
      if !relayApiPresent {
        trace := Then(trace, Unanswered(op.key));
        assert Grows();
        return Threw, outcome;
      }
      CalmChains();
      var prepared := SaveAndReport(op, None);
      if !prepared.Done? {
        return prepared, outcome;
      }
      var created := CreateRequest(op.key);
      if !created.Done? {
        return Crashed, outcome;
      }
      outcome := created.value;
      AdmissionsAreShown(op, outcome);
      e := SaveAndReport(AfterAdmission(op, created.value), None);
    }

    /** The wallet path: one submission, then its completion. */
    method SubmitDirectPath(op: Operation) returns (e: Ended<SubmitResult>, ghost txId: string)
      requires Valid() && MayCallDirect(trace, op.key)
      requires if op.key in store then op == store[op.key]
               else op.escrowSend == false && !op.finalized && !op.deliveriesDrained && !op.transactionPersisted
      modifies this
      ensures Explains(e)
      ensures Valid() && Grows()
      ensures Others(op.key) == old(Others(op.key))
      ensures e.Done? ==>
                && store == old(store)[op.key := Finished(op, txId)]
                && ShowsCompletion(op, store[op.key], txId) && Tells(e.value, store[op.key], Some(txId), drained)
                && Calm(Then(Then(old(trace), DirectCalled(op.key)), Receipt(op.key, txId)), trace)
    {
      txId := "";
      CalmChains();
      if op.key in store {
        StoredWasBegun(trace, op.key);
        BegunOneWay(trace, op.key);
      }
      FlagsInOrder(trace, op.key);
      var receipt := SubmitDirect(op.key);
      match receipt
      case Done(id) =>
        txId := id;
        e := CompleteSucceededOperation(op, id);
      case Threw => e := Threw;
      case Crashed => e := Crashed;
    }

    /**
     Submitting assumes that this (wallet, id) pair was never submitted before. An escrow send without a relay is
     rejected and reaches nobody; a plain one goes to the wallet if it asks to or has no relay; everything else is saved
     as prepared and then put to the relayer, whose answer decides what is stored.
     */
    method SubmitPreparedPrivateOperation(input: NewOperation)
      returns (e: Ended<SubmitResult>, ghost outcome: CreateOutcome, ghost txId: string)
      requires Valid() && !BegunAs(trace, input.key, true) && !BegunAs(trace, input.key, false)
      modifies this
      ensures Explains(e)
      ensures Valid() && Grows()
      ensures Others(input.key) == old(Others(input.key))
      ensures BegunAs(trace, input.key, input.escrowSend)
      ensures e.Done? ==> input.key in store
      ensures e.Done? && input.escrowSend && !relayConfigured ==>
                var op := store[input.key];
                && ShowsSubmission(input, op, Phase.Rejected, None, None, Some("escrow_relay_unconfigured"))
                && Tells(e.value, op, None, None)
                && trace == Then(Then(old(trace), Began(input.key, true)), Saved(op))
      ensures e.Done? && !input.escrowSend && (input.directPath || !relayConfigured) ==>
                var called := Then(Then(old(trace), Began(input.key, false)), DirectCalled(input.key));
                && CompletesSubmission(input, store[input.key], txId)
                && Tells(e.value, store[input.key], Some(txId), drained)
                && Calm(Then(called, Receipt(input.key, txId)), trace)
      ensures e.Done? && relayConfigured && (input.escrowSend || !input.directPath) ==>
                var op := store[input.key];
                && relayApiPresent
                && ShowsAdmission(input, op, outcome) && Tells(e.value, op, None, None)
                && PreparedFirst(Then(old(trace), Began(input.key, input.escrowSend)), trace, input, outcome, op)
    {
      outcome, txId := OtherError, "";
      CalmChains();
      NotBegunNoReceipts(trace, input.key);
      var prepared := BuildPrepared(input);
      trace := Then(trace, Began(input.key, input.escrowSend));
      assert Grows();
      if input.escrowSend && !relayConfigured {
        e := SaveAndReport(RejectedWithoutRequest(prepared, ESCROW_RELAY_UNCONFIGURED), None);
      } else if ShouldSubmitDirect(input, relayConfigured) {
        e, txId := SubmitDirectPath(prepared);
      } else {
        e, outcome := CreateRelayRequest(prepared);
      }
      CalmIsEarlier(Then(old(trace), Began(input.key, input.escrowSend)), trace);
      BegunStays(Then(old(trace), Began(input.key, input.escrowSend)), trace, input.key, input.escrowSend);
    }

    method SubmitDirectFallback(key: Key, consent: bool) returns (e: Ended<SubmitResult>, ghost txId: string)
      requires Valid()
      modifies this
      ensures e.Crashed? || (consent && key in old(store) && CanOfferDirectSubmission(old(store)[key])) ==> Explains(e)
      ensures Valid() && Grows()
      ensures Others(key) == old(Others(key))
      ensures !consent || key !in old(store) || !OpenToWallet(old(store)[key]) ==>
                !e.Done? && store == old(store) && (trace == old(trace) || trace == Then(old(trace), CrashHappened))
      ensures e.Done? ==>
                && key in old(store) && key in store
                && ShowsCompletion(old(store)[key], store[key], txId) && Tells(e.value, store[key], Some(txId), drained)
                && Calm(Then(Then(old(trace), DirectCalled(key)), Receipt(key, txId)), trace)
    {
      txId := "";
      CalmChains();
      var stored := Read(key);
      if !stored.Done? {
        return Crashed, txId;
      }
      if stored.value.None? || !consent || !CanOfferDirectSubmission(stored.value.value) {
        return Threw, txId;
      }
      StoredWasBegun(trace, key);
      e, txId := SubmitDirectPath(stored.value.value);
    }

    // -------------------------------------------------------------- poll, retry, resume

    /** Complete an operation whose success was reported and whose record has just been saved. */
    method CompleteReported(op: Operation, reported: StatusAnswer, ghost asked: Trace) returns (e: Ended<SubmitResult>)
      requires Valid() && ReportsSuccess(reported)
      requires trace == Then(Then(asked, Reported(op.key, reported)), Saved(ApplyStatus(op, reported)))
      modifies this
      ensures Explains(e)
      ensures Valid() && Calm(Then(asked, Reported(op.key, reported)), trace)
      ensures Others(op.key) == old(Others(op.key))
      ensures e.Done? ==>
                && store == old(store)[op.key := AfterPoll(op, reported)]
                && trace == PollTrace(asked, op, reported)
                && e.value == ToSubmitResult(store[op.key], reported.transactionHash, PollWarning(op, reported))
    {
      e := CompleteSucceededOperation(ApplyStatus(op, reported), reported.transactionHash.value);
      CalmTransitive(old(trace.before), old(trace), trace);
    }

    lemma StatusMayBeStored(op: Operation, reported: StatusAnswer)
      requires Valid() && op.key in store && store[op.key] == op && BegunAs(trace, op.key, op.escrowSend)
      ensures MayRewrite(ApplyStatus(op, reported))
    {
    }

    /** The save of a reported status. */
    method SaveReported(op: Operation, reported: StatusAnswer) returns (e: Ended<SubmitResult>)
      requires Valid() && op.key in store && store[op.key] == op && BegunAs(trace, op.key, op.escrowSend)
      modifies this
      ensures Explains(e)
      ensures Valid() && Grows()
      ensures Others(op.key) == old(Others(op.key))
      ensures e.Done? ==>
                && store == old(store)[op.key := ApplyStatus(op, reported)]
                && trace == Then(old(trace), Saved(ApplyStatus(op, reported)))
                && e.value == ToSubmitResult(store[op.key], store[op.key].transactionHash, None)
    {
      StatusMayBeStored(op, reported);
      e := SaveAndReport(ApplyStatus(op, reported), ApplyStatus(op, reported).transactionHash);
    }

    /** Store what the relayer reported about the stored `op`, and complete it on success. */
    method StoreReported(op: Operation, reported: StatusAnswer, ghost asked: Trace) returns (e: Ended<SubmitResult>)
      requires Valid() && op.key in store && store[op.key] == op && BegunAs(trace, op.key, op.escrowSend)
      requires trace == Then(asked, Reported(op.key, reported))
      modifies this
      ensures Explains(e)
      ensures Valid() && Grows()
      ensures Others(op.key) == old(Others(op.key))
      ensures e.Done? ==>
                && store == old(store)[op.key := AfterPoll(op, reported)]
                && trace == PollTrace(asked, op, reported)
                && ShowsPoll(op, store[op.key], reported)
                && e.value == ToSubmitResult(store[op.key], store[op.key].transactionHash, PollWarning(op, reported))
    {
      PollIsShown(op, reported);
      e := SaveReported(op, reported);
      if e.Done? && ReportsSuccess(reported) {
        e := CompleteReported(op, reported, asked);
      }
    }

    /** At most one status is asked for, and it is the first thing that happens. */
    method PollPendingOperation(key: Key) returns (e: Ended<SubmitResult>, ghost answer: Option<StatusAnswer>)
      requires Valid()
      modifies this
      ensures e.Crashed? || key in old(store) ==> Explains(e)
      ensures Valid()
      ensures Calm(if answer.Some? then Then(old(trace), Reported(key, answer.value)) else old(trace), trace)
      ensures Others(key) == old(Others(key))
      ensures e.Done? ==> key in old(store) && answer.Some? == Present(old(store)[key].relayRequestId)
      ensures e.Done? && answer.None? ==>
                && store == old(store) && trace == old(trace)
                && e.value == ToSubmitResult(store[key], None, None)
      ensures e.Done? && answer.Some? ==>
                && store == old(store)[key := AfterPoll(old(store)[key], answer.value)]
                && ShowsPoll(old(store)[key], store[key], answer.value)
                && trace == PollTrace(old(trace), old(store)[key], answer.value)
                && e.value == ToSubmitResult(store[key], store[key].transactionHash, e.value.warning)
                && Tells(e.value, store[key], store[key].transactionHash, PollWarning(old(store)[key], answer.value))
    {
      answer := None;
      CalmChains();
      var stored := Read(key);
      if !stored.Done? {
        return Crashed, answer;
      }
      if stored.value.None? {
        return Threw, answer;
      }
      var op := stored.value.value;
      if !Present(op.relayRequestId) {
        return Done(ToSubmitResult(op, None, None)), answer;
      }
      StoredWasBegun(trace, key);
      var status := ReadStatus(key);
      match status
      case Threw => e := Threw;
      case Crashed => e := Crashed;
      case Done(reported) =>
        answer := Some(reported);
        e := StoreReported(op, reported, old(trace));
    }

    /** Stores `op` over the present record and polls it. */
    method SaveAndPoll(op: Operation) returns (e: Ended<SubmitResult>, ghost answer: Option<StatusAnswer>)
      requires MayRewrite(op) && Present(op.relayRequestId)
      modifies this
      ensures Explains(e)
      ensures Valid() && Earlier(old(trace), trace)
      ensures Others(op.key) == old(Others(op.key))
      ensures store == old(store) || Earlier(Then(old(trace), Saved(op)), trace)
      ensures e.Done? ==>
                && answer.Some?
                && store == old(store)[op.key := AfterPoll(op, answer.value)]
                && trace == PollTrace(Then(old(trace), Saved(op)), op, answer.value)
                && ShowsPoll(op, store[op.key], answer.value)
                && Tells(e.value, store[op.key], store[op.key].transactionHash, PollWarning(op, answer.value))
    {
      answer := None;
      e := SaveAndReport(op, None);
      CalmIsEarlier(old(trace), trace);
      if e.Done? {
        ghost var saved := trace;
        e, answer := PollPendingOperation(op.key);
        ghost var asking := if answer.Some? then Then(saved, Reported(op.key, answer.value)) else saved;
        CalmIsEarlier(asking, trace);
        assert Earlier(saved, asking);
        EarlierTransitive(saved, asking, trace);
        assert saved == Then(old(trace), Saved(op));
        EarlierTransitive(old(trace), saved, trace);
      }
    }

    /** The history goes on with the retry that the relayer took and the save of the retried record. */
    ghost predicate RetryWasStored(before: map<Key, Operation>, t: Trace, key: Key)
      reads this
    {
      key in before &&
      exists next :: ShowsRetry(before[key], next) && Earlier(Then(Then(t, RetryTaken(key)), Saved(next)), trace)
    }

    /** Nothing is stored unless the retry request was answered. */
    method RetryFailedRelayAttempt(key: Key) returns (e: Ended<SubmitResult>, ghost answer: Option<StatusAnswer>)
      requires Valid()
      modifies this
      ensures e.Crashed? || (key in old(store) && CanRetryRelayAttempt(old(store)[key])) ==> Explains(e)
      ensures Valid() && Earlier(old(trace), trace)
      ensures Others(key) == old(Others(key))
      ensures key !in old(store) || !OpenToRetry(old(store)[key]) ==>
                !e.Done? && store == old(store) && Grows()
      ensures store == old(store) || RetryWasStored(old(store), old(trace), key)
      ensures e.Done? ==>
                && answer.Some? && key in store
                && PolledAfterRetry(old(trace), old(store)[key], trace, store[key], answer.value)
                && Tells(e.value, store[key], store[key].transactionHash, PollWarning(old(store)[key], answer.value))
    {
      answer := None;
      var stored := Read(key);
      if !stored.Done? {
        return Crashed, answer;
      }
      if stored.value.None? || !CanRetryRelayAttempt(stored.value.value) {
        return Threw, answer;
      }
      StoredWasBegun(trace, key);
      var asked := AskRetry(key);
      CalmIsEarlier(old(trace), trace);
      if !asked.Done? {
        return (if asked.Threw? then Threw else Crashed), answer;
      }
      ghost var taken := trace;
      RetryIsShown(stored.value.value);
      e, answer := SaveAndPoll(Retried(stored.value.value));
      EarlierTransitive(old(trace), taken, trace);
    }

    method AskRetry(key: Key) returns (e: Ended<()>)
      requires Valid() && key in store && CanRetryRelayAttempt(store[key])
      modifies `trace
      ensures Valid() && Grows() && Explains(e)
      ensures e.Done? ==> trace == Then(old(trace), RetryTaken(key))
      ensures e.Threw? ==> trace == Then(old(trace), Unanswered(key))
    {
      StoredWasBegun(trace, key);
      var throws: bool := *;
      if !relayApiPresent || throws {
        trace := Then(trace, Unanswered(key));
        return Threw;
      }
      e := MayCrash();
      if e.Done? {
        trace := Then(trace, RetryTaken(key));
      }
    }
  }
}
