/** The stored operation record and the policy predicates over one record. */
module RelayTypes {
  import opened Common

  datatype Phase =
    Prepared | RelayAccepted | AdmissionFailed | Succeeded | Rejected | Failed | SettlementTimedOut

  datatype RelayStatus =
    Accepted | Validating | Queued | Submitted | Reconciling | Succeeded | Rejected | Failed

  datatype Key = Key(wallet: string, id: string)

  datatype Effect = Finalize | Drain | Persist

  /** `payload` stands for the display data, the snapshot, the outbox and the relay package. */
  datatype Operation = Operation(
    key: Key,
    phase: Phase,
    retryAllowed: bool,
    payload: string,
    finalized: bool,
    deliveriesDrained: bool,
    transactionPersisted: bool,
    escrowSend: bool,
    relayRequestId: Option<string>,
    relayStatus: Option<RelayStatus>,
    publicReason: Option<string>,
    transactionHash: Option<string>)

  datatype NewOperation = NewOperation(key: Key, directPath: bool, payload: string, escrowSend: bool)

  /** A relayer status answer. An unknown status word is `None`. */
  datatype StatusAnswer = StatusAnswer(
    status: Option<RelayStatus>,
    retryAllowed: bool,
    transactionHash: Option<string>,
    publicReason: Option<string>)

  datatype SubmitResult = SubmitResult(
    outcome: Phase,
    operation: Operation,
    txId: Option<string>,
    warning: Option<string>,
    fallbackAllowed: bool,
    retryAllowed: bool)

  predicate Flag(op: Operation, effect: Effect) {
    match effect
    case Finalize => op.finalized
    case Drain => op.deliveriesDrained
    case Persist => op.transactionPersisted
  }

  function WithFlag(op: Operation, effect: Effect): Operation {
    match effect
    case Finalize => op.(finalized := true)
    case Drain => op.(deliveriesDrained := true)
    case Persist => op.(transactionPersisted := true)
  }

  predicate BlockedDirectStatus(status: RelayStatus) {
    status.Submitted? || status.Reconciling? || status.Rejected? || status.Succeeded?
  }

  predicate CanOfferDirectSubmission(op: Operation) {
    && !op.escrowSend
    && !op.finalized
    && !(op.relayStatus.Some? && BlockedDirectStatus(op.relayStatus.value))
    && op.phase != Phase.Rejected
    && op.phase != Phase.Failed
    && !Present(op.relayRequestId)
    && (op.phase == Phase.Prepared || op.phase == Phase.AdmissionFailed)
  }

  predicate CanRetryRelayAttempt(op: Operation) {
    && !op.finalized
    && Present(op.relayRequestId)
    && op.phase == Phase.Failed
    && op.retryAllowed
  }

  predicate IsUnfinalizedRelayOperation(op: Operation) {
    Present(op.relayRequestId) && !op.finalized
  }

  /** The record has left the two phases in which the wallet may still submit on its own. */
  predicate HasLeft(phase: Phase) {
    phase != Phase.Prepared && phase != Phase.AdmissionFailed
  }

  predicate IsAlreadyCompleted(op: Operation) {
    op.finalized && op.deliveriesDrained && op.transactionPersisted
  }

  function WithSucceededPhase(op: Operation, txId: string): Operation {
    op.(phase := Phase.Succeeded,
        relayStatus := Some(RelayStatus.Succeeded),
        transactionHash := Some(txId),
        retryAllowed := false)
  }

  /** The record a completion leaves behind: succeeded, with all three flags set. */
  function Finished(op: Operation, txId: string): Operation {
    WithSucceededPhase(op, txId).(finalized := true, deliveriesDrained := true, transactionPersisted := true)
  }

  function BuildPrepared(input: NewOperation): Operation {
    Operation(input.key, Phase.Prepared, false, input.payload, false, false, false, input.escrowSend,
              None, None, None, None)
  }

  function ToSubmitResult(op: Operation, txId: Option<string>, warning: Option<string>): SubmitResult {
    SubmitResult(op.phase, op,
                 if Present(txId) then txId else None,
                 if Present(warning) then warning else None,
                 CanOfferDirectSubmission(op), CanRetryRelayAttempt(op))
  }

  predicate ReportsSuccess(answer: StatusAnswer) {
    answer.status == Some(RelayStatus.Succeeded) && Present(answer.transactionHash)
  }

  function ApplyStatus(op: Operation, answer: StatusAnswer): Operation {
    var next := op.(
      retryAllowed := answer.retryAllowed,
      relayStatus := if answer.status.Some? then answer.status else op.relayStatus,
      publicReason := if Present(answer.publicReason) then answer.publicReason else op.publicReason,
      transactionHash := if Present(answer.transactionHash) then answer.transactionHash else op.transactionHash);
    if answer.status == Some(RelayStatus.Rejected) then
      next.(phase := Phase.Rejected, retryAllowed := false)
    else if answer.status == Some(RelayStatus.Failed) then
      next.(phase := Phase.Failed)
    else
      next
  }

  /** The record after one whole poll that was neither cut nor rejected. */
  function AfterPoll(op: Operation, answer: StatusAnswer): Operation {
    var updated := ApplyStatus(op, answer);
    if ReportsSuccess(answer) then Finished(updated, answer.transactionHash.value) else updated
  }

  predicate IsTerminalRelayStatus(status: Option<RelayStatus>) {
    status.Some? && (status.value.Succeeded? || status.value.Rejected? || status.value.Failed?)
  }

  predicate IsSettled(result: SubmitResult) {
    || result.outcome == Phase.Succeeded
    || result.outcome == Phase.Rejected
    || result.outcome == Phase.Failed
    || result.outcome == Phase.AdmissionFailed
    || result.outcome == Phase.SettlementTimedOut
    || IsTerminalRelayStatus(result.operation.relayStatus)
  }

  // ---------------------------------------------------------------- admission

  const ESCROW_RELAY_UNCONFIGURED := "escrow_relay_unconfigured"
  const INFRASTRUCTURE_FAILED := "infrastructure_failed"

  /** HTTP reasons that leave the operation open to a wallet fallback. */
  const INFRASTRUCTURE_HTTP_REASONS: set<string> :=
    {"rate_limited", "queue_at_capacity", "low_balance", "relayer_unavailable", "payload_too_large"}

  /** How `createRequest` settles: accepted, rejected with a relay reason, or rejected with any other error. */
  datatype CreateOutcome = Admitted(requestId: string) | ApiError(reason: string) | OtherError

  function RejectedWithoutRequest(op: Operation, reason: string): Operation {
    op.(phase := Phase.Rejected, publicReason := Some(reason), retryAllowed := false)
  }

  function AdmissionFailure(op: Operation, reason: string): Operation {
    op.(phase := Phase.AdmissionFailed, publicReason := Some(reason), retryAllowed := false)
  }

  /** The record `createRelayRequest` stores for each way the relayer may answer. */
  function AfterAdmission(op: Operation, outcome: CreateOutcome): Operation {
    match outcome
    case Admitted(requestId) =>
      op.(phase := Phase.RelayAccepted, relayRequestId := Some(requestId),
          relayStatus := Some(RelayStatus.Accepted), retryAllowed := false)
    case ApiError(reason) =>
      if reason in INFRASTRUCTURE_HTTP_REASONS then AdmissionFailure(op, reason)
      else RejectedWithoutRequest(op, reason)
    case OtherError => AdmissionFailure(op, INFRASTRUCTURE_FAILED)
  }

  /** The record a permitted retry stores before it polls. */
  function Retried(op: Operation): Operation {
    op.(publicReason := None, phase := Phase.RelayAccepted,
        relayStatus := Some(RelayStatus.Accepted), retryAllowed := false)
  }

  predicate ShouldSubmitDirect(input: NewOperation, relayConfigured: bool) {
    !input.escrowSend && (input.directPath || !relayConfigured)
  }

  // ---------------------------------------------------------------- what polls and admissions decide

  /** What a status answer makes of a record, field by field: only status, reason, hash, retry permission and phase. */
  ghost predicate ShowsStatus(op: Operation, next: Operation, answer: StatusAnswer) {
    && next.key == op.key && next.payload == op.payload && next.escrowSend == op.escrowSend
    && next.relayRequestId == op.relayRequestId
    && next.finalized == op.finalized && next.deliveriesDrained == op.deliveriesDrained
    && next.transactionPersisted == op.transactionPersisted
    && (next.retryAllowed <==> answer.retryAllowed && answer.status != Some(RelayStatus.Rejected))
    && next.relayStatus == (match answer.status case Some(status) => Some(status) case None => op.relayStatus)
    && next.publicReason == (match answer.publicReason
                             case Some(reason) => if reason == "" then op.publicReason else Some(reason)
                             case None => op.publicReason)
    && next.transactionHash == (match answer.transactionHash
                                case Some(hash) => if hash == "" then op.transactionHash else Some(hash)
                                case None => op.transactionHash)
    && next.phase == (match answer.status
                      case Some(Rejected) => Phase.Rejected
                      case Some(Failed) => Phase.Failed
                      case _ => op.phase)
  }

  /** What a completion makes of a record: succeeded under the transaction, all effects done, everything else kept. */
  ghost predicate ShowsCompletion(op: Operation, next: Operation, txId: string) {
    && next.key == op.key && next.payload == op.payload && next.escrowSend == op.escrowSend
    && next.relayRequestId == op.relayRequestId && next.publicReason == op.publicReason
    && next.phase == Phase.Succeeded && next.relayStatus == Some(RelayStatus.Succeeded)
    && next.transactionHash == Some(txId) && !next.retryAllowed
    && next.finalized && next.deliveriesDrained && next.transactionPersisted
  }

  /** What a whole poll makes of a record: the answer's status, and the completion if it reports success with a hash. */
  ghost predicate ShowsPoll(op: Operation, next: Operation, answer: StatusAnswer) {
    match answer
    case StatusAnswer(Some(Succeeded), _, Some(hash), _) =>
      if hash == "" then ShowsStatus(op, next, answer)
      else exists updated :: ShowsStatus(op, updated, answer) && ShowsCompletion(updated, next, hash)
    case _ => ShowsStatus(op, next, answer)
  }

  /** A record of a submission, with none of the effects done. */
  ghost predicate ShowsSubmission(
    input: NewOperation, op: Operation, phase: Phase, requestId: Option<string>, status: Option<RelayStatus>,
    reason: Option<string>)
  {
    && op.key == input.key && op.payload == input.payload && op.escrowSend == input.escrowSend
    && op.phase == phase && op.relayRequestId == requestId && op.relayStatus == status && op.publicReason == reason
    && !op.retryAllowed && op.transactionHash == None
    && !op.finalized && !op.deliveriesDrained && !op.transactionPersisted
  }

  /** What a submission to the relayer stores for each of its answers. */
  ghost predicate ShowsAdmission(input: NewOperation, op: Operation, outcome: CreateOutcome) {
    match outcome
    case Admitted(q) =>
      ShowsSubmission(input, op, Phase.RelayAccepted, Some(q), Some(RelayStatus.Accepted), None)
    case ApiError(reason) =>
      var retriable := reason == "rate_limited" || reason == "queue_at_capacity" || reason == "low_balance"
                       || reason == "relayer_unavailable" || reason == "payload_too_large";
      ShowsSubmission(input, op, if retriable then Phase.AdmissionFailed else Phase.Rejected, None, None, Some(reason))
    case OtherError =>
      ShowsSubmission(input, op, Phase.AdmissionFailed, None, None, Some("infrastructure_failed"))
  }

  /** What a permitted retry stores: accepted again under the same request, without the reason of the failure. */
  ghost predicate ShowsRetry(op: Operation, next: Operation) {
    && next.key == op.key && next.payload == op.payload && next.escrowSend == op.escrowSend
    && next.relayRequestId == op.relayRequestId && next.transactionHash == op.transactionHash
    && next.finalized == op.finalized && next.deliveriesDrained == op.deliveriesDrained
    && next.transactionPersisted == op.transactionPersisted
    && next.phase == Phase.RelayAccepted && next.relayStatus == Some(RelayStatus.Accepted)
    && next.publicReason == None && !next.retryAllowed
  }

  /** The wallet may still submit: a plain, open operation that no relayer knows of. */
  ghost predicate OpenToWallet(op: Operation) {
    && !op.escrowSend && !op.finalized
    && (op.phase == Phase.Prepared || op.phase == Phase.AdmissionFailed)
    && (op.relayRequestId == None || op.relayRequestId == Some(""))
    && (match op.relayStatus
        case None => true
        case Some(status) => status.Accepted? || status.Validating? || status.Queued? || status.Failed?)
  }

  /** The relayer may be asked to try again. */
  ghost predicate OpenToRetry(op: Operation) {
    && op.phase == Phase.Failed && op.retryAllowed && !op.finalized
    && op.relayRequestId != None && op.relayRequestId != Some("")
  }

  /** What a result tells of a record. Empty texts are left out. */
  ghost predicate Tells(result: SubmitResult, op: Operation, txId: Option<string>, warning: Option<string>) {
    && result.outcome == op.phase && result.operation == op
    && (result.fallbackAllowed <==> OpenToWallet(op)) && (result.retryAllowed <==> OpenToRetry(op))
    && result.txId == (if txId == Some("") then None else txId)
    && result.warning == (if warning == Some("") then None else warning)
  }

  /** A result tells exactly this of its record. */
  lemma ResultTells(op: Operation, txId: Option<string>, warning: Option<string>)
    ensures Tells(ToSubmitResult(op, txId, warning), op, txId, warning)
  {
  }

  lemma StatusIsShown(op: Operation, answer: StatusAnswer)
    ensures ShowsStatus(op, ApplyStatus(op, answer), answer)
  {
  }

  lemma CompletionIsShown(op: Operation, txId: string)
    ensures ShowsCompletion(op, Finished(op, txId), txId)
  {
  }

  lemma PollIsShown(op: Operation, answer: StatusAnswer)
    ensures ShowsPoll(op, AfterPoll(op, answer), answer)
  {
    StatusIsShown(op, answer);
    if ReportsSuccess(answer) {
      CompletionIsShown(ApplyStatus(op, answer), answer.transactionHash.value);
    }
  }

  lemma AdmissionIsShown(input: NewOperation, outcome: CreateOutcome)
    ensures ShowsAdmission(input, AfterAdmission(BuildPrepared(input), outcome), outcome)
  {
  }

  lemma RetryIsShown(op: Operation)
    ensures ShowsRetry(op, Retried(op))
  {
  }

  /**
   The fields a record shows after a poll, an admission, a retry or a completion determine it: two records that show
   the same are the same.
   */
  lemma ShownIsUnique(op: Operation, a: Operation, b: Operation, answer: StatusAnswer, input: NewOperation, outcome: CreateOutcome)
    ensures ShowsPoll(op, a, answer) && ShowsPoll(op, b, answer) ==> a == b
    ensures ShowsAdmission(input, a, outcome) && ShowsAdmission(input, b, outcome) ==> a == b
    ensures ShowsRetry(op, a) && ShowsRetry(op, b) ==> a == b
  {
    if ShowsPoll(op, a, answer) && ShowsPoll(op, b, answer) {
      match answer
      case StatusAnswer(Some(Succeeded), _, Some(hash), _) =>
        if hash != "" {
          var u :| ShowsStatus(op, u, answer) && ShowsCompletion(u, a, hash);
          var v :| ShowsStatus(op, v, answer) && ShowsCompletion(v, b, hash);
        }
      case _ =>
    }
  }

  /** An operation is settled in every phase but prepared and relay_accepted, and in those by a terminal status. */
  lemma SettledExactly(result: SubmitResult)
    ensures IsSettled(result) <==>
              || (result.outcome != Phase.Prepared && result.outcome != Phase.RelayAccepted)
              || result.operation.relayStatus == Some(RelayStatus.Succeeded)
              || result.operation.relayStatus == Some(RelayStatus.Rejected)
              || result.operation.relayStatus == Some(RelayStatus.Failed)
  {
  }

  /** A request id that is no empty text is followed up: the record stays listed until it is finalized. */
  lemma AdmittedIsFollowedUp(input: NewOperation, op: Operation, q: string)
    requires ShowsAdmission(input, op, Admitted(q)) && q != ""
    ensures IsUnfinalizedRelayOperation(op) && !CanOfferDirectSubmission(op) && !CanRetryRelayAttempt(op)
    ensures !IsSettled(ToSubmitResult(op, None, None))
  {
  }

  /** A poll settles an operation exactly when it reports a terminal status, or nothing known about a settled one. */
  lemma PollSettlesExactly(op: Operation, answer: StatusAnswer)
    requires op.phase == Phase.RelayAccepted
    ensures IsSettled(ToSubmitResult(AfterPoll(op, answer), None, None)) <==>
              IsTerminalRelayStatus(answer.status) || (answer.status.None? && IsTerminalRelayStatus(op.relayStatus))
  {
  }

  /** After a poll a retry is offered exactly for an open, failed operation whose answer allows it. */
  lemma RetryOfferedExactly(op: Operation, answer: StatusAnswer)
    requires Present(op.relayRequestId)
    ensures CanRetryRelayAttempt(AfterPoll(op, answer)) <==>
              && !op.finalized
              && answer.retryAllowed
              && (answer.status == Some(RelayStatus.Failed)
                  || (op.phase == Phase.Failed && answer.status != Some(RelayStatus.Rejected) && !ReportsSuccess(answer)))
  {
  }

  /** After the relayer's answer the wallet is offered exactly for a plain operation that could not be admitted. */
  lemma FallbackOfferedExactly(input: NewOperation, outcome: CreateOutcome)
    ensures CanOfferDirectSubmission(AfterAdmission(BuildPrepared(input), outcome)) <==>
              && !input.escrowSend
              && (outcome.OtherError? || (outcome.ApiError? && outcome.reason in INFRASTRUCTURE_HTTP_REASONS))
  {
  }

  /** No operation is ever offered both ways on. */
  lemma NeverBothWays(op: Operation)
    ensures !(CanOfferDirectSubmission(op) && CanRetryRelayAttempt(op))
    ensures op.finalized ==> !CanOfferDirectSubmission(op) && !CanRetryRelayAttempt(op)
  {
  }
}
