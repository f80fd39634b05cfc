/**
 The output slots of a spend: how inputs are divided into recipient, change and fee, which circuit size is chosen
 for them, and which application-id hint accompanies each slot. A slot built for a value holds that value.
 */
module SpendSlots {
  import opened Common

  datatype Kind = Deposit | Transfer | Withdraw
  datatype SpendSource = PrivateAddress | Escrow
  datatype Slot = Filled(value: int) | Dummy

  datatype SpendError = AmountNotPositive | FeeExceedsNotes | NoChangeRecipient | NothingLeft | TooManySlots

  datatype Result<+T> = Ok(value: T) | Err(error: SpendError) {
    predicate IsFailure() {
      Err?
    }

    function PropagateFailure<U>(): Result<U>
      requires Err?
    {
      Err(error)
    }

    function Extract(): T
      requires Ok?
    {
      value
    }
  }

  datatype FeeOutput = FeeOutput(requiredFee: int, collector: string)

  /** The slots of a spend, and whether a change coin and a fee coin were made. */
  datatype Outputs = Outputs(deposits: seq<Slot>, hasChange: bool, hasFee: bool)

  function Fee(feeOutput: Option<FeeOutput>): int {
    match feeOutput case Some(spec) => spec.requiredFee case None => 0
  }

  function SumValues(values: seq<int>): int {
    if values == [] then 0 else values[0] + SumValues(values[1..])
  }

  function SumSlots(slots: seq<Slot>): int {
    if slots == [] then 0 else (match slots[0] case Filled(v) => v case Dummy => 0) + SumSlots(slots[1..])
  }

  // ---------------------------------------------------------------- dividing the inputs

  function RemainingAfterRequiredFee(available: int, instructed: int, requiredFee: int): Result<int> {
    var remaining := available - instructed - requiredFee;
    if remaining < 0 then Err(FeeExceedsNotes) else Ok(remaining)
  }

  function RequireChangeRecipientWhenPartial(change: int, recipient: Option<string>): Result<()> {
    if change > 0 && !Present(recipient) then Err(NoChangeRecipient) else Ok(())
  }

  /** The amount checks of transfers with one or two inputs and of withdrawals with two. */
  function ChangeWithRecipient(notes: seq<int>, amount: int, recipient: Option<string>, fee: int): Result<int> {
    if amount < 1 then Err(AmountNotPositive)
    else
      var change :- RemainingAfterRequiredFee(SumValues(notes), amount, fee);
      var _ :- RequireChangeRecipientWhenPartial(change, recipient);
      Ok(change)
  }

  /** The checks of a withdrawal with one input, which leaves the change recipient to the slot builder. */
  function SingleWithdrawChange(note: int, amount: int, fee: int): Result<int> {
    if amount < 1 then Err(AmountNotPositive) else RemainingAfterRequiredFee(note, amount, fee)
  }

  function AppendFeeOutputSlot(deposits: seq<Slot>, feeOutput: Option<FeeOutput>): (seq<Slot>, bool) {
    if feeOutput.None? || feeOutput.value.requiredFee <= 0 || feeOutput.value.collector == "" then (deposits, false)
    else (deposits + [Filled(feeOutput.value.requiredFee)], true)
  }

  function RecipientAndOptionalChange(amount: int, change: int, feeOutput: Option<FeeOutput>): Outputs {
    var first :=
      if change > 0 then [Filled(amount), Filled(change)]
      else if Fee(feeOutput) > 0 then [Filled(amount)]
      else [Filled(amount), Dummy];
    var (deposits, hasFee) := AppendFeeOutputSlot(first, feeOutput);
    Outputs(deposits, change > 0, hasFee)
  }

  function WithdrawChangeDeposits(change: int, recipient: Option<string>): Result<seq<Slot>> {
    if change <= 0 then Ok([])
    else if !Present(recipient) then Err(NoChangeRecipient)
    else Ok([Filled(change)])
  }

  function WithdrawOutputs(change: int, recipient: Option<string>, feeOutput: Option<FeeOutput>): Result<Outputs> {
    var first :- WithdrawChangeDeposits(change, recipient);
    var (deposits, hasFee) := AppendFeeOutputSlot(first, feeOutput);
    Ok(Outputs(deposits, change > 0, hasFee))
  }

  /** The outputs of a transfer or withdrawal of one or two notes, up to proving. */
  function SpendOutputs(
    kind: Kind, notes: seq<int>, amount: int, recipient: Option<string>, feeOutput: Option<FeeOutput>): Result<Outputs>
    requires kind != Deposit && 1 <= |notes| <= 2
  {
    if kind == Transfer then
      var change :- ChangeWithRecipient(notes, amount, recipient, Fee(feeOutput));
      Ok(RecipientAndOptionalChange(amount, change, feeOutput))
    else if |notes| == 1 then
      var change :- SingleWithdrawChange(notes[0], amount, Fee(feeOutput));
      WithdrawOutputs(change, recipient, feeOutput)
    else
      var change :- ChangeWithRecipient(notes, amount, recipient, Fee(feeOutput));
      WithdrawOutputs(change, recipient, feeOutput)
  }

  /** The outputs of a deposit: what the fee leaves of the amount goes to the user's slot. */
  function DepositOutputs(amount: int, feeOutput: Option<FeeOutput>): Result<Outputs> {
    if amount - Fee(feeOutput) <= 0 then Err(NothingLeft)
    else
      var (deposits, hasFee) := AppendFeeOutputSlot([Filled(amount - Fee(feeOutput))], feeOutput);
      Ok(Outputs(deposits, false, hasFee))
  }

  /** A deposit spends no notes, a transfer or withdrawal one or two. */
  predicate NotesOf(kind: Kind, notes: seq<int>) {
    if kind == Deposit then notes == [] else 1 <= |notes| <= 2
  }

  function OutputsOf(
    kind: Kind, notes: seq<int>, amount: int, recipient: Option<string>, feeOutput: Option<FeeOutput>): Result<Outputs>
    requires NotesOf(kind, notes)
  {
    if kind == Deposit then DepositOutputs(amount, feeOutput)
    else SpendOutputs(kind, notes, amount, recipient, feeOutput)
  }

  function PublicWithdrawal(kind: Kind, amount: int): int {
    if kind == Withdraw then amount else 0
  }

  function PublicDeposit(kind: Kind, amount: int): int {
    if kind == Deposit then amount else 0
  }

  lemma SumOfTwo(values: seq<int>)
    ensures |values| == 1 ==> SumValues(values) == values[0]
    ensures |values| == 2 ==> SumValues(values) == values[0] + values[1]
  {
    if |values| == 2 {
      assert values[1..] == [values[1]];
    }
  }

  lemma {:induction false} SumSlotsAppend(slots: seq<Slot>, more: seq<Slot>)
    ensures SumSlots(slots + more) == SumSlots(slots) + SumSlots(more)
  {
    if slots == [] {
      assert slots + more == more;
    } else {
      assert (slots + more)[1..] == slots[1..] + more;
      SumSlotsAppend(slots[1..], more);
    }
  }

  /** A spend reaches proving exactly when the notes cover amount and fee and any change has somewhere to go. */
  lemma SpendSucceedsExactly(
    kind: Kind, notes: seq<int>, amount: int, recipient: Option<string>, feeOutput: Option<FeeOutput>)
    requires kind != Deposit && NotesOf(kind, notes)
    ensures OutputsOf(kind, notes, amount, recipient, feeOutput).Ok? <==>
              && amount >= 1
              && SumValues(notes) >= amount + Fee(feeOutput)
              && (SumValues(notes) > amount + Fee(feeOutput) ==> Present(recipient))
  {
    SumOfTwo(notes);
  }

  /**
   Which error a spend ends with: an amount below one is refused first, then notes that do not cover it with the fee,
   then change that nobody receives. A deposit ends with one exactly when the fee leaves nothing of it.
   */
  lemma ErrorsInOrder(
    kind: Kind, notes: seq<int>, amount: int, recipient: Option<string>, feeOutput: Option<FeeOutput>)
    requires NotesOf(kind, notes)
    ensures var outputs := OutputsOf(kind, notes, amount, recipient, feeOutput);
            var fee := match feeOutput case Some(spec) => spec.requiredFee case None => 0;
            if kind == Deposit then
              outputs.Err? <==> amount <= fee
            else
              && (outputs == Err(AmountNotPositive) <==> amount < 1)
              && (outputs == Err(FeeExceedsNotes) <==> amount >= 1 && SumValues(notes) < amount + fee)
              && (outputs == Err(NoChangeRecipient) <==>
                    && amount >= 1 && SumValues(notes) > amount + fee
                    && (recipient == None || recipient == Some("")))
              && (outputs.Err? ==> outputs.error in {AmountNotPositive, FeeExceedsNotes, NoChangeRecipient})
    ensures kind == Deposit && amount <= Fee(feeOutput) ==>
              OutputsOf(kind, notes, amount, recipient, feeOutput) == Err(NothingLeft)
  {
    SumOfTwo(notes);
  }

  /** The fee is fully in the slots: none is required, or one is and it has a collector. */
  predicate FeeHasSlot(feeOutput: Option<FeeOutput>) {
    feeOutput.None? || feeOutput.value.requiredFee == 0 ||
    (feeOutput.value.requiredFee > 0 && feeOutput.value.collector != "")
  }

  lemma FeeSlotSum(deposits: seq<Slot>, feeOutput: Option<FeeOutput>)
    ensures var (slots, hasFee) := AppendFeeOutputSlot(deposits, feeOutput);
            && SumSlots(slots) == SumSlots(deposits) + (if FeeHasSlot(feeOutput) then Fee(feeOutput) else 0)
            && (forall slot :: slot in slots ==> slot in deposits || (slot.Filled? && slot.value > 0))
  {
    SumSlotsAppend(deposits, [Filled(Fee(feeOutput))]);
  }

  lemma PairSum(a: Slot, b: Slot)
    ensures SumSlots([a, b]) == SumSlots([a]) + SumSlots([b])
  {
    assert [a, b] == [a] + [b];
    SumSlotsAppend([a], [b]);
  }

  /**
   Slots plus the public withdrawal are worth exactly the inputs plus the public deposit, if and only if the fee
   has its slot. No slot holds a negative value, and where there is change somebody receives it.
   */
  lemma ValueIsConserved(
    kind: Kind, notes: seq<int>, amount: int, recipient: Option<string>, feeOutput: Option<FeeOutput>, outputs: Outputs)
    requires NotesOf(kind, notes) && OutputsOf(kind, notes, amount, recipient, feeOutput) == Ok(outputs)
    ensures SumSlots(outputs.deposits) + PublicWithdrawal(kind, amount) == SumValues(notes) + PublicDeposit(kind, amount)
       <==> FeeHasSlot(feeOutput)
    ensures SumSlots(outputs.deposits) + PublicWithdrawal(kind, amount)
         == SumValues(notes) + PublicDeposit(kind, amount) - (if FeeHasSlot(feeOutput) then 0 else Fee(feeOutput))
    ensures forall slot :: slot in outputs.deposits ==> slot.Dummy? || slot.value > 0
    ensures outputs.hasChange ==> Present(recipient)
    ensures outputs.hasChange <==> kind != Deposit && SumValues(notes) > amount + Fee(feeOutput)
  {
    SumOfTwo(notes);
    var change := SumValues(notes) - amount - Fee(feeOutput);
    match kind
    case Deposit =>
      FeeSlotSum([Filled(amount - Fee(feeOutput))], feeOutput);
    case Withdraw =>
      FeeSlotSum(if change > 0 then [Filled(change)] else [], feeOutput);
    case Transfer =>
      PairSum(Filled(amount), Filled(change));
      PairSum(Filled(amount), Dummy);
      FeeSlotSum(if change > 0 then [Filled(amount), Filled(change)]
                 else if Fee(feeOutput) > 0 then [Filled(amount)]
                 else [Filled(amount), Dummy], feeOutput);
  }

  /** A fee whose collector is blank is taken from the change and put nowhere. */
  lemma FeeWithoutCollectorIsLost()
    ensures var feeOutput := Some(FeeOutput(2, ""));
            var outputs := OutputsOf(Transfer, [10], 5, Some("me"), feeOutput);
            && outputs == Ok(Outputs([Filled(5), Filled(3)], true, false))
            && SumSlots(outputs.value.deposits) == SumValues([10]) - 2
  {
    SumOfTwo([10]);
    PairSum(Filled(5), Filled(3));
  }

  /**
   Who gets which slot: the recipient (or the depositor) first, then the change, then the fee, each with its own
   value. Output records and generated coins are matched in this order.
   */
  lemma SlotsInOrder(
    kind: Kind, notes: seq<int>, amount: int, recipient: Option<string>, feeOutput: Option<FeeOutput>, outputs: Outputs)
    requires NotesOf(kind, notes) && OutputsOf(kind, notes, amount, recipient, feeOutput) == Ok(outputs)
    ensures kind == Transfer ==> outputs.deposits[..1] == [Filled(amount)]
    ensures kind == Deposit ==> outputs.deposits[..1] == [Filled(amount - Fee(feeOutput))]
    ensures outputs.hasChange ==>
              var at := if kind == Transfer then 1 else 0;
              at < |outputs.deposits| && outputs.deposits[at] == Filled(SumValues(notes) - amount - Fee(feeOutput))
    ensures outputs.hasFee <==> FeeHasSlot(feeOutput) && Fee(feeOutput) != 0
    ensures outputs.hasFee ==> outputs.deposits != [] && outputs.deposits[|outputs.deposits| - 1] == Filled(Fee(feeOutput))
    ensures var coins := (if outputs.hasChange then 1 else 0) + (if outputs.hasFee then 1 else 0);
            match kind
            case Transfer =>
              if coins == 0 && Fee(feeOutput) <= 0 then outputs.deposits == [Filled(amount), Dummy]
              else |outputs.deposits| == 1 + coins && Dummy !in outputs.deposits
            case Deposit => |outputs.deposits| == 1 + coins && Dummy !in outputs.deposits
            case Withdraw => |outputs.deposits| == coins && Dummy !in outputs.deposits
  {
    SumOfTwo(notes);
  }

  // ---------------------------------------------------------------- choosing the circuit

  const STANDARD_ZK_CONFIG_NONCE := 0
  const COMMITMENT_V2_ZK_NONCE := 2
  const BINDING_ZK_NONCE := 3
  const SIX_BY_SIX_ZK_NONCE := 6
  const SIX_BY_SIX_BINDING_ZK_NONCE := 7

  datatype FeeKind = FeeKind(kind: Kind, spendSource: Option<SpendSource>, escrowSend: bool)

  /** What a prepared transfer carries: where it spends from, and the claimant limbs of a sweep. */
  datatype Artifacts = Artifacts(spendSource: Option<SpendSource>, escrowSend: bool, claimantLimbs: bool)

  predicate ShouldAttachFeeOutput(input: FeeKind) {
    !(input.spendSource == Some(Escrow) && !input.escrowSend)
  }

  function ZkConfigNonceForFeeBearingKind(input: FeeKind, configured: Option<int>): int {
    if configured == Some(SIX_BY_SIX_BINDING_ZK_NONCE) then SIX_BY_SIX_BINDING_ZK_NONCE
    else if input.kind == Transfer && ShouldAttachFeeOutput(input) then SIX_BY_SIX_BINDING_ZK_NONCE
    else match configured case Some(nonce) => nonce case None => BINDING_ZK_NONCE
  }

  function KindOfPrepared(kind: Kind, artifacts: Artifacts): FeeKind {
    FeeKind(kind, artifacts.spendSource, artifacts.escrowSend)
  }

  /** The nonce a proof is made with: a transfer only looks for claimant limbs, the other kinds at nothing. */
  function ProofNonce(kind: Kind, artifacts: Artifacts, configured: Option<int>): int {
    ZkConfigNonceForFeeBearingKind(
      FeeKind(kind, if kind == Transfer && artifacts.claimantLimbs then Some(Escrow) else None, false), configured)
  }

  /** The nonce recorded with the finished artifacts. */
  function FinalizeNonce(kind: Kind, artifacts: Artifacts, configured: Option<int>): int {
    ZkConfigNonceForFeeBearingKind(
      if kind == Transfer then KindOfPrepared(kind, artifacts) else FeeKind(kind, None, false), configured)
  }

  /** Claimant limbs are carried by escrow sweeps and by nothing else. */
  predicate Consistent(artifacts: Artifacts) {
    artifacts.claimantLimbs <==> artifacts.spendSource == Some(Escrow) && !artifacts.escrowSend
  }

  /** The proof is made for the circuit that is recorded, exactly when the artifacts are consistent or the size is fixed. */
  lemma NoncesAgreeExactly(kind: Kind, artifacts: Artifacts, configured: Option<int>)
    ensures ProofNonce(kind, artifacts, configured) == FinalizeNonce(kind, artifacts, configured) <==>
              (kind != Transfer || configured == Some(SIX_BY_SIX_BINDING_ZK_NONCE) || Consistent(artifacts))
  {
  }

  /** Both nonces in numbers: 7 where it is configured, or for a transfer that bears a fee; else the configured one, or 3. */
  lemma NoncesInNumbers(kind: Kind, artifacts: Artifacts, configured: Option<int>)
    ensures ProofNonce(kind, artifacts, configured) ==
              (if kind == Transfer && !artifacts.claimantLimbs then 7
               else match configured case Some(nonce) => nonce case None => 3)
    ensures FinalizeNonce(kind, artifacts, configured) ==
              (if kind == Transfer && (artifacts.escrowSend || artifacts.spendSource != Some(Escrow)) then 7
               else match configured case Some(nonce) => nonce case None => 3)
  {
  }

  /** How a spend is prepared: from a private address, as a send into escrow, or as a sweep out of it. */
  datatype Preparation = FromPrivateAddress | EscrowSend | EscrowSweep

  /** What each of them stamps on the prepared operation; a send into escrow overwrites the private address. */
  function StampedArtifacts(preparation: Preparation): Artifacts {
    match preparation
    case FromPrivateAddress => Artifacts(Some(PrivateAddress), false, false)
    case EscrowSend => Artifacts(Some(Escrow), true, false)
    case EscrowSweep => Artifacts(Some(Escrow), false, true)
  }

  /** Everything that is prepared is consistent, so its proof and its record name one circuit. */
  lemma PreparedIsConsistent(preparation: Preparation, kind: Kind, configured: Option<int>)
    ensures Consistent(StampedArtifacts(preparation))
    ensures StampedArtifacts(preparation).claimantLimbs <==> preparation == EscrowSweep
    ensures StampedArtifacts(preparation).escrowSend <==> preparation == EscrowSend
    ensures StampedArtifacts(preparation).spendSource
         == Some(if preparation == FromPrivateAddress then SpendSource.PrivateAddress else Escrow)
    ensures ProofNonce(kind, StampedArtifacts(preparation), configured)
         == FinalizeNonce(kind, StampedArtifacts(preparation), configured)
  {
    NoncesAgreeExactly(kind, StampedArtifacts(preparation), configured);
  }

  /** The fee output that is quoted: none for a kind that carries no fee, and none for a quote that is not positive. */
  function QuotedFee(input: FeeKind, quote: FeeOutput): Option<FeeOutput> {
    if !ShouldAttachFeeOutput(input) || quote.requiredFee <= 0 then None else Some(quote)
  }

  /** A fee is quoted as it is asked, but for sweeps out of escrow, and only if it is positive. */
  lemma QuotedExactly(kind: Kind, artifacts: Artifacts, quote: FeeOutput)
    ensures QuotedFee(KindOfPrepared(kind, artifacts), quote) ==
              if quote.requiredFee > 0 && (artifacts.escrowSend || artifacts.spendSource != Some(Escrow)) then Some(quote)
              else None
  {
  }

  predicate KnownNonce(nonce: int) {
    nonce in {STANDARD_ZK_CONFIG_NONCE, COMMITMENT_V2_ZK_NONCE, BINDING_ZK_NONCE, SIX_BY_SIX_ZK_NONCE,
              SIX_BY_SIX_BINDING_ZK_NONCE}
  }

  datatype Layout = Layout(nIns: nat, nOuts: nat)

  function LayoutOf(nonce: int): Layout
    requires KnownNonce(nonce)
  {
    if nonce == SIX_BY_SIX_ZK_NONCE || nonce == SIX_BY_SIX_BINDING_ZK_NONCE then Layout(6, 6) else Layout(2, 2)
  }

  // ---------------------------------------------------------------- padding and hints

  function Pad<T>(values: seq<T>, length: nat, fill: T): (r: Result<seq<T>>)
    ensures r.Ok? <==> |values| <= length
    ensures r.Ok? ==> |r.value| == length
    ensures r.Ok? ==> forall k :: 0 <= k < length ==> r.value[k] == if k < |values| then values[k] else fill
  {
    if |values| > length then Err(TooManySlots) else Ok(values + seq(length - |values|, _ => fill))
  }

  function BuildApplicationIdHints(layout: Layout, inputIds: seq<string>, outputIds: seq<string>): Result<seq<string>> {
    var ins :- Pad(inputIds, layout.nIns, "0");
    var outs :- Pad(outputIds, layout.nOuts, "0");
    Ok(ins + outs)
  }

  function OutputIds(kind: Kind, app: string, outputs: Outputs): seq<string> {
    var change, fee := if outputs.hasChange then [app] else [], if outputs.hasFee then [app] else [];
    match kind
    case Transfer => [app] + (if outputs.hasChange || outputs.hasFee then change else ["0"]) + fee
    case Withdraw => if outputs.hasChange || outputs.hasFee then change + fee else ["0"]
    case Deposit => [app] + fee
  }

  /** The builder of transfers with one and with two inputs. */
  method BuildTransferOutputIds(app: string, outputs: Outputs) returns (outputIds: seq<string>)
    ensures outputIds == OutputIds(Transfer, app, outputs)
  {
    outputIds := [app];
    if outputs.hasChange {
      outputIds := outputIds + [app];
    } else if !outputs.hasFee {
      outputIds := outputIds + ["0"];
    }
    if outputs.hasFee {
      outputIds := outputIds + [app];
    }
  }

  method WithdrawOutputApplicationIds(app: string, outputs: Outputs) returns (outputIds: seq<string>)
    ensures outputIds == OutputIds(Withdraw, app, outputs)
  {
    outputIds := [];
    if outputs.hasChange {
      outputIds := outputIds + [app];
    }
    if outputs.hasFee {
      outputIds := outputIds + [app];
    }
    if |outputIds| == 0 {
      outputIds := outputIds + ["0"];
    }
  }

  function InputIds(app: string, notes: seq<int>): seq<string> {
    seq(|notes|, _ => app)
  }

  /** Everything fits, and each hint is "0" where its input or output slot is a dummy, and else the application's id. */
  ghost predicate FitsAndAligned(layout: Layout, kind: Kind, app: string, notes: seq<int>, outputs: Outputs) {
    var hints := BuildApplicationIdHints(layout, InputIds(app, notes), OutputIds(kind, app, outputs));
    var slots := Pad(outputs.deposits, layout.nOuts, Dummy);
    && hints.Ok? && slots.Ok? && |hints.value| == layout.nIns + layout.nOuts
    && (forall k :: 0 <= k < layout.nIns ==> hints.value[k] == if k < |notes| then app else "0")
    && (forall k :: 0 <= k < layout.nOuts ==> hints.value[layout.nIns + k] == if slots.value[k] == Dummy then "0" else app)
  }

  /** Ids and slots of one spend line up position by position, however far both are padded. */
  lemma IdsFollowSlots(
    kind: Kind, app: string, notes: seq<int>, amount: int, recipient: Option<string>, feeOutput: Option<FeeOutput>,
    outputs: Outputs, k: nat)
    requires NotesOf(kind, notes)
    requires OutputsOf(kind, notes, amount, recipient, feeOutput) == Ok(outputs) && app != "0"
    ensures var ids := OutputIds(kind, app, outputs);
            && (k < |ids| && ids[k] != "0" <==> k < |outputs.deposits| && outputs.deposits[k] != Dummy)
            && (forall id :: id in ids ==> id == app || id == "0")
            && |outputs.deposits| <= 3 && |ids| <= 3
            && ((kind != Transfer || !outputs.hasFee) ==> |outputs.deposits| <= 2 && |ids| <= 2)
  {
    SumOfTwo(notes);
  }

  /** Slots and ids that do not outnumber a circuit's outputs are padded without an error and line up. */
  lemma FittingIsAligned(
    kind: Kind, app: string, notes: seq<int>, amount: int, recipient: Option<string>, feeOutput: Option<FeeOutput>,
    outputs: Outputs, layout: Layout)
    requires NotesOf(kind, notes) && app != "0" && |notes| <= layout.nIns
    requires OutputsOf(kind, notes, amount, recipient, feeOutput) == Ok(outputs)
    requires |outputs.deposits| <= layout.nOuts && |OutputIds(kind, app, outputs)| <= layout.nOuts
    ensures FitsAndAligned(layout, kind, app, notes, outputs)
  {
    var ids := OutputIds(kind, app, outputs);
    var slots := Pad(outputs.deposits, layout.nOuts, Dummy).value;
    var ins, outs := Pad(InputIds(app, notes), layout.nIns, "0").value, Pad(ids, layout.nOuts, "0").value;
    forall k: nat | k < layout.nOuts
      ensures outs[k] == if slots[k] == Dummy then "0" else app
    {
      IdsFollowSlots(kind, app, notes, amount, recipient, feeOutput, outputs, k);
    }
    assert forall k :: 0 <= k < layout.nOuts ==> (ins + outs)[layout.nIns + k] == outs[k];
  }

  /**
   For every kind, spend source, fee, change and known nonce, the slots fit the circuit the nonce selects, the
   padding error cannot occur, and hints and slots agree.
   */
  lemma SlotsAlwaysFit(
    kind: Kind, artifacts: Artifacts, configured: Option<int>, app: string, notes: seq<int>, amount: int,
    recipient: Option<string>, quote: FeeOutput, outputs: Outputs)
    requires NotesOf(kind, notes)
    requires app != "0" && Consistent(artifacts)
    requires configured.Some? ==> KnownNonce(configured.value)
    requires OutputsOf(kind, notes, amount, recipient, QuotedFee(KindOfPrepared(kind, artifacts), quote)) == Ok(outputs)
    ensures KnownNonce(ProofNonce(kind, artifacts, configured))
    ensures FitsAndAligned(LayoutOf(ProofNonce(kind, artifacts, configured)), kind, app, notes, outputs)
    ensures LayoutOf(ProofNonce(kind, artifacts, configured)) ==
              if ProofNonce(kind, artifacts, configured) in {6, 7} then Layout(6, 6) else Layout(2, 2)
  {
    SlotsFitExactly(kind, artifacts, configured, app, notes, amount, recipient, quote, outputs);
  }

  /** A fee-bearing transfer with change, proved for a circuit of two because it carries claimant limbs. */
  predicate Overflows(
    kind: Kind, artifacts: Artifacts, configured: Option<int>, quote: FeeOutput, outputs: Outputs)
  {
    && kind == Transfer && outputs.hasChange
    && artifacts.claimantLimbs && configured != Some(SIX_BY_SIX_ZK_NONCE) && configured != Some(SIX_BY_SIX_BINDING_ZK_NONCE)
    && ShouldAttachFeeOutput(KindOfPrepared(kind, artifacts)) && quote.requiredFee > 0 && quote.collector != ""
  }

  /**
   For any artifacts at all: everything fits and is aligned if and only if this is not such a transfer. Consistent
   artifacts never are one.
   */
  lemma SlotsFitExactly(
    kind: Kind, artifacts: Artifacts, configured: Option<int>, app: string, notes: seq<int>, amount: int,
    recipient: Option<string>, quote: FeeOutput, outputs: Outputs)
    requires NotesOf(kind, notes) && app != "0"
    requires configured.Some? ==> KnownNonce(configured.value)
    requires OutputsOf(kind, notes, amount, recipient, QuotedFee(KindOfPrepared(kind, artifacts), quote)) == Ok(outputs)
    ensures KnownNonce(ProofNonce(kind, artifacts, configured))
    ensures FitsAndAligned(LayoutOf(ProofNonce(kind, artifacts, configured)), kind, app, notes, outputs)
       <==> !Overflows(kind, artifacts, configured, quote, outputs)
    ensures Consistent(artifacts) ==> !Overflows(kind, artifacts, configured, quote, outputs)
  {
    var feeOutput := QuotedFee(KindOfPrepared(kind, artifacts), quote);
    var layout := LayoutOf(ProofNonce(kind, artifacts, configured));
    if Overflows(kind, artifacts, configured, quote, outputs) {
      SumOfTwo(notes);
      assert layout.nOuts == 2 && |outputs.deposits| == 3;
    } else {
      IdsFollowSlots(kind, app, notes, amount, recipient, feeOutput, outputs, 0);
      NotOverflowingFits(kind, artifacts, configured, notes, amount, recipient, quote, outputs);
      FittingIsAligned(kind, app, notes, amount, recipient, feeOutput, outputs, layout);
    }
  }

  lemma NotOverflowingFits(
    kind: Kind, artifacts: Artifacts, configured: Option<int>, notes: seq<int>, amount: int,
    recipient: Option<string>, quote: FeeOutput, outputs: Outputs)
    requires NotesOf(kind, notes) && (configured.Some? ==> KnownNonce(configured.value))
    requires OutputsOf(kind, notes, amount, recipient, QuotedFee(KindOfPrepared(kind, artifacts), quote)) == Ok(outputs)
    requires !Overflows(kind, artifacts, configured, quote, outputs)
    ensures var layout := LayoutOf(ProofNonce(kind, artifacts, configured));
            |outputs.deposits| <= layout.nOuts && |OutputIds(kind, "", outputs)| <= layout.nOuts
  {
    SumOfTwo(notes);
  }
}
