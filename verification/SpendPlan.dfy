/** Selection, slots and ledger together: from the notes chosen to the notes that can be chosen next. */
module SpendPlan {
  import opened Common
  import opened PrivateRecords
  import opened RecordStore
  import opened PrivateLedger
  import opened RecordSelection
  import Slots = SpendSlots

  function Values(notes: seq<PrivateRecord>, bigInt: string -> Option<int>): (values: seq<int>)
    ensures |values| == |notes|
    ensures forall i :: 0 <= i < |notes| ==> values[i] == Worth(notes[i], bigInt)
  {
    seq(|notes|, i requires 0 <= i < |notes| => Worth(notes[i], bigInt))
  }

  lemma ValuesSum(notes: seq<PrivateRecord>, bigInt: string -> Option<int>)
    requires 1 <= |notes| <= 2
    ensures Slots.SumValues(Values(notes, bigInt)) == TotalWorth(notes, bigInt)
  {
    Slots.SumOfTwo(Values(notes, bigInt));
    assert TotalWorth(notes[..1], bigInt) == TotalWorth([], bigInt) + Worth(notes[0], bigInt) by {
      assert Init(notes[..1]) == [];
    }
    if |notes| == 2 {
      assert Init(notes) == notes[..1];
    } else {
      assert notes == notes[..1];
    }
  }

  /**
   Whatever selection returns can be spent: for any fee up to the hundredth rounded up, the amount checks pass and
   slots for recipient, change and fee can be built.
   */
  lemma SelectedCanBeSpent(
    kind: Slots.Kind, selection: Selection, notes: seq<PrivateRecord>, amount: int, recipient: Option<string>,
    feeOutput: Option<Slots.FeeOutput>, bigInt: string -> Option<int>)
    requires kind != Slots.Deposit && amount >= 1 && Present(recipient)
    requires Decided(selection, notes, SpendAmountCoveringProtocolFee(amount), bigInt) && selection.Selected?
    requires Slots.Fee(feeOutput) <= CeilHundredth(amount)
    ensures Slots.OutputsOf(kind, Values(selection.records, bigInt), amount, recipient, feeOutput).Ok?
  {
    ValuesSum(selection.records, bigInt);
    Slots.SpendSucceedsExactly(kind, Values(selection.records, bigInt), amount, recipient, feeOutput);
  }

  /** The bound is the best one: notes worth exactly the amount and its hundredth cannot pay any larger fee. */
  lemma HundredthIsTight(
    kind: Slots.Kind, selection: Selection, notes: seq<PrivateRecord>, amount: int, recipient: Option<string>,
    feeOutput: Option<Slots.FeeOutput>, bigInt: string -> Option<int>)
    requires kind != Slots.Deposit && amount >= 1
    requires selection.Selected? && 1 <= |selection.records| <= 2
    requires TotalWorth(selection.records, bigInt) == SpendAmountCoveringProtocolFee(amount)
    requires Slots.Fee(feeOutput) > CeilHundredth(amount)
    ensures Slots.OutputsOf(kind, Values(selection.records, bigInt), amount, recipient, feeOutput).Err?
  {
    ValuesSum(selection.records, bigInt);
    Slots.SpendSucceedsExactly(kind, Values(selection.records, bigInt), amount, recipient, feeOutput);
  }

  /** Two notes selected from what the ledger reads are two different notes, with different commitments. */
  lemma SelectedNotesDiffer(
    raw: seq<Raw>, selection: Selection, from: string, asset: AssetId, need: int, context: Context)
    requires Decided(selection, Candidates(ReadOf(raw), from, asset, context), need, context.bigInt)
    requires selection.Selected? && |selection.records| == 2
    ensures CommitmentKey(selection.records[0]) != CommitmentKey(selection.records[1])
  {
    ReadIsNormal(raw);
    var filter := SourceFilter(from, asset);
    var listed := AvailableRecords(ReadOf(raw), filter);
    FilterKeepsDistinct(ReadOf(raw), (r: PrivateRecord) => Matches(r, filter));
    FilterKeepsDistinct(listed, Unspent(context));
    var notes := Candidates(ReadOf(raw), from, asset, context);
    var x, y := selection.records[0], selection.records[1];
    assert selection.records == [x, y];
    var i, j := PairAtPositions(notes, x, y);
    assert if i < j then KeysOf(notes)[i] != KeysOf(notes)[j] else KeysOf(notes)[j] != KeysOf(notes)[i];
  }

  /** Once a spend is committed, no later selection can choose a note it consumed. */
  lemma ConsumedIsNeverSelectedAgain(
    before: seq<PrivateRecord>, outputs: seq<PrivateRecord>, consumed: seq<PrivateRecord>, receipt: Receipt,
    selection: Selection, from: string, asset: AssetId, need: int, context: Context)
    requires forall r :: r in outputs ==> r.id !in Ids(consumed)
    requires Decided(selection, Candidates(AfterCommit(before, outputs, consumed, receipt), from, asset, context), need,
                     context.bigInt)
    requires selection.Selected?
    ensures forall r :: r in selection.records ==> r.id !in Ids(consumed)
  {
    var after := AfterCommit(before, outputs, consumed, receipt);
    ConsumedIsNeverListedAgain(before, outputs, consumed, receipt, SourceFilter(from, asset));
    FilterRecordsIn(AvailableRecords(after, SourceFilter(from, asset)), Unspent(context));
    forall r | r in selection.records
      ensures r.id !in Ids(consumed)
    {
      assert r in multiset(selection.records);
      assert r in multiset(Candidates(after, from, asset, context));
    }
  }
}
