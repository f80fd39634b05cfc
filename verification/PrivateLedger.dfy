/** The ledger's operations on the stored array, the storage commit after a submission, and the balance. */
module PrivateLedger {
  import opened Common
  import opened PrivateRecords
  import opened RecordStore

  // ---------------------------------------------------------------- marking

  function Marked(r: PrivateRecord, ids: set<string>, status: Status): (m: PrivateRecord)
    ensures m.id == r.id && CommitmentKey(m) == CommitmentKey(r)
    ensures Normalized(r) == r ==> Normalized(m) == m
  {
    if r.id in ids then r.(status := Some(status), consumed := status == Spent || r.consumed) else r
  }

  function MarkedAll(records: seq<PrivateRecord>, ids: set<string>, status: Status): (all: seq<PrivateRecord>)
    ensures |all| == |records| && forall i :: 0 <= i < |records| ==> all[i] == Marked(records[i], ids, status)
    ensures KeysOf(all) == KeysOf(records)
  {
    seq(|records|, i requires 0 <= i < |records| => Marked(records[i], ids, status))
  }

  /** What marking makes of a record: the status of those with the ids, which are consumed once spent; nothing else. */
  ghost predicate ShowsMark(r: PrivateRecord, m: PrivateRecord, ids: set<string>, status: Status) {
    if r.id in ids then
      && m == r.(status := m.status, consumed := m.consumed)
      && m.status == Some(status) && (m.consumed <==> r.consumed || status == Spent)
    else m == r
  }

  /** The records of a list, marked one by one. */
  ghost predicate ShowsMarks(before: seq<PrivateRecord>, after: seq<PrivateRecord>, ids: set<string>, status: Status) {
    |after| == |before| && forall i :: 0 <= i < |before| ==> ShowsMark(before[i], after[i], ids, status)
  }

  lemma MarksAreShown(before: seq<PrivateRecord>, ids: set<string>, status: Status)
    ensures ShowsMarks(before, MarkedAll(before, ids, status), ids, status)
  {
  }

  lemma MarkedStaysReadable(raw: seq<Raw>, ids: set<string>, status: Status)
    ensures ReadOf(StoredAll(MarkedAll(ReadOf(raw), ids, status))) == MarkedAll(ReadOf(raw), ids, status)
  {
    ReadIsNormal(raw);
    var all := MarkedAll(ReadOf(raw), ids, status);
    forall r | r in all
      ensures Normalized(r) == r
    {
      var i :| 0 <= i < |all| && all[i] == r;
      assert ReadOf(raw)[i] in ReadOf(raw);
    }
    ReplacedIsRead(all);
  }

  // ---------------------------------------------------------------- selecting and balances

  datatype AvailableFilter = AvailableFilter(
    owner: Option<string>, privateAddress: Option<string>, asset: Option<AssetId>)

  predicate IsSpent(r: PrivateRecord) {
    r.consumed || r.status == Some(Spent)
  }

  predicate Matches(r: PrivateRecord, filter: AvailableFilter) {
    && (filter.owner.Some? ==> r.owner == filter.owner.value)
    && (filter.privateAddress.Some? ==> r.privateAddress == filter.privateAddress)
    && (filter.owner.Some? || filter.privateAddress.Some?)
    && (filter.asset.Some? ==> r.asset == filter.asset.value)
    && !IsSpent(r)
  }

  function AvailableRecords(records: seq<PrivateRecord>, filter: AvailableFilter): seq<PrivateRecord> {
    FilterRecords(records, (r: PrivateRecord) => Matches(r, filter))
  }

  /**
   What is listed: the records of the asked asset, owner and private address that are neither consumed nor marked spent.
   A filter that asks for neither owner nor private address lists nothing.
   */
  lemma ListedExactly(records: seq<PrivateRecord>, filter: AvailableFilter, r: PrivateRecord)
    ensures r in AvailableRecords(records, filter) <==>
              && r in records && !r.consumed && r.status != Some(Spent)
              && (filter.asset == None || filter.asset == Some(r.asset))
              && (filter.owner == None || filter.owner == Some(r.owner))
              && (filter.privateAddress == None || filter.privateAddress == r.privateAddress)
              && !(filter.owner == None && filter.privateAddress == None)
  {
    FilterRecordsIn(records, (x: PrivateRecord) => Matches(x, filter));
  }

  function Sum(records: seq<PrivateRecord>): int {
    if records == [] then 0 else Sum(Init(records)) + Last(records).amount
  }

  /** The filter-and-sum behind a balance query. */
  function Balance(records: seq<PrivateRecord>, owner: string, asset: AssetId): int {
    Sum(AvailableRecords(records, AvailableFilter(Some(owner), None, Some(asset))))
  }

  /** The part of the records that carries one of the ids. */
  function Carrying(records: seq<PrivateRecord>, ids: set<string>): seq<PrivateRecord> {
    FilterRecords(records, (r: PrivateRecord) => r.id in ids)
  }

  /** What one record adds to a balance. */
  function Share(r: PrivateRecord, owner: string, asset: AssetId): int {
    if r.owner == owner && r.asset == asset && !r.consumed && r.status != Some(Spent) then r.amount else 0
  }

  lemma BalanceStep(records: seq<PrivateRecord>, r: PrivateRecord, owner: string, asset: AssetId)
    ensures Balance(records + [r], owner, asset) == Balance(records, owner, asset) + Share(r, owner, asset)
  {
    var filter := AvailableFilter(Some(owner), None, Some(asset));
    assert Init(records + [r]) == records && Last(records + [r]) == r;
    var kept := AvailableRecords(records, filter);
    if Matches(r, filter) {
      assert Init(kept + [r]) == kept;
    } else {
      assert kept + [] == kept;
    }
  }

  lemma {:induction false} BalanceAppend(
    records: seq<PrivateRecord>, more: seq<PrivateRecord>, owner: string, asset: AssetId)
    ensures Balance(records + more, owner, asset) == Balance(records, owner, asset) + Balance(more, owner, asset)
    decreases |more|
  {
    if more == [] {
      assert records + more == records;
    } else {
      var init, last := Init(more), Last(more);
      BalanceAppend(records, init, owner, asset);
      assert records + more == (records + init) + [last] && more == init + [last];
      BalanceStep(records + init, last, owner, asset);
      BalanceStep(init, last, owner, asset);
    }
  }

  lemma CarryingStep(records: seq<PrivateRecord>, r: PrivateRecord, ids: set<string>, owner: string, asset: AssetId)
    ensures Balance(Carrying(records + [r], ids), owner, asset)
         == Balance(Carrying(records, ids), owner, asset) + if r.id in ids then Share(r, owner, asset) else 0
  {
    var part := Carrying(records, ids);
    assert Init(records + [r]) == records;
    assert part + [] == part;
    BalanceStep(part, r, owner, asset);
  }

  /** Marking records spent takes exactly their part out of every balance. */
  lemma {:induction false} SpendingLowersBalance(
    records: seq<PrivateRecord>, ids: set<string>, owner: string, asset: AssetId)
    ensures Balance(MarkedAll(records, ids, Spent), owner, asset)
         == Balance(records, owner, asset) - Balance(Carrying(records, ids), owner, asset)
  {
    if records == [] {
      assert MarkedAll(records, ids, Spent) == records;
    } else {
      var init, last := Init(records), Last(records);
      SpendingLowersBalance(init, ids, owner, asset);
      assert MarkedAll(records, ids, Spent) == MarkedAll(init, ids, Spent) + [Marked(last, ids, Spent)];
      assert records == init + [last];
      BalanceStep(MarkedAll(init, ids, Spent), Marked(last, ids, Spent), owner, asset);
      BalanceStep(init, last, owner, asset);
      CarryingStep(init, last, ids, owner, asset);
    }
  }

  predicate DistinctIds(records: seq<PrivateRecord>) {
    forall i, j :: 0 <= i < j < |records| ==> records[i].id != records[j].id
  }

  lemma {:induction false} CarryingNoMore(records: seq<PrivateRecord>, ids: set<string>, id: string)
    requires forall r :: r in records ==> r.id != id
    ensures Carrying(records, ids + {id}) == Carrying(records, ids)
  {
    if records != [] {
      assert records == Init(records) + [Last(records)];
      CarryingNoMore(Init(records), ids, id);
    }
  }

  /** One more id adds the one record that carries it. */
  lemma {:induction false} CarryingOneMore(
    records: seq<PrivateRecord>, ids: set<string>, r: PrivateRecord, owner: string, asset: AssetId)
    requires DistinctIds(records) && r in records && r.id !in ids
    ensures Balance(Carrying(records, ids + {r.id}), owner, asset)
         == Balance(Carrying(records, ids), owner, asset) + Share(r, owner, asset)
  {
    var init, last := Init(records), Last(records);
    assert records == init + [last];
    CarryingStep(init, last, ids, owner, asset);
    CarryingStep(init, last, ids + {r.id}, owner, asset);
    if last == r {
      assert forall i :: 0 <= i < |init| ==> records[i].id != records[|init|].id;
      CarryingNoMore(init, ids, r.id);
    } else {
      var i :| 0 <= i < |init| && init[i] == r;
      assert records[i].id != records[|init|].id;
      CarryingOneMore(init, ids, r, owner, asset);
    }
  }

  /** When ids are unique, the part that carries the consumed ids is worth what the consumed records are. */
  lemma {:induction false} CarriedIsConsumed(
    records: seq<PrivateRecord>, consumed: seq<PrivateRecord>, owner: string, asset: AssetId)
    requires DistinctIds(records) && DistinctIds(consumed)
    requires forall r :: r in consumed ==> r in records
    ensures Balance(Carrying(records, Ids(consumed)), owner, asset) == Balance(consumed, owner, asset)
  {
    if consumed == [] {
      CarryingNothing(records);
    } else {
      var init, last := Init(consumed), Last(consumed);
      assert consumed == init + [last];
      CarriedIsConsumed(records, init, owner, asset);
      assert Ids(consumed) == Ids(init) + {last.id};
      CarryingOneMore(records, Ids(init), last, owner, asset);
      BalanceStep(init, last, owner, asset);
    }
  }

  lemma {:induction false} CarryingNothing(records: seq<PrivateRecord>)
    ensures Carrying(records, Ids([])) == []
  {
    if records != [] {
      CarryingNothing(Init(records));
    }
  }

  // ---------------------------------------------------------------- committing a submission

  function Stamped(r: PrivateRecord, receipt: Receipt): PrivateRecord {
    r.(txHash := Some(receipt.operationId), status := if receipt.confirmed then Some(Finalized) else r.status)
  }

  function StampedAll(records: seq<PrivateRecord>, receipt: Receipt): (all: seq<PrivateRecord>)
    ensures KeysOf(all) == KeysOf(records)
    ensures |all| == |records| && forall i :: 0 <= i < |records| ==> all[i] == Stamped(records[i], receipt)
  {
    seq(|records|, i requires 0 <= i < |records| => Stamped(records[i], receipt))
  }

  /**
   What is read of an output after the commit: it carries the operation's id, is finalized if the receipt is confirmed,
   and names its owner as private address if it has none and the owner is one. Everything else is as prepared.
   */
  ghost predicate ShowsOutput(output: PrivateRecord, r: PrivateRecord, receipt: Receipt) {
    && r == output.(txHash := r.txHash, status := r.status, privateAddress := r.privateAddress)
    && r.txHash == Some(receipt.operationId)
    && r.status == (if receipt.confirmed then Some(Finalized) else output.status)
    && r.privateAddress == (if (output.privateAddress == None || output.privateAddress == Some("")) && "stpl" <= output.owner
                            then Some(output.owner) else output.privateAddress)
  }

  /** The outputs of a list, one by one. */
  ghost predicate ShowsOutputs(outputs: seq<PrivateRecord>, added: seq<PrivateRecord>, receipt: Receipt) {
    |added| == |outputs| && forall i :: 0 <= i < |outputs| ==> ShowsOutput(outputs[i], added[i], receipt)
  }

  lemma OutputsAreShown(outputs: seq<PrivateRecord>, receipt: Receipt)
    ensures ShowsOutputs(outputs, NormalizedAll(StampedAll(outputs, receipt)), receipt)
  {
  }

  /** What a commit makes of the list that is read: the consumed records are spent, and the outputs follow. */
  ghost predicate ShowsCommit(
    before: seq<PrivateRecord>, after: seq<PrivateRecord>, outputs: seq<PrivateRecord>, consumed: seq<PrivateRecord>,
    receipt: Receipt)
  {
    && |after| >= |before|
    && ShowsMarks(before, after[..|before|], Ids(consumed), Spent)
    && ShowsOutputs(outputs, after[|before|..], receipt)
  }

  lemma CommitIsShown(
    before: seq<PrivateRecord>, outputs: seq<PrivateRecord>, consumed: seq<PrivateRecord>, receipt: Receipt)
    ensures ShowsCommit(before, AfterCommit(before, outputs, consumed, receipt), outputs, consumed, receipt)
  {
    var after := AfterCommit(before, outputs, consumed, receipt);
    MarksAreShown(before, Ids(consumed), Spent);
    OutputsAreShown(outputs, receipt);
    assert after[..|before|] == MarkedAll(before, Ids(consumed), Spent);
    assert after[|before|..] == NormalizedAll(StampedAll(outputs, receipt));
  }

  /** The outputs have new, distinct commitment keys, and ids that are not being consumed. */
  predicate FreshOutputs(raw: seq<Raw>, outputs: seq<PrivateRecord>, consumed: seq<PrivateRecord>) {
    && Distinct(KeysOf(outputs))
    && (forall key :: key in KeysOf(outputs) ==> key !in KeysOf(ReadOf(raw)))
    && (forall r :: r in outputs ==> r.id !in Ids(consumed))
  }

  /** What the ledger reads once both storage writes have been done. */
  function AfterCommit(
    before: seq<PrivateRecord>, outputs: seq<PrivateRecord>, consumed: seq<PrivateRecord>, receipt: Receipt)
    : seq<PrivateRecord>
  {
    MarkedAll(before, Ids(consumed), Spent) + NormalizedAll(StampedAll(outputs, receipt))
  }

  lemma PushedOutputsAreRead(raw: seq<Raw>, outputs: seq<PrivateRecord>, consumed: seq<PrivateRecord>, receipt: Receipt)
    requires FreshOutputs(raw, outputs, consumed)
    ensures ReadOf(raw + StoredAll(StampedAll(outputs, receipt)))
         == ReadOf(raw) + NormalizedAll(StampedAll(outputs, receipt))
  {
    ParsedAppend(raw, StampedAll(outputs, receipt));
    ReadIsNormal(raw);
    DedupAppendsFresh(Parsed(raw), NormalizedAll(StampedAll(outputs, receipt)));
  }

  lemma OutputsAreNotMarked(
    before: seq<PrivateRecord>, outputs: seq<PrivateRecord>, consumed: seq<PrivateRecord>, receipt: Receipt)
    requires forall r :: r in outputs ==> r.id !in Ids(consumed)
    ensures MarkedAll(before + NormalizedAll(StampedAll(outputs, receipt)), Ids(consumed), Spent)
         == AfterCommit(before, outputs, consumed, receipt)
  {
    var added := NormalizedAll(StampedAll(outputs, receipt));
    forall i | 0 <= i < |added|
      ensures added[i].id !in Ids(consumed)
    {
      assert outputs[i] in outputs;
    }
  }

  /** After a commit no consumed note can be listed for selection again, by any filter. */
  lemma ConsumedIsNeverListedAgain(
    before: seq<PrivateRecord>, outputs: seq<PrivateRecord>, consumed: seq<PrivateRecord>, receipt: Receipt,
    filter: AvailableFilter)
    requires forall r :: r in outputs ==> r.id !in Ids(consumed)
    ensures forall r :: r in AvailableRecords(AfterCommit(before, outputs, consumed, receipt), filter)
              ==> r.id !in Ids(consumed)
  {
    var after := AfterCommit(before, outputs, consumed, receipt);
    FilterRecordsIn(after, (r: PrivateRecord) => Matches(r, filter));
    forall r | r in after && Matches(r, filter)
      ensures r.id !in Ids(consumed)
    {
      var i :| 0 <= i < |after| && after[i] == r;
      if i >= |before| {
        assert outputs[i - |before|] in outputs;
      }
    }
  }

  /** Every balance changes by the outputs minus the consumed records. */
  lemma CommitMovesBalance(
    before: seq<PrivateRecord>, outputs: seq<PrivateRecord>, consumed: seq<PrivateRecord>, receipt: Receipt,
    owner: string, asset: AssetId)
    ensures Balance(AfterCommit(before, outputs, consumed, receipt), owner, asset)
         == Balance(before, owner, asset) - Balance(Carrying(before, Ids(consumed)), owner, asset)
            + Balance(StampedAll(outputs, receipt), owner, asset)
    ensures (DistinctIds(before) && DistinctIds(consumed) && (forall r :: r in consumed ==> r in before)) ==>
              Balance(AfterCommit(before, outputs, consumed, receipt), owner, asset)
              == Balance(before, owner, asset) - Balance(consumed, owner, asset)
                 + Balance(StampedAll(outputs, receipt), owner, asset)
  {
    BalanceAppend(MarkedAll(before, Ids(consumed), Spent), NormalizedAll(StampedAll(outputs, receipt)), owner, asset);
    SpendingLowersBalance(before, Ids(consumed), owner, asset);
    NormalizedKeepsBalance(StampedAll(outputs, receipt), owner, asset);
    if DistinctIds(before) && DistinctIds(consumed) && (forall r :: r in consumed ==> r in before) {
      CarriedIsConsumed(before, consumed, owner, asset);
    }
  }

  lemma {:induction false} NormalizedKeepsBalance(records: seq<PrivateRecord>, owner: string, asset: AssetId)
    ensures Balance(NormalizedAll(records), owner, asset) == Balance(records, owner, asset)
  {
    if records == [] {
      assert NormalizedAll(records) == records;
    } else {
      var init, last := Init(records), Last(records);
      assert records == init + [last];
      NormalizedKeepsBalance(init, owner, asset);
      NormalizedSnoc(init, last);
      BalanceStep(NormalizedAll(init), Normalized(last), owner, asset);
      BalanceStep(init, last, owner, asset);
    }
  }

  // ---------------------------------------------------------------- pruning

  function NotConsumed(): PrivateRecord -> bool {
    (r: PrivateRecord) => !r.consumed
  }

  lemma {:induction false} ParsedWithoutConsumed(raw: seq<Raw>)
    ensures Parsed(WithoutConsumed(raw)) == FilterRecords(Parsed(raw), NotConsumed())
  {
    if raw != [] {
      var init, rest := Init(raw), WithoutConsumed(Init(raw));
      ParsedWithoutConsumed(init);
      assert rest + [] == rest && Init(rest + [Last(raw)]) == rest;
      if Last(raw).Stored? {
        assert Init(Parsed(init) + [Normalized(Last(raw).record)]) == Parsed(init);
      }
    }
  }

  /** No unconsumed item is kept from view by a consumed survivor of its key. */
  predicate NothingHidden(raw: seq<Raw>) {
    forall r :: r in Parsed(raw) && !r.consumed ==>
      var survivor := Survivor(Parsed(raw), CommitmentKey(r));
      survivor.Some? && !survivor.value.consumed
  }

  lemma KeyOfMember(records: seq<PrivateRecord>, r: PrivateRecord)
    requires r in records
    ensures CommitmentKey(r) in KeysOf(records)
  {
    var i :| 0 <= i < |records| && records[i] == r;
    assert KeysOf(records)[i] == CommitmentKey(r);
  }

  lemma MemberOfKey(records: seq<PrivateRecord>, key: string) returns (r: PrivateRecord)
    requires key in KeysOf(records)
    ensures r in records && CommitmentKey(r) == key
  {
    var i :| 0 <= i < |records| && KeysOf(records)[i] == key;
    r := records[i];
  }

  /** A key is still read after pruning exactly when some stored item with it is not consumed. */
  lemma KeysAfterPrune(raw: seq<Raw>, key: string)
    ensures key in KeysOf(ReadOf(WithoutConsumed(raw)))
       <==> exists r :: r in Parsed(raw) && CommitmentKey(r) == key && !r.consumed
  {
    ParsedWithoutConsumed(raw);
    var left := FilterRecords(Parsed(raw), NotConsumed());
    FilterRecordsIn(Parsed(raw), NotConsumed());
    DedupOnePerKey(left);
    if key in KeysOf(left) {
      var r := MemberOfKey(left, key);
      assert r in Parsed(raw);
    }
    if r :| r in Parsed(raw) && CommitmentKey(r) == key && !r.consumed {
      KeyOfMember(left, r);
    }
  }

  /** Pruning brings back no key that was read as consumed, exactly when nothing was hidden behind one. */
  lemma PruneRevivesExactlyTheHidden(raw: seq<Raw>)
    ensures (forall r :: r in ReadOf(raw) && r.consumed ==>
               CommitmentKey(r) !in KeysOf(ReadOf(WithoutConsumed(raw)))) <==> NothingHidden(raw)
  {
    var all := Parsed(raw);
    DedupOnePerKey(all);
    if NothingHidden(raw) {
      forall r | r in ReadOf(raw) && r.consumed
        ensures CommitmentKey(r) !in KeysOf(ReadOf(WithoutConsumed(raw)))
      {
        KeysAfterPrune(raw, CommitmentKey(r));
        assert Some(r) == Survivor(all, CommitmentKey(r));
      }
    } else {
      var r :| r in all && !r.consumed
               && (var survivor := Survivor(all, CommitmentKey(r)); survivor.None? || survivor.value.consumed);
      KeysAfterPrune(raw, CommitmentKey(r));
      KeyOfMember(all, r);
      var read := MemberOfKey(Dedup(all), CommitmentKey(r));
      assert read in ReadOf(raw) && read.consumed;
    }
  }

  /** Such an item: an available note behind a consumed one with the same key is listed again after pruning. */
  lemma HiddenNoteComesBack(key: string, amount: int)
    requires key != "" && key != "first"
    ensures var open, spent := Plain("first", key, amount), Plain("second", key, amount).(consumed := true);
            var raw := StoredAll([open, spent]);
            !NothingHidden(raw) && ReadOf(raw) == [spent] && ReadOf(WithoutConsumed(raw)) == [open]
  {
    var open, spent := Plain("first", key, amount), Plain("second", key, amount).(consumed := true);
    var all := [open, spent];
    var raw := StoredAll(all);
    ParsedStored(all);
    assert NormalizedAll(all) == all;
    TwoUnderOneKey(open, spent);
    ParsedWithoutConsumed(raw);
    assert all == [open] + [spent] && [open] == [] + [open];
    assert Init(all) == [open] && Init([open]) == [];
    assert FilterRecords([open], NotConsumed()) == [open];
    assert FilterRecords(all, NotConsumed()) == [open];
    DedupOfDistinct([open]);
    SurvivorStep([], open, key);
    SurvivorStep([open], spent, key);
    assert open in Parsed(raw) && CommitmentKey(open) == key;
  }

  /** After a status change the stored array has one item per key, and then pruning is a filter on what is read. */
  lemma PruneOfDistinct(raw: seq<Raw>)
    requires Distinct(KeysOf(Parsed(raw)))
    ensures ReadOf(WithoutConsumed(raw)) == FilterRecords(ReadOf(raw), NotConsumed())
  {
    ParsedWithoutConsumed(raw);
    DedupOfDistinct(Parsed(raw));
    FilterKeepsDistinct(Parsed(raw), NotConsumed());
    DedupOfDistinct(FilterRecords(Parsed(raw), NotConsumed()));
  }

  // ---------------------------------------------------------------- the operations

  class Ledger {
    var raw: seq<Raw>

    constructor ()
      ensures raw == []
    {
      raw := [];
    }

    method ReadPrivateRecords() returns (e: Ended<seq<PrivateRecord>>)
      ensures e.Done? ==> e.value == ReadOf(raw) && ReadsOnePerKey(raw, e.value)
    {
      if * {
        return Threw;
      }
      var parsed: seq<PrivateRecord> := [];
      for k := 0 to |raw|
        invariant parsed == Parsed(raw[..k])
      {
        assert Init(raw[..k + 1]) == raw[..k];
        if raw[k].Stored? {
          parsed := parsed + [Normalized(raw[k].record)];
        }
      }
      assert raw[..|raw|] == raw;
      var records := DeduplicatePrivateRecords(parsed);
      ReadIsOnePerKey(raw);
      e := Done(records);
    }

    method SavePrivateRecords(records: seq<PrivateRecord>) returns (e: Ended<()>)
      modifies this
      ensures raw == if e.Done? then old(raw) + StoredAll(records) else old(raw)
    {
      if * {
        return Threw;
      }
      raw := raw + StoredAll(records);
      e := Done(());
    }

    method WriteReplacePrivateRecords(records: seq<PrivateRecord>) returns (e: Ended<()>)
      modifies this
      ensures raw == if e.Done? then StoredAll(records) else old(raw)
    {
      if * {
        return Threw;
      }
      raw := StoredAll(records);
      e := Done(());
    }

    method ApplyPrivateRecordsStatus(records: seq<PrivateRecord>, status: Status) returns (e: Ended<()>)
      modifies this
      ensures !e.Done? ==> raw == old(raw)
      ensures e.Done? ==> ReadOf(raw) == MarkedAll(old(ReadOf(raw)), Ids(records), status)
      ensures e.Done? ==> ShowsMarks(old(ReadOf(raw)), ReadOf(raw), Ids(records), status)
    {
      var current :- ReadPrivateRecords();
      MarkedStaysReadable(raw, Ids(records), status);
      MarksAreShown(ReadOf(raw), Ids(records), status);
      e := WriteReplacePrivateRecords(MarkedAll(current, Ids(records), status));
    }

    /** Drops consumed items from the stored array, and with them the items that do not parse. */
    method PruneConsumedPrivateRecords() returns (e: Ended<()>)
      modifies this
      ensures raw == if e.Done? then WithoutConsumed(old(raw)) else old(raw)
    {
      if * {
        return Threw;
      }
      var kept: seq<Raw> := [];
      for k := 0 to |raw|
        invariant kept == WithoutConsumed(raw[..k]) && raw == old(raw)
      {
        assert Init(raw[..k + 1]) == raw[..k];
        if raw[k].Stored? && !raw[k].record.consumed {
          kept := kept + [raw[k]];
        }
      }
      assert raw[..|raw|] == raw;
      raw := kept;
      e := Done(());
    }

    /**
     The write is skipped when the merge is what is read already, and is the filter and push otherwise. For incoming
     records with distinct keys, reading afterwards is merging before, skipped or not, when the stored items fit; and
     after a write only then.
     */
    method UpsertPrivateRecords(records: seq<PrivateRecord>) returns (e: Ended<()>, ghost skipped: bool)
      modifies this
      ensures !e.Done? ==> raw == old(raw)
      ensures e.Done? ==>
                && raw == (if skipped then old(raw) else WithoutIds(old(raw), Ids(records)) + StoredAll(records))
                && (skipped <==> MergePrivateRecords(old(ReadOf(raw)), records) == old(ReadOf(raw)))
      ensures e.Done? && Distinct(KeysOf(records)) ==>
                (ReadOf(raw) == MergePrivateRecords(old(ReadOf(raw)), NormalizedAll(records))
                 <==> skipped || FitsSomehow(Parsed(old(raw)), records))
      ensures e.Done? && Distinct(KeysOf(records)) && IdsAgreeWithKeys(Parsed(old(raw)), records) ==>
                ReadOf(raw) == MergePrivateRecords(old(ReadOf(raw)), NormalizedAll(records))
    {
      skipped := true;
      if |records| == 0 {
        MergeNothing(ReadOf(raw), records);
        assert NormalizedAll(records) == records;
        return Done(()), skipped;
      }
      var current :- ReadPrivateRecords();
      var next := MergePrivateRecords(current, records);
      ArraysEqualMeansEqual(current, next);
      if PrivateRecordArraysEqual(current, next) {
        SkippedUpsertMerges(raw, records);
        return Done(()), skipped;
      }
      if * {
        return Threw, skipped;
      }
      skipped := false;
      if Distinct(KeysOf(records)) {
        WrittenUpsertMergesIff(raw, records);
        if IdsAgreeWithKeys(Parsed(raw), records) {
          AgreeingItemsFit(raw, records);
        }
      }
      raw := WithoutIds(raw, Ids(records)) + StoredAll(records);
      e := Done(());
    }

    /** The stamped outputs are pushed, if there are any. */
    method PushOutputs(outputs: seq<PrivateRecord>, ghost consumed: seq<PrivateRecord>, receipt: Receipt)
      returns (e: Ended<()>)
      requires FreshOutputs(raw, outputs, consumed)
      modifies this
      ensures !e.Done? ==> raw == old(raw)
      ensures e.Done? ==> ReadOf(raw) == old(ReadOf(raw)) + NormalizedAll(StampedAll(outputs, receipt))
    {
      PushedOutputsAreRead(raw, outputs, consumed, receipt);
      if |outputs| > 0 {
        e := SavePrivateRecords(StampedAll(outputs, receipt));
      } else {
        assert raw + StoredAll(StampedAll(outputs, receipt)) == raw;
        e := Done(());
      }
    }

    /** The consumed records are marked spent, if there are any. */
    method MarkConsumed(consumed: seq<PrivateRecord>) returns (e: Ended<()>)
      modifies this
      ensures !e.Done? ==> raw == old(raw)
      ensures e.Done? ==> ReadOf(raw) == MarkedAll(old(ReadOf(raw)), Ids(consumed), Spent)
    {
      if |consumed| > 0 {
        e := ApplyPrivateRecordsStatus(consumed, Spent);
      } else {
        assert MarkedAll(ReadOf(raw), Ids(consumed), Spent) == ReadOf(raw);
        e := Done(());
      }
    }

    /** The outputs are pushed first, then the consumed records marked; either call may be rejected. */
    method CommitStorageChanges(outputs: seq<PrivateRecord>, consumed: seq<PrivateRecord>, receipt: Receipt)
      returns (e: Ended<()>)
      requires FreshOutputs(raw, outputs, consumed)
      modifies this
      ensures e.Done? ==> ReadOf(raw) == AfterCommit(old(ReadOf(raw)), outputs, consumed, receipt)
      ensures e.Done? ==> ShowsCommit(old(ReadOf(raw)), ReadOf(raw), outputs, consumed, receipt)
      ensures !e.Done? ==>
                || raw == old(raw)
                || ReadOf(raw) == old(ReadOf(raw)) + NormalizedAll(StampedAll(outputs, receipt))
    {
      CommitIsShown(ReadOf(raw), outputs, consumed, receipt);
      OutputsAreNotMarked(ReadOf(raw), outputs, consumed, receipt);
      var _ :- PushOutputs(outputs, consumed, receipt);
      e := MarkConsumed(consumed);
    }
  }

  lemma MergeNothing(current: seq<PrivateRecord>, records: seq<PrivateRecord>)
    requires records == []
    ensures MergePrivateRecords(current, NormalizedAll(records)) == current
  {
    KeepAll(current, (r: PrivateRecord) => r.id !in Ids(NormalizedAll(records)));
  }

  lemma {:induction false} KeepAll(records: seq<PrivateRecord>, keeps: PrivateRecord -> bool)
    requires forall r :: r in records ==> keeps(r)
    ensures FilterRecords(records, keeps) == records
  {
    if records != [] {
      assert records == Init(records) + [Last(records)];
      KeepAll(Init(records), keeps);
    }
  }
}
