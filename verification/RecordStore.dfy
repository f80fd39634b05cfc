/**
 The private-record ledger over one stored array: reads normalise and deduplicate, writes push onto, filter or
 replace the raw array. The stored array may hold items the schema does not parse, and several records with one
 commitment key. Any storage call may be rejected, and then it has changed nothing.
 */
module RecordStore {
  import opened Common
  import opened PrivateRecords

  datatype Raw = Stored(record: PrivateRecord) | Unparsable

  datatype Receipt = Receipt(operationId: string, confirmed: bool)

  // ---------------------------------------------------------------- reading

  function Normalized(r: PrivateRecord): (n: PrivateRecord)
    ensures n.id == r.id && CommitmentKey(n) == CommitmentKey(r)
  {
    if !Present(r.privateAddress) && "stpl" <= r.owner then r.(privateAddress := Some(r.owner)) else r
  }

  function NormalizedAll(records: seq<PrivateRecord>): (all: seq<PrivateRecord>)
    ensures KeysOf(all) == KeysOf(records)
    ensures |all| == |records| && forall i :: 0 <= i < |records| ==> all[i] == Normalized(records[i])
  {
    seq(|records|, i requires 0 <= i < |records| => Normalized(records[i]))
  }

  function Parsed(raw: seq<Raw>): seq<PrivateRecord> {
    if raw == [] then []
    else
      var rest := Parsed(Init(raw));
      match Last(raw)
      case Stored(r) => rest + [Normalized(r)]
      case Unparsable => rest
  }

  /** What every read of the ledger returns. */
  function ReadOf(raw: seq<Raw>): seq<PrivateRecord> {
    Dedup(Parsed(raw))
  }

  function StoredAll(records: seq<PrivateRecord>): seq<Raw> {
    seq(|records|, i requires 0 <= i < |records| => Stored(records[i]))
  }

  predicate AllNormal(records: seq<PrivateRecord>) {
    forall r :: r in records ==> Normalized(r) == r
  }

  lemma {:induction false} ParsedIsNormal(raw: seq<Raw>)
    ensures AllNormal(Parsed(raw))
  {
    if raw != [] {
      ParsedIsNormal(Init(raw));
    }
  }

  lemma ReadIsNormal(raw: seq<Raw>)
    ensures AllNormal(ReadOf(raw)) && Distinct(KeysOf(ReadOf(raw)))
    ensures forall key :: key in KeysOf(ReadOf(raw)) <==> key in KeysOf(Parsed(raw))
  {
    ParsedIsNormal(raw);
    DedupOnePerKey(Parsed(raw));
  }

  /** A record as it is read: with its owner as private address if it has none and the owner is one. */
  ghost predicate ShowsStored(stored: PrivateRecord, r: PrivateRecord) {
    && r == stored.(privateAddress := r.privateAddress)
    && r.privateAddress == (if (stored.privateAddress == None || stored.privateAddress == Some("")) && "stpl" <= stored.owner
                            then Some(stored.owner) else stored.privateAddress)
  }

  /** The record shows one of the stored items. */
  ghost predicate IsStored(raw: seq<Raw>, r: PrivateRecord) {
    exists i :: 0 <= i < |raw| && raw[i].Stored? && ShowsStored(raw[i].record, r)
  }

  /** Something is read under the key of the item. */
  ghost predicate IsRead(read: seq<PrivateRecord>, item: PrivateRecord) {
    exists i :: 0 <= i < |read| && KeyText(read[i]) == KeyText(item)
  }

  /** Every record read shows a stored one, every stored key is read, and no key is read twice. */
  ghost predicate ReadsOnePerKey(raw: seq<Raw>, read: seq<PrivateRecord>) {
    && (forall r :: r in read ==> IsStored(raw, r))
    && (forall i :: 0 <= i < |raw| && raw[i].Stored? ==> IsRead(read, raw[i].record))
    && NoKeyTwice(read)
  }

  ghost predicate NoKeyTwice(read: seq<PrivateRecord>) {
    forall i, j :: 0 <= i < j < |read| ==> KeyText(read[i]) != KeyText(read[j])
  }

  lemma {:induction false} ParsedIsStored(raw: seq<Raw>, r: PrivateRecord)
    requires r in Parsed(raw)
    ensures IsStored(raw, r)
  {
    if raw != [] {
      var init := Init(raw);
      if r in Parsed(init) {
        ParsedIsStored(init, r);
        var i :| 0 <= i < |init| && init[i].Stored? && ShowsStored(init[i].record, r);
        assert raw[i] == init[i];
      } else {
        assert ShowsStored(raw[|raw| - 1].record, r);
      }
    }
  }

  lemma {:induction false} StoredIsParsed(raw: seq<Raw>, i: nat)
    requires i < |raw| && raw[i].Stored?
    ensures Normalized(raw[i].record) in Parsed(raw)
    decreases |raw|
  {
    if i < |raw| - 1 {
      StoredIsParsed(Init(raw), i);
    }
  }

  lemma StoredKeyIsRead(raw: seq<Raw>, i: nat)
    requires i < |raw| && raw[i].Stored?
    ensures IsRead(ReadOf(raw), raw[i].record)
  {
    var item, read := raw[i].record, ReadOf(raw);
    StoredIsParsed(raw, i);
    ReadIsNormal(raw);
    var k :| 0 <= k < |Parsed(raw)| && Parsed(raw)[k] == Normalized(item);
    assert KeysOf(Parsed(raw))[k] == CommitmentKey(item);
    assert CommitmentKey(item) in KeysOf(read);
    var j :| 0 <= j < |read| && KeysOf(read)[j] == CommitmentKey(item);
    KeyIsText(read[j]);
    KeyIsText(item);
    assert KeyText(read[j]) == KeyText(item);
  }

  lemma DistinctKeysDiffer(read: seq<PrivateRecord>)
    requires Distinct(KeysOf(read))
    ensures NoKeyTwice(read)
  {
    forall i, j | 0 <= i < j < |read|
      ensures KeyText(read[i]) != KeyText(read[j])
    {
      KeyIsText(read[i]);
      KeyIsText(read[j]);
      assert KeysOf(read)[i] != KeysOf(read)[j];
    }
  }

  /** What a read returns of any stored items. */
  lemma ReadIsOnePerKey(raw: seq<Raw>)
    ensures ReadsOnePerKey(raw, ReadOf(raw))
  {
    var read := ReadOf(raw);
    DedupOnePerKey(Parsed(raw));
    forall r | r in read
      ensures IsStored(raw, r)
    {
      var i :| 0 <= i < |read| && read[i] == r;
      ParsedIsStored(raw, read[i]);
    }
    forall i | 0 <= i < |raw| && raw[i].Stored?
      ensures IsRead(read, raw[i].record)
    {
      StoredKeyIsRead(raw, i);
    }
    DistinctKeysDiffer(read);
  }

  lemma ParsedStep(raw: seq<Raw>, record: PrivateRecord)
    ensures Parsed(raw + [Stored(record)]) == Parsed(raw) + [Normalized(record)]
  {
    assert Init(raw + [Stored(record)]) == raw;
  }

  lemma NormalizedSnoc(records: seq<PrivateRecord>, r: PrivateRecord)
    ensures NormalizedAll(records + [r]) == NormalizedAll(records) + [Normalized(r)]
  {
  }

  lemma StoredSnoc(records: seq<PrivateRecord>, r: PrivateRecord)
    ensures StoredAll(records + [r]) == StoredAll(records) + [Stored(r)]
  {
  }

  lemma {:induction false} ParsedAppend(raw: seq<Raw>, records: seq<PrivateRecord>)
    ensures Parsed(raw + StoredAll(records)) == Parsed(raw) + NormalizedAll(records)
    decreases |records|
  {
    if records == [] {
      assert raw + StoredAll(records) == raw;
      assert NormalizedAll(records) == [];
    } else {
      var init, last := Init(records), Last(records);
      assert records == init + [last];
      ParsedAppend(raw, init);
      ParsedStep(raw + StoredAll(init), last);
      StoredSnoc(init, last);
      NormalizedSnoc(init, last);
      Regroup(raw, StoredAll(init), Stored(last));
      Regroup(Parsed(raw), NormalizedAll(init), Normalized(last));
    }
  }

  lemma Regroup<T>(a: seq<T>, b: seq<T>, c: T)
    ensures (a + b) + [c] == a + (b + [c])
  {
  }

  /** Writing back a list that a read could have returned makes the next read return that list. */
  lemma ReplacedIsRead(records: seq<PrivateRecord>)
    requires AllNormal(records) && Distinct(KeysOf(records))
    ensures ReadOf(StoredAll(records)) == records
  {
    ParsedAppend([], records);
    assert [] + StoredAll(records) == StoredAll(records);
    assert Parsed([]) + NormalizedAll(records) == records;
    DedupOfDistinct(records);
  }

  // ---------------------------------------------------------------- equality of records, field by field

  predicate CoinNotesEqual(left: Option<CoinNote>, right: Option<CoinNote>) {
    if left.None? || right.None? then left == right
    else
      && left.value.value == right.value.value
      && left.value.nullifier == right.value.nullifier
      && left.value.secret == right.value.secret
      && left.value.commitment == right.value.commitment
      && left.value.assetHi == right.value.assetHi
      && left.value.assetLo == right.value.assetLo
      && left.value.applicationId == right.value.applicationId
  }

  predicate CoreFieldsEqual(left: PrivateRecord, right: PrivateRecord) {
    && left.id == right.id && left.owner == right.owner && left.asset == right.asset
    && left.amount == right.amount && left.consumed == right.consumed && left.status == right.status
    && left.poolContract == right.poolContract && left.amountDisplay == right.amountDisplay
  }

  predicate ChainFieldsEqual(left: PrivateRecord, right: PrivateRecord) {
    && left.commitmentHex == right.commitmentHex && left.nullifierHex == right.nullifierHex
    && left.deliveryId == right.deliveryId && left.privateAddress == right.privateAddress
    && left.txHash == right.txHash
  }

  predicate SecretFieldsEqual(left: PrivateRecord, right: PrivateRecord) {
    && left.depositScalarHex == right.depositScalarHex && left.precommitementHex == right.precommitementHex
    && CoinNotesEqual(left.coinNote, right.coinNote)
  }

  predicate RecordsEqual(left: PrivateRecord, right: PrivateRecord) {
    CoreFieldsEqual(left, right) && ChainFieldsEqual(left, right) && SecretFieldsEqual(left, right)
  }

  predicate PrivateRecordArraysEqual(left: seq<PrivateRecord>, right: seq<PrivateRecord>) {
    |left| == |right| && forall i :: 0 <= i < |left| ==> RecordsEqual(left[i], right[i])
  }

  /** No field is forgotten: the comparison that decides whether to skip a write is equality. */
  lemma ArraysEqualMeansEqual(left: seq<PrivateRecord>, right: seq<PrivateRecord>)
    ensures PrivateRecordArraysEqual(left, right) <==> left == right
  {
    if PrivateRecordArraysEqual(left, right) {
      forall i | 0 <= i < |left|
        ensures left[i] == right[i]
      {
        assert RecordsEqual(left[i], right[i]);
      }
    }
  }

  // ---------------------------------------------------------------- merging

  function Ids(records: seq<PrivateRecord>): set<string> {
    set r | r in records :: r.id
  }

  function MergePrivateRecords(current: seq<PrivateRecord>, records: seq<PrivateRecord>): seq<PrivateRecord> {
    var ids := Ids(records);
    FilterRecords(current, (r: PrivateRecord) => r.id !in ids) + records
  }

  /** The write behind an upsert: the array filter, which also drops items that do not parse, then the push. */
  function WithoutIds(raw: seq<Raw>, ids: set<string>): seq<Raw> {
    if raw == [] then []
    else
      WithoutIds(Init(raw), ids)
      + if Last(raw).Stored? && Last(raw).record.id !in ids then [Last(raw)] else []
  }

  function WithoutConsumed(raw: seq<Raw>): seq<Raw> {
    if raw == [] then []
    else
      WithoutConsumed(Init(raw))
      + if Last(raw).Stored? && !Last(raw).record.consumed then [Last(raw)] else []
  }

  lemma {:induction false} ParsedWithoutIds(raw: seq<Raw>, ids: set<string>)
    ensures Parsed(WithoutIds(raw, ids)) == FilterRecords(Parsed(raw), (r: PrivateRecord) => r.id !in ids)
  {
    if raw != [] {
      var init, rest := Init(raw), WithoutIds(Init(raw), ids);
      ParsedWithoutIds(init, ids);
      if Last(raw).Stored? {
        assert Init(Parsed(init) + [Normalized(Last(raw).record)]) == Parsed(init);
        if Last(raw).record.id !in ids {
          assert Init(rest + [Last(raw)]) == rest;
        } else {
          assert rest + [] == rest;
        }
      } else {
        assert rest + [] == rest;
      }
    }
  }

  /** Every record's id is its commitment key. */
  predicate IdsAreKeys(records: seq<PrivateRecord>) {
    forall r :: r in records ==> r.id == CommitmentKey(r)
  }

  /** The stored records that share an id with an incoming one are those that share a key with one. */
  predicate IdsAgreeWithKeys(stored: seq<PrivateRecord>, records: seq<PrivateRecord>) {
    forall r :: r in stored ==> (r.id in Ids(records) <==> CommitmentKey(r) in KeysOf(records))
  }

  /** In particular when every id is a key. */
  lemma IdsThatAreKeysAgree(stored: seq<PrivateRecord>, records: seq<PrivateRecord>)
    requires IdsAreKeys(stored) && IdsAreKeys(records)
    ensures IdsAgreeWithKeys(stored, records)
  {
    forall r | r in stored
      ensures r.id in Ids(records) <==> CommitmentKey(r) in KeysOf(records)
    {
      if CommitmentKey(r) in KeysOf(records) {
        var i :| 0 <= i < |records| && KeysOf(records)[i] == CommitmentKey(r);
        assert records[i] in records && records[i].id == r.id;
      }
      if r.id in Ids(records) {
        var i :| 0 <= i < |records| && records[i].id == r.id;
        assert KeysOf(records)[i] == CommitmentKey(r);
      }
    }
  }

  lemma KeptKeysAreNew(stored: seq<PrivateRecord>, records: seq<PrivateRecord>)
    requires forall r :: r in stored && CommitmentKey(r) in KeysOf(records) ==> r.id in Ids(records)
    ensures var kept := FilterRecords(stored, (r: PrivateRecord) => r.id !in Ids(records));
            forall key :: key in KeysOf(records) ==> key !in KeysOf(kept)
  {
    var kept := FilterRecords(stored, (r: PrivateRecord) => r.id !in Ids(records));
    FilterRecordsIn(stored, (r: PrivateRecord) => r.id !in Ids(records));
    forall j | 0 <= j < |kept|
      ensures KeysOf(kept)[j] !in KeysOf(records)
    {
      assert kept[j] in kept;
    }
  }

  /**
   Filter-then-push on the raw array, with all its duplicates and unparsable items, refines the merge of the
   list that was read.
   */
  lemma WrittenUpsertMerges(raw: seq<Raw>, records: seq<PrivateRecord>)
    requires IdsAgreeWithKeys(Parsed(raw), records) && Distinct(KeysOf(records))
    ensures ReadOf(WithoutIds(raw, Ids(records)) + StoredAll(records))
         == MergePrivateRecords(ReadOf(raw), NormalizedAll(records))
  {
    var ids := Ids(records);
    var keeps := (r: PrivateRecord) => r.id !in ids;
    var left := WithoutIds(raw, ids);
    ParsedAppend(left, records);
    ParsedWithoutIds(raw, ids);
    assert Parsed(left) == FilterRecords(Parsed(raw), keeps);
    DedupCommutesWithKeyFilter(Parsed(raw), keeps, (key: string) => key !in KeysOf(records));
    KeptKeysAreNew(Parsed(raw), records);
    DedupAppendsFresh(Parsed(left), NormalizedAll(records));
    NormalizedIds(records);
  }

  /**
   With one stored item per key, the written list reads as the merge if and only if every stored record that
   shares a key with an incoming one also shares an id with one.
   */
  lemma WrittenUpsertMergesExactly(raw: seq<Raw>, records: seq<PrivateRecord>)
    requires Distinct(KeysOf(Parsed(raw))) && Distinct(KeysOf(records))
    ensures ReadOf(WithoutIds(raw, Ids(records)) + StoredAll(records))
            == MergePrivateRecords(ReadOf(raw), NormalizedAll(records))
       <==> (forall r :: r in Parsed(raw) && CommitmentKey(r) in KeysOf(records) ==> r.id in Ids(records))
  {
    var kept := FilterRecords(Parsed(raw), (r: PrivateRecord) => r.id !in Ids(records));
    var all := kept + NormalizedAll(records);
    ParsedAppend(WithoutIds(raw, Ids(records)), records);
    ParsedWithoutIds(raw, Ids(records));
    NormalizedIds(records);
    DedupOfDistinct(Parsed(raw));
    assert MergePrivateRecords(ReadOf(raw), NormalizedAll(records)) == all;
    if forall r :: r in Parsed(raw) && CommitmentKey(r) in KeysOf(records) ==> r.id in Ids(records) {
      KeptKeysAreNew(Parsed(raw), records);
      FilterKeepsDistinct(Parsed(raw), (r: PrivateRecord) => r.id !in Ids(records));
      DedupAppendsFresh(kept, NormalizedAll(records));
      DedupOfDistinct(kept);
    } else {
      var r :| r in Parsed(raw) && CommitmentKey(r) in KeysOf(records) && r.id !in Ids(records);
      FilterRecordsIn(Parsed(raw), (r: PrivateRecord) => r.id !in Ids(records));
      RepeatedKey(kept, NormalizedAll(records), r);
      DedupOnePerKey(all);
    }
  }

  lemma RepeatedKey(kept: seq<PrivateRecord>, more: seq<PrivateRecord>, r: PrivateRecord)
    requires r in kept && CommitmentKey(r) in KeysOf(more)
    ensures !Distinct(KeysOf(kept + more))
  {
    var i :| 0 <= i < |kept| && kept[i] == r;
    var j :| 0 <= j < |more| && KeysOf(more)[j] == CommitmentKey(r);
    assert KeysOf(kept + more)[i] == KeysOf(kept + more)[|kept| + j];
  }

  // ---------------------------------------------------------------- the exact condition, duplicates included

  function WithoutIdsOf(records: seq<PrivateRecord>): PrivateRecord -> bool {
    (r: PrivateRecord) => r.id !in Ids(records)
  }

  /** The keys of the records read whose ids are not replaced. */
  function KeptKeys(stored: seq<PrivateRecord>, records: seq<PrivateRecord>): seq<string> {
    KeysOf(FilterRecords(Dedup(stored), WithoutIdsOf(records)))
  }

  /**
   What upserting needs of stored items with any duplicates. The items that are not replaced by id show, in first-seen
   order, the keys read and not replaced, and then at most the keys of the first few incoming records. Each of those
   few wins its key: its id is the key, or no item left has it as its id.
   */
  predicate UpsertFits(stored: seq<PrivateRecord>, records: seq<PrivateRecord>, few: nat)
    requires few <= |records|
  {
    Fits(FilterRecords(stored, WithoutIdsOf(records)), KeptKeys(stored, records), records, few)
  }

  predicate FitsSomehow(stored: seq<PrivateRecord>, records: seq<PrivateRecord>) {
    exists few: nat :: few <= |records| && UpsertFits(stored, records, few)
  }

  predicate Fits(left: seq<PrivateRecord>, kept: seq<string>, records: seq<PrivateRecord>, few: nat)
    requires few <= |records|
  {
    && FirstSeen(left) == kept + KeysOf(records)[..few]
    && (forall i :: few <= i < |records| ==> KeysOf(records)[i] !in KeysOf(left))
    && (forall i :: 0 <= i < few ==> Wins(left, records[i]))
  }

  /** The record is preferred to every one of the items left. */
  predicate Wins(left: seq<PrivateRecord>, record: PrivateRecord) {
    record.id == CommitmentKey(record) || LastOwn(left, CommitmentKey(record)).None?
  }

  lemma {:induction false} SplitNew(keys: seq<string>, few: nat, known: seq<string>)
    requires few <= |keys|
    requires forall i :: 0 <= i < few ==> keys[i] in known
    requires forall i :: few <= i < |keys| ==> keys[i] !in known
    ensures FilterKeys(keys, NotAmong(known)) == keys[few..]
    decreases |keys|
  {
    if keys != [] {
      var init, last := Init(keys), Last(keys);
      assert keys == init + [last];
      FilterKeysStep(init, last, NotAmong(known));
      if few == |keys| {
        SplitNew(init, few - 1, known);
        assert init[few - 1..] == [];
      } else {
        SplitNew(init, few, known);
        assert keys[few..] == init[few..] + [last];
      }
    }
  }

  /** The first few incoming keys are among those left. */
  lemma FewAreLeft(left: seq<PrivateRecord>, kept: seq<string>, keys: seq<string>, few: nat)
    requires few <= |keys| && FirstSeen(left) == kept + keys[..few]
    ensures forall i :: 0 <= i < few ==> keys[i] in KeysOf(left)
  {
    FirstSeenKeys(left);
    forall i | 0 <= i < few
      ensures keys[i] in KeysOf(left)
    {
      assert FirstSeen(left)[|kept| + i] == keys[i];
    }
  }

  lemma TakeAndDrop(kept: seq<string>, keys: seq<string>, few: nat)
    requires few <= |keys|
    ensures (kept + keys[..few]) + keys[few..] == kept + keys
  {
  }

  /** Then the written list has the keys of the merge. */
  lemma KeysAgree(
    left: seq<PrivateRecord>, kept: seq<string>, records: seq<PrivateRecord>, more: seq<PrivateRecord>, few: nat)
    requires Distinct(KeysOf(records)) && KeysOf(more) == KeysOf(records) && few <= |records|
    requires Fits(left, kept, records, few)
    ensures FirstSeen(left + more) == kept + KeysOf(records)
  {
    FirstSeenAppendAny(left, more);
    FewAreLeft(left, kept, KeysOf(records), few);
    SplitNew(KeysOf(records), few, KeysOf(left));
    TakeAndDrop(kept, KeysOf(records), few);
  }

  /** An incoming record survives in the written list. */
  lemma IncomingSurvives(
    left: seq<PrivateRecord>, kept: seq<string>, records: seq<PrivateRecord>, more: seq<PrivateRecord>, few: nat, i: nat)
    requires Distinct(KeysOf(records)) && few <= |records| && SameIdsAndKeys(records, more)
    requires Fits(left, kept, records, few) && i < |more|
    ensures Survivor(left + more, KeysOf(records)[i]) == Some(more[i])
  {
    AppendedSurvives(left, more, i);
    assert KeysOf(more)[i] == KeysOf(records)[i] == CommitmentKey(records[i]);
    if i < few {
      assert Wins(left, records[i]);
    } else {
      SurvivorHasKey(left, KeysOf(records)[i]);
    }
  }

  /** The same records but for their private addresses. */
  predicate SameIdsAndKeys(records: seq<PrivateRecord>, more: seq<PrivateRecord>) {
    && |more| == |records| && KeysOf(more) == KeysOf(records)
    && forall i :: 0 <= i < |records| ==> more[i].id == records[i].id
  }

  /** A kept key is not an incoming one. */
  lemma KeptIsNotIncoming(left: seq<PrivateRecord>, kept: seq<string>, records: seq<PrivateRecord>, few: nat, i: nat)
    requires few <= |records| && Fits(left, kept, records, few) && i < |kept|
    ensures kept[i] !in KeysOf(records)
  {
    var keys := KeysOf(records);
    FirstSeenKeys(left);
    assert (kept + keys[..few])[i] == kept[i];
    forall j | 0 <= j < |keys|
      ensures keys[j] != kept[i]
    {
      if j < few {
        assert (kept + keys[..few])[|kept| + j] == keys[j];
        assert FirstSeen(left)[i] != FirstSeen(left)[|kept| + j];
      } else {
        assert FirstSeen(left)[i] in FirstSeen(left);
      }
    }
  }

  /** A record read and not replaced survives in the written list. */
  lemma KeptRecordSurvives(
    stored: seq<PrivateRecord>, records: seq<PrivateRecord>, more: seq<PrivateRecord>, few: nat, i: nat)
    requires few <= |records| && SameIdsAndKeys(records, more) && UpsertFits(stored, records, few)
    requires i < |FilterRecords(Dedup(stored), WithoutIdsOf(records))|
    ensures var r := FilterRecords(Dedup(stored), WithoutIdsOf(records))[i];
            Survivor(FilterRecords(stored, WithoutIdsOf(records)) + more, CommitmentKey(r)) == Some(r)
  {
    var keeps := WithoutIdsOf(records);
    var left, kept := FilterRecords(stored, keeps), FilterRecords(Dedup(stored), keeps);
    var key := CommitmentKey(kept[i]);
    FilterRecordsIn(Dedup(stored), keeps);
    DedupOnePerKey(stored);
    assert kept[i] in kept;
    KeptSurvivorStays(stored, keeps, key);
    assert KeptKeys(stored, records)[i] == key;
    KeptIsNotIncoming(left, KeptKeys(stored, records), records, few, i);
    SurvivorAppend(left, more, key);
  }

  /** Items that fit are read, with the incoming records behind them, as the merge. */
  lemma FittingMerges(stored: seq<PrivateRecord>, records: seq<PrivateRecord>, more: seq<PrivateRecord>, few: nat)
    requires Distinct(KeysOf(records)) && few <= |records| && SameIdsAndKeys(records, more)
    requires UpsertFits(stored, records, few)
    ensures Dedup(FilterRecords(stored, WithoutIdsOf(records)) + more)
         == FilterRecords(Dedup(stored), WithoutIdsOf(records)) + more
  {
    var keeps := WithoutIdsOf(records);
    var left, kept := FilterRecords(stored, keeps), FilterRecords(Dedup(stored), keeps);
    KeysAgree(left, KeptKeys(stored, records), records, more, few);
    forall i | 0 <= i < |kept|
      ensures Survivor(left + more, CommitmentKey(kept[i])) == Some(kept[i])
    {
      KeptRecordSurvives(stored, records, more, few, i);
    }
    forall i | 0 <= i < |more|
      ensures Survivor(left + more, CommitmentKey(more[i])) == Some(more[i])
    {
      IncomingSurvives(left, KeptKeys(stored, records), records, more, few, i);
      assert KeysOf(more)[i] == CommitmentKey(more[i]);
    }
    SurvivorsAreTheLists(left + more, kept, more);
  }

  /** A list with the first-seen keys whose records all survive is the deduplication. */
  lemma SurvivorsAreTheLists(all: seq<PrivateRecord>, kept: seq<PrivateRecord>, more: seq<PrivateRecord>)
    requires FirstSeen(all) == KeysOf(kept) + KeysOf(more)
    requires forall i :: 0 <= i < |kept| ==> Survivor(all, CommitmentKey(kept[i])) == Some(kept[i])
    requires forall i :: 0 <= i < |more| ==> Survivor(all, CommitmentKey(more[i])) == Some(more[i])
    ensures Dedup(all) == kept + more
  {
    FirstSeenKeys(all);
    SurvivorsByIndex(FirstSeen(all), all);
    forall i | 0 <= i < |kept + more|
      ensures Dedup(all)[i] == (kept + more)[i]
    {
      assert FirstSeen(all)[i] == CommitmentKey((kept + more)[i]);
    }
  }

  /** When the written list has the keys of the merge, how many incoming keys were left. */
  lemma AgreeingKeysFit(left: seq<PrivateRecord>, kept: seq<string>, keys: seq<string>) returns (few: nat)
    requires FirstSeen(left) + FilterKeys(keys, NotAmong(KeysOf(left))) == kept + keys
    ensures few <= |keys| && FirstSeen(left) == kept + keys[..few]
    ensures forall i :: few <= i < |keys| ==> keys[i] !in KeysOf(left)
  {
    var found := FilterKeys(keys, NotAmong(KeysOf(left)));
    FilterKeysIn(keys, NotAmong(KeysOf(left)));
    FilterKeysShorter(keys, NotAmong(KeysOf(left)));
    few := |keys| - |found|;
    TailsAgree(FirstSeen(left), found, kept, keys);
    forall i | few <= i < |keys|
      ensures keys[i] !in KeysOf(left)
    {
      assert keys[few..][i - few] in found;
    }
  }

  /** An incoming record that survives among items with other ids wins against them. */
  lemma SurvivingWins(left: seq<PrivateRecord>, records: seq<PrivateRecord>, more: seq<PrivateRecord>, i: nat)
    requires Distinct(KeysOf(records)) && SameIdsAndKeys(records, more) && i < |more|
    requires forall r :: r in left ==> r.id !in Ids(records)
    requires Survivor(left + more, KeysOf(records)[i]) == Some(more[i])
    ensures Wins(left, records[i])
  {
    AppendedSurvives(left, more, i);
    var key := CommitmentKey(records[i]);
    assert KeysOf(records)[i] == key && KeysOf(more)[i] == CommitmentKey(more[i]);
    if LastOwn(left, key).Some? {
      SurvivorHasKey(left, key);
      assert records[i] in records;
    }
  }

  /** A record of a deduplicated list survives. */
  lemma ReadSurvives(all: seq<PrivateRecord>, kept: seq<PrivateRecord>, more: seq<PrivateRecord>, i: nat)
    requires Dedup(all) == kept + more && i < |more|
    ensures Survivor(all, CommitmentKey(more[i])) == Some(more[i])
  {
    DedupOnePerKey(all);
    assert Dedup(all)[|kept| + i] == more[i];
  }

  /** When the written list reads as the merge, the items left fit. */
  lemma MergedFits(stored: seq<PrivateRecord>, records: seq<PrivateRecord>, more: seq<PrivateRecord>) returns (few: nat)
    requires Distinct(KeysOf(records)) && SameIdsAndKeys(records, more)
    requires Dedup(FilterRecords(stored, WithoutIdsOf(records)) + more)
          == FilterRecords(Dedup(stored), WithoutIdsOf(records)) + more
    ensures few <= |records| && UpsertFits(stored, records, few)
  {
    var keeps := WithoutIdsOf(records);
    var left, kept := FilterRecords(stored, keeps), FilterRecords(Dedup(stored), keeps);
    MergedKeys(left, kept, more);
    few := AgreeingKeysFit(left, KeysOf(kept), KeysOf(records));
    FilterRecordsIn(stored, keeps);
    AllWin(left, kept, records, more);
    assert Fits(left, KeysOf(kept), records, few);
  }

  lemma DedupKeys(all: seq<PrivateRecord>)
    ensures KeysOf(Dedup(all)) == FirstSeen(all)
  {
    DedupOnePerKey(all);
  }

  lemma MergedKeys(left: seq<PrivateRecord>, kept: seq<PrivateRecord>, more: seq<PrivateRecord>)
    requires Distinct(KeysOf(more)) && Dedup(left + more) == kept + more
    ensures FirstSeen(left) + FilterKeys(KeysOf(more), NotAmong(KeysOf(left))) == KeysOf(kept) + KeysOf(more)
  {
    FirstSeenAppendAny(left, more);
    DedupKeys(left + more);
    KeysConcat(kept, more);
  }

  lemma AllWin(left: seq<PrivateRecord>, kept: seq<PrivateRecord>, records: seq<PrivateRecord>, more: seq<PrivateRecord>)
    requires Distinct(KeysOf(records)) && SameIdsAndKeys(records, more)
    requires forall r :: r in left ==> r.id !in Ids(records)
    requires Dedup(left + more) == kept + more
    ensures forall i :: 0 <= i < |records| ==> Wins(left, records[i])
  {
    forall i | 0 <= i < |records|
      ensures Wins(left, records[i])
    {
      ReadSurvives(left + more, kept, more, i);
      assert KeysOf(more)[i] == CommitmentKey(more[i]);
      SurvivingWins(left, records, more, i);
    }
  }

  lemma TailsAgree(left: seq<string>, found: seq<string>, kept: seq<string>, keys: seq<string>)
    requires left + found == kept + keys && |found| <= |keys|
    ensures left == kept + keys[..|keys| - |found|] && found == keys[|keys| - |found|..]
  {
    var few := |keys| - |found|;
    assert |left| == |kept| + few;
    assert left == (left + found)[..|left|] && found == (left + found)[|left|..];
    assert (kept + keys)[..|kept| + few] == kept + keys[..few];
    assert (kept + keys)[|kept| + few..] == keys[few..];
  }

  lemma {:induction false} FilterKeysShorter(keys: seq<string>, keeps: string -> bool)
    ensures |FilterKeys(keys, keeps)| <= |keys|
  {
    if keys != [] {
      FilterKeysShorter(Init(keys), keeps);
    }
  }

  /**
   For stored items with any duplicates and distinct incoming keys: the written list reads as the merge of what was
   read if and only if the items left fit the incoming records.
   */
  lemma WrittenUpsertMergesIff(raw: seq<Raw>, records: seq<PrivateRecord>)
    requires Distinct(KeysOf(records))
    ensures ReadOf(WithoutIds(raw, Ids(records)) + StoredAll(records))
            == MergePrivateRecords(ReadOf(raw), NormalizedAll(records))
       <==> FitsSomehow(Parsed(raw), records)
  {
    var more := NormalizedAll(records);
    WrittenAndMerged(raw, records);
    if few: nat :| few <= |records| && UpsertFits(Parsed(raw), records, few) {
      FittingMerges(Parsed(raw), records, more, few);
    }
    if Dedup(FilterRecords(Parsed(raw), WithoutIdsOf(records)) + more)
       == FilterRecords(Dedup(Parsed(raw)), WithoutIdsOf(records)) + more {
      var few := MergedFits(Parsed(raw), records, more);
    }
  }

  /** Items that share an id with an incoming record exactly when they share a key fit. */
  lemma AgreeingItemsFit(raw: seq<Raw>, records: seq<PrivateRecord>)
    requires IdsAgreeWithKeys(Parsed(raw), records) && Distinct(KeysOf(records))
    ensures FitsSomehow(Parsed(raw), records)
  {
    WrittenUpsertMerges(raw, records);
    WrittenUpsertMergesIff(raw, records);
  }

  lemma WrittenAndMerged(raw: seq<Raw>, records: seq<PrivateRecord>)
    ensures ReadOf(WithoutIds(raw, Ids(records)) + StoredAll(records))
         == Dedup(FilterRecords(Parsed(raw), WithoutIdsOf(records)) + NormalizedAll(records))
    ensures MergePrivateRecords(ReadOf(raw), NormalizedAll(records))
         == FilterRecords(Dedup(Parsed(raw)), WithoutIdsOf(records)) + NormalizedAll(records)
  {
    ParsedAppend(WithoutIds(raw, Ids(records)), records);
    ParsedWithoutIds(raw, Ids(records));
    NormalizedIds(records);
    SameFilter(Parsed(raw), (r: PrivateRecord) => r.id !in Ids(records), WithoutIdsOf(records));
    SameFilter(Dedup(Parsed(raw)), (r: PrivateRecord) => r.id !in Ids(NormalizedAll(records)), WithoutIdsOf(records));
  }

  lemma {:induction false} SameFilter(records: seq<PrivateRecord>, f: PrivateRecord -> bool, g: PrivateRecord -> bool)
    requires forall r :: r in records ==> f(r) == g(r)
    ensures FilterRecords(records, f) == FilterRecords(records, g)
  {
    if records != [] {
      assert records == Init(records) + [Last(records)];
      SameFilter(Init(records), f, g);
    }
  }

  lemma NormalizedIds(records: seq<PrivateRecord>)
    ensures Ids(NormalizedAll(records)) == Ids(records)
  {
    var all := NormalizedAll(records);
    forall id
      ensures id in Ids(all) <==> id in Ids(records)
    {
      if id in Ids(all) {
        var i :| 0 <= i < |all| && all[i].id == id;
        assert records[i].id == id;
      }
      if id in Ids(records) {
        var i :| 0 <= i < |records| && records[i].id == id;
        assert all[i].id == id;
      }
    }
  }

  lemma NormalTail(kept: seq<PrivateRecord>, records: seq<PrivateRecord>)
    requires AllNormal(kept + records)
    ensures NormalizedAll(records) == records
  {
    forall i | 0 <= i < |records|
      ensures NormalizedAll(records)[i] == records[i]
    {
      assert (kept + records)[|kept| + i] == records[i];
      assert records[i] in kept + records;
    }
  }

  /** A skipped write was not needed: the incoming records are already there, normalised. */
  lemma SkippedUpsertMerges(raw: seq<Raw>, records: seq<PrivateRecord>)
    requires PrivateRecordArraysEqual(ReadOf(raw), MergePrivateRecords(ReadOf(raw), records))
    ensures ReadOf(raw) == MergePrivateRecords(ReadOf(raw), NormalizedAll(records))
  {
    var current := ReadOf(raw);
    ArraysEqualMeansEqual(current, MergePrivateRecords(current, records));
    ReadIsNormal(raw);
    NormalTail(FilterRecords(current, (r: PrivateRecord) => r.id !in Ids(records)), records);
  }

  function Plain(id: string, commitment: string, amount: int): PrivateRecord {
    PrivateRecord(id, "o", 0, amount, false, None, None, Some(commitment), None, None, None, None, None, None, None, None)
  }

  /** Two records with one key are read as the preferred one. */
  lemma TwoUnderOneKey(first: PrivateRecord, second: PrivateRecord)
    requires CommitmentKey(first) == CommitmentKey(second)
    ensures Dedup([first, second]) == [PreferPrivateRecord(first, second, CommitmentKey(first))]
  {
    var key := CommitmentKey(first);
    assert [] + [first] == [first] && [first] + [second] == [first, second];
    FirstSeenStep([], first);
    FirstSeenStep([first], second);
    SurvivorStep([], first, key);
    SurvivorStep([first], second, key);
    DedupOnePerKey([first, second]);
    assert FirstSeen([first, second]) == [key];
    var read := Dedup([first, second]);
    assert |KeysOf(read)| == 1 && KeysOf(read)[0] == key;
  }

  lemma ParsedStored(records: seq<PrivateRecord>)
    ensures Parsed(StoredAll(records)) == NormalizedAll(records)
  {
    ParsedAppend([], records);
    assert [] + StoredAll(records) == StoredAll(records) && Parsed([]) + NormalizedAll(records) == NormalizedAll(records);
  }

  /** A stored record that shares the key of an incoming one but not its id: read as one after the write, merged as two. */
  lemma SharedKeyOtherId(stored: PrivateRecord, sent: PrivateRecord)
    requires CommitmentKey(stored) == CommitmentKey(sent) && stored.id != sent.id
    ensures var raw, incoming := StoredAll([stored]), [sent];
            && |ReadOf(WithoutIds(raw, Ids(incoming)) + StoredAll(incoming))| == 1
            && |MergePrivateRecords(ReadOf(raw), NormalizedAll(incoming))| == 2
  {
    var raw, incoming := StoredAll([stored]), [sent];
    var s, n := Normalized(stored), Normalized(sent);
    assert Parsed(raw) == [s] by {
      ParsedStored([stored]);
      OneNormalized(stored);
    }
    assert NormalizedAll(incoming) == [n] by {
      OneNormalized(sent);
    }
    OneReadWithOne(s, n, incoming);
    WrittenAndMerged(raw, incoming);
  }

  lemma OneNormalized(r: PrivateRecord)
    ensures NormalizedAll([r]) == [Normalized(r)]
  {
  }

  lemma OneReadWithOne(s: PrivateRecord, n: PrivateRecord, incoming: seq<PrivateRecord>)
    requires CommitmentKey(s) == CommitmentKey(n)
    requires forall other :: other in incoming ==> other.id != s.id
    ensures |Dedup(FilterRecords([s], WithoutIdsOf(incoming)) + [n])| == 1
    ensures |FilterRecords(Dedup([s]), WithoutIdsOf(incoming)) + [n]| == 2
  {
    OneKept(s, incoming);
    DedupOfDistinct([s]);
    assert [s] + [n] == [s, n];
    TwoUnderOneKey(s, n);
  }

  lemma OneKept(r: PrivateRecord, records: seq<PrivateRecord>)
    requires forall other :: other in records ==> other.id != r.id
    ensures FilterRecords([r], WithoutIdsOf(records)) == [r]
  {
    assert Init([r]) == [] && FilterRecords([], WithoutIdsOf(records)) == [];
  }

  /**
   The condition can fail: a stored record whose id differs from its key is not found by the filter on ids, but
   the two share a key, so the written ledger reads one record where the merge has two.
   */
  lemma UpsertByIdCanDiffer()
    ensures var raw := [Stored(Plain("x", "c", 5))];
            var incoming := [Plain("c", "c", 7)];
            && Distinct(KeysOf(incoming)) && IdsAreKeys(incoming)
            && |ReadOf(WithoutIds(raw, Ids(incoming)) + StoredAll(incoming))| == 1
            && |MergePrivateRecords(ReadOf(raw), NormalizedAll(incoming))| == 2
  {
    SharedKeyOtherId(Plain("x", "c", 5), Plain("c", "c", 7));
    assert StoredAll([Plain("x", "c", 5)]) == [Stored(Plain("x", "c", 5))];
  }
}
