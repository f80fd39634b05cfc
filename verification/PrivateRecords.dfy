/**
 Private notes and how a list of them is read: one record per commitment key. Strings are taken as
 normalised: trimmed, lower-case hex without prefix. An asset is known by its place in the collation order
 of asset ids.
 */
module PrivateRecords {
  import opened Common

  type AssetId = nat

  datatype Status = Pending | Finalized | Spent

  datatype CoinNote = CoinNote(
    value: string, nullifier: string, secret: string, commitment: string,
    assetHi: string, assetLo: string, applicationId: Option<string>)

  datatype PrivateRecord = PrivateRecord(
    id: string,
    owner: string,
    asset: AssetId,
    amount: int,
    consumed: bool,
    status: Option<Status>,
    poolContract: Option<string>,
    commitmentHex: Option<string>,
    nullifierHex: Option<string>,
    amountDisplay: Option<real>,
    deliveryId: Option<int>,
    privateAddress: Option<string>,
    txHash: Option<string>,
    coinNote: Option<CoinNote>,
    depositScalarHex: Option<string>,
    precommitementHex: Option<string>)

  function CommitmentKey(r: PrivateRecord): string {
    if Present(r.commitmentHex) then r.commitmentHex.value
    else if r.coinNote.Some? && r.coinNote.value.commitment != "" then r.coinNote.value.commitment
    else r.id
  }

  /** What a note is known by: its commitment, else its coin's commitment, else its id; empty texts do not count. */
  ghost function KeyText(r: PrivateRecord): string {
    match (r.commitmentHex, r.coinNote)
    case (Some(hex), Some(coin)) => if hex != "" then hex else if coin.commitment != "" then coin.commitment else r.id
    case (Some(hex), None) => if hex != "" then hex else r.id
    case (None, Some(coin)) => if coin.commitment != "" then coin.commitment else r.id
    case (None, None) => r.id
  }

  lemma KeyIsText(r: PrivateRecord)
    ensures CommitmentKey(r) == KeyText(r)
  {
  }

  function PreferPrivateRecord(current: PrivateRecord, incoming: PrivateRecord, key: string): PrivateRecord {
    if incoming.id == key then incoming
    else if current.id == key then current
    else incoming
  }

  // ---------------------------------------------------------------- what deduplication is to compute

  function Last<T>(xs: seq<T>): T
    requires xs != []
  {
    xs[|xs| - 1]
  }

  function Init<T>(xs: seq<T>): seq<T>
    requires xs != []
  {
    xs[..|xs| - 1]
  }

  /** The commitment keys in the order they are first seen. */
  function FirstSeen(records: seq<PrivateRecord>): seq<string> {
    if records == [] then []
    else
      var keys := FirstSeen(Init(records));
      var key := CommitmentKey(Last(records));
      if key in keys then keys else keys + [key]
  }

  /** The last record with this key whose id is the key itself. */
  function LastOwn(records: seq<PrivateRecord>, key: string): Option<PrivateRecord> {
    if records == [] then None
    else if CommitmentKey(Last(records)) == key && Last(records).id == key then Some(Last(records))
    else LastOwn(Init(records), key)
  }

  function LastOf(records: seq<PrivateRecord>, key: string): Option<PrivateRecord> {
    if records == [] then None
    else if CommitmentKey(Last(records)) == key then Some(Last(records))
    else LastOf(Init(records), key)
  }

  /** The survivor of a key: the last record whose id is the key if any exists, otherwise the last record. */
  function Survivor(records: seq<PrivateRecord>, key: string): Option<PrivateRecord> {
    if LastOwn(records, key).Some? then LastOwn(records, key) else LastOf(records, key)
  }

  function Survivors(keys: seq<string>, records: seq<PrivateRecord>): seq<PrivateRecord> {
    if keys == [] then []
    else
      var rest := Survivors(Init(keys), records);
      match Survivor(records, Last(keys))
      case Some(r) => rest + [r]
      case None => rest
  }

  /** One survivor per commitment key, in first-seen order. */
  function Dedup(records: seq<PrivateRecord>): seq<PrivateRecord> {
    Survivors(FirstSeen(records), records)
  }

  predicate Distinct<T(==)>(xs: seq<T>) {
    forall i, j :: 0 <= i < j < |xs| ==> xs[i] != xs[j]
  }

  function KeysOf(records: seq<PrivateRecord>): (keys: seq<string>)
    ensures |keys| == |records|
    ensures forall i :: 0 <= i < |records| ==> keys[i] == CommitmentKey(records[i])
  {
    seq(|records|, i requires 0 <= i < |records| => CommitmentKey(records[i]))
  }

  lemma KeysConcat(records: seq<PrivateRecord>, more: seq<PrivateRecord>)
    ensures KeysOf(records + more) == KeysOf(records) + KeysOf(more)
  {
  }

  // ---------------------------------------------------------------- laws of deduplication

  lemma {:induction false} FirstSeenKeys(records: seq<PrivateRecord>)
    ensures Distinct(FirstSeen(records))
    ensures forall key :: key in FirstSeen(records) <==> key in KeysOf(records)
  {
    if records != [] {
      FirstSeenKeys(Init(records));
      assert KeysOf(records) == KeysOf(Init(records)) + [CommitmentKey(Last(records))];
    }
  }

  lemma {:induction false} SurvivorHasKey(records: seq<PrivateRecord>, key: string)
    ensures Survivor(records, key).Some? <==> key in KeysOf(records)
    ensures LastOf(records, key).Some? <==> key in KeysOf(records)
    ensures LastOwn(records, key).Some? ==> key in KeysOf(records)
    ensures Survivor(records, key).Some? ==>
              CommitmentKey(Survivor(records, key).value) == key && Survivor(records, key).value in records
    ensures LastOwn(records, key).Some? ==>
              && LastOwn(records, key).value in records
              && CommitmentKey(LastOwn(records, key).value) == key && LastOwn(records, key).value.id == key
    ensures LastOf(records, key).Some? ==>
              LastOf(records, key).value in records && CommitmentKey(LastOf(records, key).value) == key
  {
    if records != [] {
      SurvivorHasKey(Init(records), key);
      assert records == Init(records) + [Last(records)];
      assert KeysOf(records) == KeysOf(Init(records)) + [CommitmentKey(Last(records))];
    }
  }

  lemma SurvivorsStep(keys: seq<string>, key: string, records: seq<PrivateRecord>)
    ensures Survivors(keys + [key], records)
         == Survivors(keys, records) + match Survivor(records, key) case Some(r) => [r] case None => []
  {
    assert Init(keys + [key]) == keys && Last(keys + [key]) == key;
  }

  lemma {:induction false} SurvivorsByIndex(keys: seq<string>, records: seq<PrivateRecord>)
    requires forall key :: key in keys ==> key in KeysOf(records)
    ensures |Survivors(keys, records)| == |keys|
    ensures forall i :: 0 <= i < |keys| ==> Some(Survivors(keys, records)[i]) == Survivor(records, keys[i])
  {
    if keys != [] {
      assert keys == Init(keys) + [Last(keys)];
      SurvivorsByIndex(Init(keys), records);
      SurvivorsStep(Init(keys), Last(keys), records);
      SurvivorHasKey(records, Last(keys));
    }
  }

  /** Exactly one record per key that occurs, in first-seen order, and it is that key's survivor. */
  lemma DedupOnePerKey(records: seq<PrivateRecord>)
    ensures KeysOf(Dedup(records)) == FirstSeen(records)
    ensures Distinct(KeysOf(Dedup(records)))
    ensures forall key :: key in KeysOf(Dedup(records)) <==> key in KeysOf(records)
    ensures forall i :: 0 <= i < |Dedup(records)| ==>
              && Dedup(records)[i] in records
              && Some(Dedup(records)[i]) == Survivor(records, CommitmentKey(Dedup(records)[i]))
  {
    FirstSeenKeys(records);
    SurvivorsByIndex(FirstSeen(records), records);
    forall i | 0 <= i < |FirstSeen(records)|
      ensures KeysOf(Dedup(records))[i] == FirstSeen(records)[i] && Dedup(records)[i] in records
    {
      SurvivorHasKey(records, FirstSeen(records)[i]);
    }
    assert KeysOf(Dedup(records)) == FirstSeen(records);
  }

  lemma {:induction false} FirstSeenAppend(records: seq<PrivateRecord>, more: seq<PrivateRecord>)
    requires Distinct(KeysOf(more)) && forall key :: key in KeysOf(more) ==> key !in KeysOf(records)
    ensures FirstSeen(records + more) == FirstSeen(records) + KeysOf(more)
    decreases |more|
  {
    if more == [] {
      assert records + more == records && KeysOf(more) == [];
      assert FirstSeen(records) + [] == FirstSeen(records);
    } else {
      assert KeysOf(more) == KeysOf(Init(more)) + [CommitmentKey(Last(more))];
      FirstSeenAppend(records, Init(more));
      assert Init(records + more) == records + Init(more);
      FirstSeenKeys(records);
      assert KeysOf(more)[|more| - 1] == CommitmentKey(Last(more));
      assert CommitmentKey(Last(more)) in KeysOf(more);
    }
  }

  /** A record whose key occurs nowhere after it or beside it is its key's survivor. */
  lemma {:induction false} SurvivorAppend(records: seq<PrivateRecord>, more: seq<PrivateRecord>, key: string)
    ensures key !in KeysOf(more) ==>
              && LastOwn(records + more, key) == LastOwn(records, key)
              && LastOf(records + more, key) == LastOf(records, key)
    ensures key !in KeysOf(records) ==>
              && LastOwn(records + more, key) == LastOwn(more, key)
              && LastOf(records + more, key) == LastOf(more, key)
    decreases |more|
  {
    if more == [] {
      assert records + more == records;
      SurvivorHasKey(records, key);
    } else {
      SurvivorAppend(records, Init(more), key);
      assert Init(records + more) == records + Init(more);
      assert KeysOf(more) == KeysOf(Init(more)) + [CommitmentKey(Last(more))];
    }
  }

  lemma {:induction false} SurvivorOfDistinct(records: seq<PrivateRecord>, i: nat)
    requires Distinct(KeysOf(records)) && i < |records|
    ensures Survivor(records, CommitmentKey(records[i])) == Some(records[i])
    decreases |records|
  {
    var key := CommitmentKey(records[i]);
    if i < |records| - 1 {
      var init := Init(records);
      assert forall a, b :: 0 <= a < b < |init| ==> KeysOf(records)[a] != KeysOf(records)[b];
      assert KeysOf(records)[i] != KeysOf(records)[|records| - 1];
      SurvivorOfDistinct(init, i);
    } else {
      forall j | 0 <= j < |Init(records)|
        ensures KeysOf(Init(records))[j] != key
      {
        assert KeysOf(records)[j] != KeysOf(records)[i];
      }
      SurvivorHasKey(Init(records), key);
    }
  }

  lemma {:induction false} SurvivorsAgree(keys: seq<string>, left: seq<PrivateRecord>, right: seq<PrivateRecord>)
    requires forall key :: key in keys ==> Survivor(left, key) == Survivor(right, key)
    ensures Survivors(keys, left) == Survivors(keys, right)
  {
    if keys != [] {
      SurvivorsAgree(Init(keys), left, right);
    }
  }

  lemma {:induction false} SurvivorsConcat(keys: seq<string>, others: seq<string>, records: seq<PrivateRecord>)
    ensures Survivors(keys + others, records) == Survivors(keys, records) + Survivors(others, records)
    decreases |others|
  {
    if others == [] {
      assert keys + others == keys && Survivors(others, records) == [];
    } else {
      var init, last := Init(others), Last(others);
      SurvivorsConcat(keys, init, records);
      assert (keys + init) + [last] == keys + others && init + [last] == others;
      SurvivorsAppendOne(keys + init, last, records);
      SurvivorsAppendOne(init, last, records);
      Associate(Survivors(keys, records), Survivors(init, records), SurvivorList(records, last));
    }
  }

  function SurvivorList(records: seq<PrivateRecord>, key: string): seq<PrivateRecord> {
    match Survivor(records, key) case Some(r) => [r] case None => []
  }

  lemma SurvivorsAppendOne(keys: seq<string>, key: string, records: seq<PrivateRecord>)
    ensures Survivors(keys + [key], records) == Survivors(keys, records) + SurvivorList(records, key)
  {
    SurvivorsStep(keys, key, records);
  }

  lemma Associate(a: seq<PrivateRecord>, b: seq<PrivateRecord>, c: seq<PrivateRecord>)
    ensures (a + b) + c == a + (b + c)
  {
  }

  lemma SurvivorsOfDistinct(records: seq<PrivateRecord>)
    requires Distinct(KeysOf(records))
    ensures Survivors(KeysOf(records), records) == records
  {
    SurvivorsByIndex(KeysOf(records), records);
    forall i | 0 <= i < |records|
      ensures Survivors(KeysOf(records), records)[i] == records[i]
    {
      SurvivorOfDistinct(records, i);
    }
  }

  /** Appending records with new, distinct keys appends them to the deduplicated list. */
  lemma DedupAppendsFresh(records: seq<PrivateRecord>, more: seq<PrivateRecord>)
    requires Distinct(KeysOf(more)) && forall key :: key in KeysOf(more) ==> key !in KeysOf(records)
    ensures Dedup(records + more) == Dedup(records) + more
  {
    var all := records + more;
    FirstSeenAppend(records, more);
    FirstSeenKeys(records);
    SurvivorsConcat(FirstSeen(records), KeysOf(more), all);
    forall key
      ensures key in FirstSeen(records) ==> Survivor(all, key) == Survivor(records, key)
      ensures key in KeysOf(more) ==> Survivor(all, key) == Survivor(more, key)
    {
      SurvivorAppend(records, more, key);
    }
    SurvivorsAgree(FirstSeen(records), all, records);
    SurvivorsAgree(KeysOf(more), all, more);
    SurvivorsOfDistinct(more);
  }

  /** A list with distinct keys is its own deduplication. */
  lemma DedupOfDistinct(records: seq<PrivateRecord>)
    requires Distinct(KeysOf(records))
    ensures Dedup(records) == records
  {
    DedupAppendsFresh([], records);
    assert [] + records == records && Dedup([]) == [];
  }

  lemma DedupIdempotent(records: seq<PrivateRecord>)
    ensures Dedup(Dedup(records)) == Dedup(records)
  {
    DedupOnePerKey(records);
    DedupOfDistinct(Dedup(records));
  }

  // ---------------------------------------------------------------- filters on the key

  function FilterRecords(records: seq<PrivateRecord>, keeps: PrivateRecord -> bool): seq<PrivateRecord> {
    if records == [] then []
    else FilterRecords(Init(records), keeps) + if keeps(Last(records)) then [Last(records)] else []
  }

  function FilterKeys(keys: seq<string>, keeps: string -> bool): seq<string> {
    if keys == [] then []
    else FilterKeys(Init(keys), keeps) + if keeps(Last(keys)) then [Last(keys)] else []
  }

  lemma {:induction false} FilterKeysIn(keys: seq<string>, keeps: string -> bool)
    ensures forall key :: key in FilterKeys(keys, keeps) <==> key in keys && keeps(key)
  {
    if keys != [] {
      FilterKeysIn(Init(keys), keeps);
      assert keys == Init(keys) + [Last(keys)];
    }
  }

  lemma {:induction false} FilterRecordsIn(records: seq<PrivateRecord>, keeps: PrivateRecord -> bool)
    ensures forall r :: r in FilterRecords(records, keeps) <==> r in records && keeps(r)
  {
    if records != [] {
      FilterRecordsIn(Init(records), keeps);
      assert records == Init(records) + [Last(records)];
    }
  }

  /** The record filter decides by the key alone, on the records it is applied to. */
  ghost predicate DecidesByKey(records: seq<PrivateRecord>, keeps: PrivateRecord -> bool, keepsKey: string -> bool) {
    forall r :: r in records ==> keeps(r) == keepsKey(CommitmentKey(r))
  }

  lemma {:induction false} FirstSeenFiltered(
    records: seq<PrivateRecord>, keeps: PrivateRecord -> bool, keepsKey: string -> bool)
    requires DecidesByKey(records, keeps, keepsKey)
    ensures FirstSeen(FilterRecords(records, keeps)) == FilterKeys(FirstSeen(records), keepsKey)
  {
    if records != [] {
      var init, last := Init(records), Last(records);
      assert records == init + [last];
      FirstSeenFiltered(init, keeps, keepsKey);
      FilterKeysIn(FirstSeen(init), keepsKey);
      var rest := FilterRecords(init, keeps);
      if keeps(last) {
        assert Init(rest + [last]) == rest;
      } else {
        assert rest + [] == rest;
      }
      if CommitmentKey(last) !in FirstSeen(init) {
        assert Init(FirstSeen(records)) == FirstSeen(init);
      }
    }
  }

  lemma LastStep(records: seq<PrivateRecord>, r: PrivateRecord, key: string)
    ensures LastOwn(records + [r], key) == if CommitmentKey(r) == key && r.id == key then Some(r) else LastOwn(records, key)
    ensures LastOf(records + [r], key) == if CommitmentKey(r) == key then Some(r) else LastOf(records, key)
  {
    assert Init(records + [r]) == records;
  }

  lemma {:induction false} SurvivorFiltered(
    records: seq<PrivateRecord>, keeps: PrivateRecord -> bool, keepsKey: string -> bool, key: string)
    requires DecidesByKey(records, keeps, keepsKey) && keepsKey(key)
    ensures LastOwn(FilterRecords(records, keeps), key) == LastOwn(records, key)
    ensures LastOf(FilterRecords(records, keeps), key) == LastOf(records, key)
  {
    if records != [] {
      var init, last := Init(records), Last(records);
      assert records == init + [last];
      SurvivorFiltered(init, keeps, keepsKey, key);
      LastStep(init, last, key);
      var rest := FilterRecords(init, keeps);
      if keeps(last) {
        LastStep(rest, last, key);
      } else {
        assert rest + [] == rest;
      }
    }
  }

  lemma {:induction false} SurvivorsFiltered(
    keys: seq<string>, records: seq<PrivateRecord>, keeps: PrivateRecord -> bool, keepsKey: string -> bool)
    requires DecidesByKey(records, keeps, keepsKey)
    ensures Survivors(FilterKeys(keys, keepsKey), FilterRecords(records, keeps))
         == FilterRecords(Survivors(keys, records), keeps)
  {
    if keys != [] {
      var key := Last(keys);
      SurvivorsFiltered(Init(keys), records, keeps, keepsKey);
      SurvivorHasKey(records, key);
      var rest := FilterKeys(Init(keys), keepsKey);
      if keepsKey(key) {
        SurvivorFiltered(records, keeps, keepsKey, key);
        assert Init(rest + [key]) == rest;
      } else {
        assert rest + [] == rest;
      }
      if Survivor(records, key).Some? {
        var before := Survivors(Init(keys), records);
        assert Init(before + [Survivor(records, key).value]) == before;
      }
    }
  }

  /** Deduplication commutes with every filter that decides by the commitment key. */
  lemma DedupCommutesWithKeyFilter(
    records: seq<PrivateRecord>, keeps: PrivateRecord -> bool, keepsKey: string -> bool)
    requires DecidesByKey(records, keeps, keepsKey)
    ensures Dedup(FilterRecords(records, keeps)) == FilterRecords(Dedup(records), keeps)
  {
    FirstSeenFiltered(records, keeps, keepsKey);
    SurvivorsFiltered(FirstSeen(records), records, keeps, keepsKey);
  }

  lemma {:induction false} FilterKeepsDistinct(records: seq<PrivateRecord>, keeps: PrivateRecord -> bool)
    requires Distinct(KeysOf(records))
    ensures Distinct(KeysOf(FilterRecords(records, keeps)))
  {
    if records != [] {
      var init, last := Init(records), Last(records);
      var rest := FilterRecords(init, keeps);
      assert KeysOf(records) == KeysOf(init) + [CommitmentKey(last)];
      FilterKeepsDistinct(init, keeps);
      FilterRecordsIn(init, keeps);
      forall i | 0 <= i < |rest|
        ensures KeysOf(rest)[i] != CommitmentKey(last)
      {
        assert rest[i] in rest;
        var j :| 0 <= j < |init| && init[j] == rest[i];
        assert KeysOf(records)[j] != KeysOf(records)[|init|];
      }
    }
  }

  // ---------------------------------------------------------------- appending records whose keys may be there already

  lemma {:induction false} FilterAllKeys(keys: seq<string>, keeps: string -> bool)
    requires forall key :: key in keys ==> keeps(key)
    ensures FilterKeys(keys, keeps) == keys
  {
    if keys != [] {
      assert keys == Init(keys) + [Last(keys)];
      FilterAllKeys(Init(keys), keeps);
    }
  }

  lemma {:induction false} FilterNoKeys(keys: seq<string>, keeps: string -> bool)
    requires forall key :: key in keys ==> !keeps(key)
    ensures FilterKeys(keys, keeps) == []
  {
    if keys != [] {
      assert keys == Init(keys) + [Last(keys)];
      FilterNoKeys(Init(keys), keeps);
    }
  }

  lemma {:induction false} FilterKeysConcat(keys: seq<string>, more: seq<string>, keeps: string -> bool)
    ensures FilterKeys(keys + more, keeps) == FilterKeys(keys, keeps) + FilterKeys(more, keeps)
    decreases |more|
  {
    if more == [] {
      assert keys + more == keys && FilterKeys(more, keeps) == [];
    } else {
      assert Init(keys + more) == keys + Init(more);
      FilterKeysConcat(keys, Init(more), keeps);
    }
  }

  function NotAmong(keys: seq<string>): string -> bool {
    (key: string) => key !in keys
  }

  lemma DistinctInit(records: seq<PrivateRecord>)
    requires Distinct(KeysOf(records)) && records != []
    ensures KeysOf(records) == KeysOf(Init(records)) + [CommitmentKey(Last(records))]
    ensures Distinct(KeysOf(Init(records))) && CommitmentKey(Last(records)) !in KeysOf(Init(records))
  {
    var init := Init(records);
    forall i, j | 0 <= i < j < |init|
      ensures KeysOf(init)[i] != KeysOf(init)[j]
    {
      assert KeysOf(records)[i] != KeysOf(records)[j];
    }
    forall i | 0 <= i < |init|
      ensures KeysOf(init)[i] != CommitmentKey(Last(records))
    {
      assert KeysOf(records)[i] != KeysOf(records)[|init|];
    }
  }

  lemma FirstSeenStep(records: seq<PrivateRecord>, r: PrivateRecord)
    ensures FirstSeen(records + [r])
         == FirstSeen(records) + if CommitmentKey(r) in FirstSeen(records) then [] else [CommitmentKey(r)]
  {
    assert Init(records + [r]) == records && Last(records + [r]) == r;
  }

  lemma FilterKeysStep(keys: seq<string>, key: string, keeps: string -> bool)
    ensures FilterKeys(keys + [key], keeps) == FilterKeys(keys, keeps) + if keeps(key) then [key] else []
  {
    assert Init(keys + [key]) == keys;
  }

  lemma SnocConcat<T>(front: seq<T>, more: seq<T>)
    requires more != []
    ensures (front + Init(more)) + [Last(more)] == front + more
  {
  }

  lemma NothingAppended(records: seq<PrivateRecord>)
    ensures FirstSeen(records + []) == FirstSeen(records) + FilterKeys(KeysOf([]), NotAmong(KeysOf(records)))
  {
    assert records + [] == records && FilterKeys(KeysOf([]), NotAmong(KeysOf(records))) == [];
  }

  /** Distinct keys come behind those already seen, as far as they are new. */
  lemma {:induction false} FirstSeenAppendAny(records: seq<PrivateRecord>, more: seq<PrivateRecord>)
    requires Distinct(KeysOf(more))
    ensures FirstSeen(records + more) == FirstSeen(records) + FilterKeys(KeysOf(more), NotAmong(KeysOf(records)))
    decreases |more|
  {
    if more == [] {
      NothingAppended(records);
    } else {
      DistinctInit(more);
      FirstSeenAppendAny(records, Init(more));
      FirstSeenOneMore(records, Init(more), Last(more));
      SnocConcat(records, more);
    }
  }

  lemma FirstSeenOneMore(records: seq<PrivateRecord>, init: seq<PrivateRecord>, r: PrivateRecord)
    requires CommitmentKey(r) !in KeysOf(init)
    requires FirstSeen(records + init) == FirstSeen(records) + FilterKeys(KeysOf(init), NotAmong(KeysOf(records)))
    ensures FirstSeen((records + init) + [r])
         == FirstSeen(records) + FilterKeys(KeysOf(init) + [CommitmentKey(r)], NotAmong(KeysOf(records)))
  {
    var key, isNew := CommitmentKey(r), NotAmong(KeysOf(records));
    FirstSeenStep(records + init, r);
    FilterKeysStep(KeysOf(init), key, isNew);
    FirstSeenKeys(records);
    FilterKeysIn(KeysOf(init), isNew);
    assert (FirstSeen(records) + FilterKeys(KeysOf(init), isNew)) + [key]
        == FirstSeen(records) + (FilterKeys(KeysOf(init), isNew) + [key]);
  }

  /** An appended record is its key's survivor exactly when its id is the key, or no earlier record's id is. */
  lemma AppendedSurvives(records: seq<PrivateRecord>, more: seq<PrivateRecord>, i: nat)
    requires Distinct(KeysOf(more)) && i < |more|
    ensures var key := CommitmentKey(more[i]);
            Survivor(records + more, key)
            == if more[i].id == key || LastOwn(records, key).None? then Some(more[i]) else LastOwn(records, key)
  {
    var key := CommitmentKey(more[i]);
    LastOfAppended(records, more, i);
  }

  lemma {:induction false} LastOfAppended(records: seq<PrivateRecord>, more: seq<PrivateRecord>, i: nat)
    requires Distinct(KeysOf(more)) && i < |more|
    ensures var key := CommitmentKey(more[i]);
            && LastOf(records + more, key) == Some(more[i])
            && LastOwn(records + more, key) == if more[i].id == key then Some(more[i]) else LastOwn(records, key)
    decreases |more|
  {
    var init, key := Init(more), CommitmentKey(more[i]);
    assert (records + init) + [Last(more)] == records + more;
    LastStep(records + init, Last(more), key);
    DistinctInit(more);
    if i < |init| {
      assert KeysOf(init)[i] == key;
      LastOfAppended(records, init, i);
    } else {
      SurvivorAppend(records, init, key);
    }
  }

  /** A survivor that a filter keeps is still its key's survivor among what the filter keeps. */
  lemma KeptSurvivorStays(records: seq<PrivateRecord>, keeps: PrivateRecord -> bool, key: string)
    requires Survivor(records, key).Some? && keeps(Survivor(records, key).value)
    ensures Survivor(FilterRecords(records, keeps), key) == Survivor(records, key)
  {
    KeptLastStays(records, keeps, key);
  }

  lemma {:induction false} KeptLastStays(records: seq<PrivateRecord>, keeps: PrivateRecord -> bool, key: string)
    ensures LastOwn(records, key).None? ==> LastOwn(FilterRecords(records, keeps), key).None?
    ensures LastOwn(records, key).Some? && keeps(LastOwn(records, key).value) ==>
              LastOwn(FilterRecords(records, keeps), key) == LastOwn(records, key)
    ensures LastOf(records, key).Some? && keeps(LastOf(records, key).value) ==>
              LastOf(FilterRecords(records, keeps), key) == LastOf(records, key)
  {
    if records != [] {
      var init, last := Init(records), Last(records);
      assert records == init + [last];
      KeptLastStays(init, keeps, key);
      LastStep(init, last, key);
      var rest := FilterRecords(init, keeps);
      if keeps(last) {
        LastStep(rest, last, key);
      } else {
        assert rest + [] == rest;
      }
    }
  }

  // ---------------------------------------------------------------- the loop

  /** One more record: its own key's survivor is the preferred one of the two, every other key keeps its survivor. */
  lemma SurvivorStep(before: seq<PrivateRecord>, record: PrivateRecord, key: string)
    ensures key != CommitmentKey(record) ==> Survivor(before + [record], key) == Survivor(before, key)
    ensures key == CommitmentKey(record) ==>
              Survivor(before + [record], key) == Some(match Survivor(before, key)
                                                       case None => record
                                                       case Some(current) => PreferPrivateRecord(current, record, key))
  {
    var now := before + [record];
    assert Init(now) == before && Last(now) == record;
    SurvivorHasKey(before, key);
    LastOwnBeatsAll(before, key);
  }

  /** When no record's id is the key, then the survivor's is not either. */
  lemma {:induction false} LastOwnBeatsAll(records: seq<PrivateRecord>, key: string)
    ensures Survivor(records, key).Some? ==> (Survivor(records, key).value.id == key <==> LastOwn(records, key).Some?)
  {
    if records != [] {
      LastOwnBeatsAll(Init(records), key);
      SurvivorHasKey(Init(records), key);
    }
  }

  /** What the insertion-ordered map holds after some of the records. */
  ghost predicate KeptSoFar(order: seq<string>, byCommitment: map<string, PrivateRecord>, seen: seq<PrivateRecord>) {
    && order == FirstSeen(seen)
    && (forall key :: key in byCommitment <==> key in order)
    && (forall key :: key in byCommitment ==> Survivor(seen, key) == Some(byCommitment[key]))
  }

  lemma KeepStep(
    order: seq<string>, byCommitment: map<string, PrivateRecord>, seen: seq<PrivateRecord>, record: PrivateRecord)
    requires KeptSoFar(order, byCommitment, seen)
    ensures var key := CommitmentKey(record);
            if key in byCommitment then
              KeptSoFar(order, byCommitment[key := PreferPrivateRecord(byCommitment[key], record, key)], seen + [record])
            else
              KeptSoFar(order + [key], byCommitment[key := record], seen + [record])
  {
    var key := CommitmentKey(record);
    FirstSeenKeys(seen);
    SurvivorHasKey(seen, key);
    assert Init(seen + [record]) == seen && Last(seen + [record]) == record;
    forall other
      ensures other != key ==> Survivor(seen + [record], other) == Survivor(seen, other)
    {
      SurvivorStep(seen, record, other);
    }
    SurvivorStep(seen, record, key);
  }

  /** A map that remembers insertion order, filled in one pass. */
  method DeduplicatePrivateRecords(records: seq<PrivateRecord>) returns (result: seq<PrivateRecord>)
    ensures result == Dedup(records)
  {
    var order: seq<string> := [];
    var byCommitment: map<string, PrivateRecord> := map[];
    for k := 0 to |records|
      invariant KeptSoFar(order, byCommitment, records[..k])
    {
      var record := records[k];
      var key := CommitmentKey(record);
      KeepStep(order, byCommitment, records[..k], record);
      assert records[..k + 1] == records[..k] + [record];
      if key in byCommitment {
        byCommitment := byCommitment[key := PreferPrivateRecord(byCommitment[key], record, key)];
      } else {
        order := order + [key];
        byCommitment := byCommitment[key := record];
      }
    }
    assert records[..|records|] == records;
    result := [];
    for k := 0 to |order|
      invariant result == Survivors(order[..k], records)
    {
      assert Init(order[..k + 1]) == order[..k];
      result := result + [byCommitment[order[k]]];
    }
    assert order[..|order|] == order;
  }
}
