/** The one-pass totals per asset, against the balance query that filters and sums for one asset. */
module AssetRows {
  import opened Common
  import opened PrivateRecords
  import opened PrivateLedger
  import opened Sorting

  datatype AssetRow = AssetRow(assetId: AssetId, poolContract: string, totalAmount: int, totalAmountDisplay: real)

  ghost function Display(r: PrivateRecord): real {
    match r.amountDisplay case Some(shown) => shown case None => r.amount as real
  }

  ghost function DisplaySum(records: seq<PrivateRecord>): real {
    if records == [] then 0.0 else DisplaySum(Init(records)) + Display(Last(records))
  }

  /** The row of the available records of one asset. */
  ghost function RowFor(part: seq<PrivateRecord>): AssetRow
    requires part != []
  {
    AssetRow(part[0].asset, match part[0].poolContract case Some(pool) => pool case None => "", Sum(part), DisplaySum(part))
  }

  function OfAsset(asset: AssetId): PrivateRecord -> bool {
    (r: PrivateRecord) => r.asset == asset
  }

  function Owned(owner: string): AvailableFilter {
    AvailableFilter(Some(owner), None, None)
  }

  function OwnedOf(owner: string, asset: AssetId): AvailableFilter {
    AvailableFilter(Some(owner), None, Some(asset))
  }

  lemma {:induction false} FilterTwice(records: seq<PrivateRecord>, owner: string, asset: AssetId)
    ensures FilterRecords(AvailableRecords(records, Owned(owner)), OfAsset(asset))
         == AvailableRecords(records, OwnedOf(owner, asset))
  {
    if records != [] {
      var last := Last(records);
      FilterTwice(Init(records), owner, asset);
      var first, both := AvailableRecords(Init(records), Owned(owner)), AvailableRecords(Init(records), OwnedOf(owner, asset));
      assert first + [] == first && both + [] == both;
      assert Init(first + [last]) == first;
    }
  }

  lemma FilterStep(records: seq<PrivateRecord>, r: PrivateRecord, asset: AssetId)
    ensures FilterRecords(records + [r], OfAsset(asset))
         == FilterRecords(records, OfAsset(asset)) + if r.asset == asset then [r] else []
  {
    assert Init(records + [r]) == records;
  }

  /** Taking one more record into a row. */
  lemma RowStep(part: seq<PrivateRecord>, r: PrivateRecord)
    ensures part == [] ==>
              RowFor([r]) == AssetRow(r.asset, if r.poolContract.Some? then r.poolContract.value else "", r.amount, Display(r))
    ensures part != [] ==>
              RowFor(part + [r]) == RowFor(part).(totalAmount := RowFor(part).totalAmount + r.amount,
                                                  totalAmountDisplay := RowFor(part).totalAmountDisplay + Display(r))
  {
    assert Init(part + [r]) == part && Last(part + [r]) == r;
    assert Init([r]) == [] && Last([r]) == r;
    assert Sum([r]) == r.amount && DisplaySum([r]) == Display(r);
    if part != [] {
      assert (part + [r])[0] == part[0];
    }
  }

  function ByAsset(): (AssetRow, AssetRow) -> bool {
    (left: AssetRow, right: AssetRow) => left.assetId <= right.assetId
  }

  /** What the rows must be: the available assets, each once and in order, each with its own filter-and-sum. */
  ghost predicate RowsOf(rows: seq<AssetRow>, records: seq<PrivateRecord>, owner: string) {
    && (forall i, j :: 0 <= i < j < |rows| ==> rows[i].assetId < rows[j].assetId)
    && (forall row :: row in rows ==>
          && AvailableRecords(records, OwnedOf(owner, row.assetId)) != []
          && row == RowFor(AvailableRecords(records, OwnedOf(owner, row.assetId))))
    && (forall asset: AssetId :: AvailableRecords(records, OwnedOf(owner, asset)) != [] ==>
          exists row :: row in rows && row.assetId == asset)
  }

  /** Each row's total is the balance query's answer, and the assets without a row have balance zero. */
  lemma RowsAgreeWithBalance(rows: seq<AssetRow>, records: seq<PrivateRecord>, owner: string, asset: AssetId)
    requires RowsOf(rows, records, owner)
    ensures forall row :: row in rows && row.assetId == asset ==> row.totalAmount == Balance(records, owner, asset)
    ensures (forall row :: row in rows ==> row.assetId != asset) ==> Balance(records, owner, asset) == 0
  {
    if forall row :: row in rows ==> row.assetId != asset {
      assert AvailableRecords(records, OwnedOf(owner, asset)) == [];
    }
  }

  /** Two lists of rows that meet the specification are the same list. */
  lemma {:induction false} RowsAreUnique(left: seq<AssetRow>, right: seq<AssetRow>, records: seq<PrivateRecord>, owner: string)
    requires RowsOf(left, records, owner) && RowsOf(right, records, owner)
    ensures left == right
  {
    SameRows(left, right, records, owner);
    SameRows(right, left, records, owner);
    AscendingUnique(left, right);
  }

  lemma SameRows(left: seq<AssetRow>, right: seq<AssetRow>, records: seq<PrivateRecord>, owner: string)
    requires RowsOf(left, records, owner) && RowsOf(right, records, owner)
    ensures forall row :: row in left ==> row in right
  {
    forall row | row in left
      ensures row in right
    {
      var other :| other in right && other.assetId == row.assetId;
      assert row == other;
    }
  }

  lemma BelowLast(rows: seq<AssetRow>)
    requires rows != [] && forall i, j :: 0 <= i < j < |rows| ==> rows[i].assetId < rows[j].assetId
    ensures forall row :: row in Init(rows) <==> row in rows && row != Last(rows)
  {
    assert rows == Init(rows) + [Last(rows)];
    forall row | row in Init(rows)
      ensures row != Last(rows)
    {
      var i :| 0 <= i < |Init(rows)| && Init(rows)[i] == row;
      assert rows[i].assetId < rows[|rows| - 1].assetId;
    }
  }

  lemma LastIsLargest(rows: seq<AssetRow>, row: AssetRow)
    requires row in rows && forall i, j :: 0 <= i < j < |rows| ==> rows[i].assetId < rows[j].assetId
    ensures row == Last(rows) || row.assetId < Last(rows).assetId
  {
    var i :| 0 <= i < |rows| && rows[i] == row;
  }

  lemma {:induction false} AscendingUnique(left: seq<AssetRow>, right: seq<AssetRow>)
    requires forall i, j :: 0 <= i < j < |left| ==> left[i].assetId < left[j].assetId
    requires forall i, j :: 0 <= i < j < |right| ==> right[i].assetId < right[j].assetId
    requires forall row :: row in left <==> row in right
    ensures left == right
  {
    assert right == [] || Last(right) in left;
    assert left == [] || Last(left) in right;
    if left != [] {
      LastIsLargest(left, Last(right));
      LastIsLargest(right, Last(left));
      BelowLast(left);
      BelowLast(right);
      AscendingUnique(Init(left), Init(right));
      assert left == Init(left) + [Last(left)] && right == Init(right) + [Last(right)];
    }
  }

  /** What the map of rows holds once it has seen some of the available records. */
  ghost predicate RowsSoFar(byAsset: map<AssetId, AssetRow>, seen: seq<PrivateRecord>) {
    && (forall asset: AssetId :: asset in byAsset <==> FilterRecords(seen, OfAsset(asset)) != [])
    && (forall asset: AssetId :: asset in byAsset ==> byAsset[asset] == RowFor(FilterRecords(seen, OfAsset(asset))))
  }

  function TakeIn(byAsset: map<AssetId, AssetRow>, record: PrivateRecord): map<AssetId, AssetRow> {
    var shown := if record.amountDisplay.Some? then record.amountDisplay.value else record.amount as real;
    if record.asset in byAsset then
      var existing := byAsset[record.asset];
      byAsset[record.asset := existing.(totalAmount := existing.totalAmount + record.amount,
                                        totalAmountDisplay := existing.totalAmountDisplay + shown)]
    else
      var pool := match record.poolContract case Some(contract) => contract case None => "";
      byAsset[record.asset := AssetRow(record.asset, pool, record.amount, shown)]
  }

  /** The row of the record's own asset takes the record in. */
  lemma TakeInOwn(byAsset: map<AssetId, AssetRow>, seen: seq<PrivateRecord>, record: PrivateRecord)
    requires RowsSoFar(byAsset, seen)
    ensures FilterRecords(seen + [record], OfAsset(record.asset)) != []
    ensures TakeIn(byAsset, record)[record.asset] == RowFor(FilterRecords(seen + [record], OfAsset(record.asset)))
  {
    var part := FilterRecords(seen, OfAsset(record.asset));
    FilterStep(seen, record, record.asset);
    RowStep(part, record);
    if part == [] {
      assert part + [record] == [record];
    }
  }

  /** The rows of all other assets stay. */
  lemma TakeInOther(byAsset: map<AssetId, AssetRow>, seen: seq<PrivateRecord>, record: PrivateRecord, asset: AssetId)
    requires RowsSoFar(byAsset, seen) && asset != record.asset
    ensures FilterRecords(seen + [record], OfAsset(asset)) == FilterRecords(seen, OfAsset(asset))
    ensures asset in TakeIn(byAsset, record) <==> asset in byAsset
    ensures asset in byAsset ==> TakeIn(byAsset, record)[asset] == byAsset[asset]
  {
    FilterStep(seen, record, asset);
    var part := FilterRecords(seen, OfAsset(asset));
    assert part + [] == part;
  }

  lemma TakeInStep(byAsset: map<AssetId, AssetRow>, seen: seq<PrivateRecord>, record: PrivateRecord)
    requires RowsSoFar(byAsset, seen)
    ensures RowsSoFar(TakeIn(byAsset, record), seen + [record])
  {
    var next := TakeIn(byAsset, record);
    forall asset: AssetId
      ensures asset in next <==> FilterRecords(seen + [record], OfAsset(asset)) != []
      ensures asset in next ==> next[asset] == RowFor(FilterRecords(seen + [record], OfAsset(asset)))
    {
      if asset == record.asset {
        TakeInOwn(byAsset, seen, record);
      } else {
        TakeInOther(byAsset, seen, record, asset);
      }
    }
  }

  lemma RowsHaveTheirAsset(byAsset: map<AssetId, AssetRow>, seen: seq<PrivateRecord>)
    requires RowsSoFar(byAsset, seen)
    ensures forall asset :: asset in byAsset ==> byAsset[asset].assetId == asset
  {
    forall asset | asset in byAsset
      ensures byAsset[asset].assetId == asset
    {
      FilterRecordsIn(seen, OfAsset(asset));
      assert FilterRecords(seen, OfAsset(asset))[0] in FilterRecords(seen, OfAsset(asset));
    }
  }

  function RowsInOrder(order: seq<AssetId>, byAsset: map<AssetId, AssetRow>): (rows: seq<AssetRow>)
    requires forall asset :: asset in order ==> asset in byAsset
    ensures |rows| == |order| && forall i :: 0 <= i < |order| ==> rows[i] == byAsset[order[i]]
  {
    seq(|order|, i requires 0 <= i < |order| => byAsset[order[i]])
  }

  lemma RowsInOrderAreAll(order: seq<AssetId>, byAsset: map<AssetId, AssetRow>)
    requires NoTwoEqual(order) && forall asset :: asset in order <==> asset in byAsset
    requires forall asset :: asset in byAsset ==> byAsset[asset].assetId == asset
    ensures NoTwoEqual(RowsInOrder(order, byAsset))
    ensures forall row :: row in RowsInOrder(order, byAsset) ==> row.assetId in byAsset && byAsset[row.assetId] == row
    ensures forall asset :: asset in byAsset ==> byAsset[asset] in RowsInOrder(order, byAsset)
  {
    var rows := RowsInOrder(order, byAsset);
    forall asset | asset in byAsset
      ensures byAsset[asset] in rows
    {
      var i :| 0 <= i < |order| && order[i] == asset;
      assert rows[i] == byAsset[asset];
    }
  }

  method TotalByAsset(available: seq<PrivateRecord>) returns (order: seq<AssetId>, byAsset: map<AssetId, AssetRow>)
    ensures NoTwoEqual(order) && forall asset :: asset in order <==> asset in byAsset
    ensures RowsSoFar(byAsset, available)
  {
    order := [];
    byAsset := map[];
    for k := 0 to |available|
      invariant NoTwoEqual(order) && forall asset :: asset in order <==> asset in byAsset
      invariant RowsSoFar(byAsset, available[..k])
    {
      assert available[..k + 1] == available[..k] + [available[k]];
      TakeInStep(byAsset, available[..k], available[k]);
      if available[k].asset !in byAsset {
        order := order + [available[k].asset];
      }
      byAsset := TakeIn(byAsset, available[k]);
    }
    assert available[..|available|] == available;
  }

  method AggregatePrivateAssetRows(records: seq<PrivateRecord>, owner: string) returns (rows: seq<AssetRow>)
    ensures RowsOf(rows, records, owner)
  {
    var available := AvailableRecords(records, Owned(owner));
    var order, byAsset := TotalByAsset(available);
    RowsHaveTheirAsset(byAsset, available);
    var unsorted := RowsInOrder(order, byAsset);
    RowsInOrderAreAll(order, byAsset);
    rows := SortBy(unsorted, ByAsset());
    SortedRows(rows, unsorted, byAsset);
    RowsMeetSpec(rows, byAsset, records, owner);
  }

  lemma RowsMeetSpec(rows: seq<AssetRow>, byAsset: map<AssetId, AssetRow>, records: seq<PrivateRecord>, owner: string)
    requires RowsSoFar(byAsset, AvailableRecords(records, Owned(owner)))
    requires forall i, j :: 0 <= i < j < |rows| ==> rows[i].assetId < rows[j].assetId
    requires forall row :: row in rows ==> row.assetId in byAsset && byAsset[row.assetId] == row
    requires forall asset :: asset in byAsset ==> byAsset[asset] in rows
    ensures RowsOf(rows, records, owner)
  {
    RowsHaveTheirAsset(byAsset, AvailableRecords(records, Owned(owner)));
    forall asset: AssetId
      ensures FilterRecords(AvailableRecords(records, Owned(owner)), OfAsset(asset))
           == AvailableRecords(records, OwnedOf(owner, asset))
    {
      FilterTwice(records, owner, asset);
    }
    forall asset: AssetId | AvailableRecords(records, OwnedOf(owner, asset)) != []
      ensures exists row :: row in rows && row.assetId == asset
    {
      assert asset in byAsset;
    }
  }

  /** Sorting the rows of distinct assets puts them in strictly ascending order and loses none. */
  lemma SortedRows(rows: seq<AssetRow>, unsorted: seq<AssetRow>, byAsset: map<AssetId, AssetRow>)
    requires NoTwoEqual(unsorted) && rows == SortBy(unsorted, ByAsset())
    requires forall row :: row in unsorted ==> row.assetId in byAsset && byAsset[row.assetId] == row
    requires forall asset :: asset in byAsset ==> byAsset[asset] in unsorted
    ensures forall i, j :: 0 <= i < j < |rows| ==> rows[i].assetId < rows[j].assetId
    ensures forall row :: row in rows ==> row.assetId in byAsset && byAsset[row.assetId] == row
    ensures forall asset :: asset in byAsset ==> byAsset[asset] in rows
  {
    SortedIsOrdered(unsorted, ByAsset());
    SortedHasSame(unsorted, ByAsset());
    SortKeepsDistinct(unsorted, ByAsset());
    forall i, j | 0 <= i < j < |rows|
      ensures rows[i].assetId < rows[j].assetId
    {
      assert rows[i] in rows && rows[j] in rows;
      assert ByAsset()(rows[i], rows[j]);
    }
  }
}
