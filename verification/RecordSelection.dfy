/**
 Choosing the notes a transfer or withdrawal spends. The stored records are what the ledger reads; the reading
 of a coin's numeral, the collation rank of an id and the spent answers of the chain are given functions.
 */
module RecordSelection {
  import opened Common
  import opened PrivateRecords
  import opened PrivateLedger
  import opened Sorting

  datatype Selection = Selected(records: seq<PrivateRecord>) | Insufficient(requested: int, available: int)

  /** What selection depends on besides the stored records: numerals, collation, and the chain when it is asked. */
  datatype Context = Context(
    bigInt: string -> Option<int>, rank: string -> int, spent: Option<PrivateRecord -> Ended<bool>>)

  function SpendAmount(r: PrivateRecord, bigInt: string -> Option<int>): Option<int> {
    if r.coinNote.Some? && r.coinNote.value.value != "" then bigInt(r.coinNote.value.value) else Some(r.amount)
  }

  /** The value of a record whose numeral parses. */
  function Worth(r: PrivateRecord, bigInt: string -> Option<int>): int {
    match SpendAmount(r, bigInt) case Some(value) => value case None => 0
  }

  predicate Readable(records: seq<PrivateRecord>, bigInt: string -> Option<int>) {
    forall r :: r in records ==> SpendAmount(r, bigInt).Some?
  }

  /** Larger values first, equal values by id. */
  function ForSpending(context: Context): (PrivateRecord, PrivateRecord) -> bool {
    (left: PrivateRecord, right: PrivateRecord) =>
      var leftValue, rightValue := Worth(left, context.bigInt), Worth(right, context.bigInt);
      leftValue > rightValue || (leftValue == rightValue && context.rank(left.id) <= context.rank(right.id))
  }

  function CeilHundredth(amount: int): int {
    (amount + 99) / 100
  }

  function SpendAmountCoveringProtocolFee(amount: int): int {
    if amount <= 0 then amount
    else
      var hundredths := CeilHundredth(amount);
      amount + if hundredths == 0 then 1 else hundredths
  }

  /** The cover is the amount plus the least whole number whose hundredfold reaches it, which is never zero. */
  lemma CoverIsLeast(amount: int, h: int)
    requires amount >= 1
    ensures SpendAmountCoveringProtocolFee(amount) == amount + CeilHundredth(amount)
    ensures CeilHundredth(amount) >= 1
    ensures 100 * h >= amount <==> h >= CeilHundredth(amount)
  {
  }

  function SourceFilter(from: string, asset: AssetId): AvailableFilter {
    if "stpl" <= from then AvailableFilter(None, Some(from), Some(asset)) else AvailableFilter(Some(from), None, Some(asset))
  }

  /** Not reported as spent. Records without a coin note are not asked about. */
  function Unspent(context: Context): PrivateRecord -> bool {
    (r: PrivateRecord) => context.spent.Some? && r.coinNote.Some? ==> context.spent.value(r) == Done(false)
  }

  /** The notes a spend may use. */
  function Candidates(stored: seq<PrivateRecord>, from: string, asset: AssetId, context: Context): seq<PrivateRecord> {
    FilterRecords(AvailableRecords(stored, SourceFilter(from, asset)), Unspent(context))
  }

  predicate OneCovers(notes: seq<PrivateRecord>, need: int, bigInt: string -> Option<int>) {
    exists i :: 0 <= i < |notes| && Worth(notes[i], bigInt) >= need
  }

  predicate TwoCover(notes: seq<PrivateRecord>, need: int, bigInt: string -> Option<int>) {
    exists i, j :: 0 <= i < j < |notes| && Worth(notes[i], bigInt) + Worth(notes[j], bigInt) >= need
  }

  function TotalWorth(notes: seq<PrivateRecord>, bigInt: string -> Option<int>): int {
    if notes == [] then 0 else TotalWorth(Init(notes), bigInt) + Worth(Last(notes), bigInt)
  }

  // ---------------------------------------------------------------- sorted lists and the best notes

  lemma SpendingOrderIsTotal(context: Context)
    ensures TotalOrder(ForSpending(context))
  {
  }

  lemma {:induction false} FilterCounts(xs: seq<PrivateRecord>, keeps: PrivateRecord -> bool, x: PrivateRecord)
    ensures multiset(FilterRecords(xs, keeps))[x] == if keeps(x) then multiset(xs)[x] else 0
  {
    if xs != [] {
      assert xs == Init(xs) + [Last(xs)];
      FilterCounts(Init(xs), keeps, x);
    }
  }

  lemma {:induction false} FilterKeepsOrder(
    xs: seq<PrivateRecord>, keeps: PrivateRecord -> bool, leq: (PrivateRecord, PrivateRecord) -> bool)
    requires Ordered(xs, leq)
    ensures Ordered(FilterRecords(xs, keeps), leq)
  {
    if xs != [] {
      FilterKeepsOrder(Init(xs), keeps, leq);
      FilterRecordsIn(Init(xs), keeps);
      var rest := FilterRecords(Init(xs), keeps);
      forall i | 0 <= i < |rest|
        ensures leq(rest[i], Last(xs))
      {
        assert rest[i] in rest;
        var j :| 0 <= j < |Init(xs)| && Init(xs)[j] == rest[i];
        assert leq(xs[j], xs[|xs| - 1]);
      }
    }
  }

  function Without(notes: seq<PrivateRecord>, i: nat): seq<PrivateRecord>
    requires i < |notes|
  {
    notes[..i] + notes[i + 1..]
  }

  lemma WithoutOne(notes: seq<PrivateRecord>, i: nat)
    requires i < |notes|
    ensures multiset(notes) == multiset(Without(notes, i)) + multiset{notes[i]}
  {
    assert notes == notes[..i] + [notes[i]] + notes[i + 1..];
  }

  lemma PairAtPositions(notes: seq<PrivateRecord>, x: PrivateRecord, y: PrivateRecord)
    returns (i: nat, j: nat)
    requires multiset{x, y} <= multiset(notes)
    ensures i < |notes| && j < |notes| && i != j && notes[i] == x && notes[j] == y
  {
    assert multiset{x, y} == multiset{x} + multiset{y};
    assert x in multiset(notes);
    i :| 0 <= i < |notes| && notes[i] == x;
    WithoutOne(notes, i);
    assert multiset{y} <= multiset(Without(notes, i));
    assert y in multiset(Without(notes, i));
    var k :| 0 <= k < |Without(notes, i)| && Without(notes, i)[k] == y;
    j := if k < i then k else k + 1;
  }

  lemma PairInMultiset(notes: seq<PrivateRecord>, i: nat, j: nat)
    requires i < j < |notes|
    ensures multiset{notes[i], notes[j]} <= multiset(notes)
  {
    assert notes == notes[..i] + [notes[i]] + notes[i + 1..j] + [notes[j]] + notes[j + 1..];
  }

  /** Two notes of a sorted list are worth no more than the first two. */
  lemma FirstTwoAreBest(sorted: seq<PrivateRecord>, i: nat, j: nat, context: Context)
    requires Ordered(sorted, ForSpending(context)) && i < |sorted| && j < |sorted| && i != j
    ensures Worth(sorted[i], context.bigInt) <= Worth(sorted[0], context.bigInt)
    ensures Worth(sorted[i], context.bigInt) + Worth(sorted[j], context.bigInt)
         <= Worth(sorted[0], context.bigInt) + Worth(sorted[1], context.bigInt)
  {
    var leq := ForSpending(context);
    assert forall k :: 0 < k < |sorted| ==> leq(sorted[0], sorted[k]);
    assert forall k :: 1 < k < |sorted| ==> leq(sorted[1], sorted[k]);
  }

  /** In a sorted permutation of the notes, the first decides whether one covers and the first two whether two do. */
  lemma SortedDecides(notes: seq<PrivateRecord>, sorted: seq<PrivateRecord>, need: int, context: Context)
    requires multiset(sorted) == multiset(notes) && Ordered(sorted, ForSpending(context)) && sorted != []
    ensures OneCovers(notes, need, context.bigInt) <==> Worth(sorted[0], context.bigInt) >= need
    ensures TwoCover(notes, need, context.bigInt) <==>
              (|sorted| >= 2 && Worth(sorted[0], context.bigInt) + Worth(sorted[1], context.bigInt) >= need)
  {
    assert |sorted| == |multiset(sorted)| == |multiset(notes)| == |notes|;
    assert sorted[0] in multiset(notes);
    var leq := ForSpending(context);
    forall i | 0 <= i < |notes|
      ensures Worth(notes[i], context.bigInt) <= Worth(sorted[0], context.bigInt)
    {
      assert notes[i] in multiset(sorted);
      var k :| 0 <= k < |sorted| && sorted[k] == notes[i];
      assert k == 0 || leq(sorted[0], sorted[k]);
    }
    forall i, j | 0 <= i < j < |notes|
      ensures Worth(notes[i], context.bigInt) + Worth(notes[j], context.bigInt)
           <= Worth(sorted[0], context.bigInt) + Worth(sorted[1], context.bigInt)
    {
      PairInMultiset(notes, i, j);
      var a, b := PairAtPositions(sorted, notes[i], notes[j]);
      FirstTwoAreBest(sorted, a, b, context);
    }
    if |sorted| >= 2 {
      PairInMultiset(sorted, 0, 1);
      var a, b := PairAtPositions(notes, sorted[0], sorted[1]);
      var low, high := if a < b then a else b, if a < b then b else a;
      assert Worth(notes[low], context.bigInt) + Worth(notes[high], context.bigInt)
          == Worth(sorted[0], context.bigInt) + Worth(sorted[1], context.bigInt);
    }
  }

  // ---------------------------------------------------------------- what a selection is to be

  /** Some one or two of the notes cover the need; one is taken exactly when one suffices; each comes from its own place. */
  predicate Decided(selection: Selection, notes: seq<PrivateRecord>, need: int, bigInt: string -> Option<int>) {
    && (selection.Selected? <==> OneCovers(notes, need, bigInt) || TwoCover(notes, need, bigInt))
    && (selection.Selected? ==>
          && 1 <= |selection.records| <= 2
          && (|selection.records| == 1 <==> OneCovers(notes, need, bigInt))
          && multiset(selection.records) <= multiset(notes)
          && TotalWorth(selection.records, bigInt) >= need)
  }

  /** Taken from the front of the sorted candidates, one note or two. */
  predicate Picked(selection: Selection, available: seq<PrivateRecord>, need: int, bigInt: string -> Option<int>)
    requires available != []
  {
    if Worth(available[0], bigInt) >= need then selection == Selected(available[..1])
    else if |available| >= 2 && Worth(available[0], bigInt) + Worth(available[1], bigInt) >= need then
      selection == Selected(available[..2])
    else
      selection == Insufficient(need, Worth(available[0], bigInt) + if |available| >= 2 then Worth(available[1], bigInt) else 0)
  }

  lemma PickedDecides(
    selection: Selection, notes: seq<PrivateRecord>, available: seq<PrivateRecord>, need: int, context: Context)
    requires multiset(available) == multiset(notes) && Ordered(available, ForSpending(context)) && available != []
    requires Picked(selection, available, need, context.bigInt)
    ensures Decided(selection, notes, need, context.bigInt)
  {
    SortedDecides(notes, available, need, context);
    assert available == available[..1] + available[1..];
    assert Init(available[..1]) == [] && Last(available[..1]) == available[0];
    if |available| >= 2 {
      assert available == available[..2] + available[2..];
      assert Init(available[..2]) == available[..1] && Last(available[..2]) == available[1];
      assert TotalWorth(available[..1], context.bigInt) == Worth(available[0], context.bigInt);
    }
  }

  /** Sorting the listed records and then dropping the spent ones gives the candidates in spending order. */
  lemma SortThenFilter(listed: seq<PrivateRecord>, keeps: PrivateRecord -> bool, context: Context)
    ensures multiset(FilterRecords(SortBy(listed, ForSpending(context)), keeps)) == multiset(FilterRecords(listed, keeps))
    ensures Ordered(FilterRecords(SortBy(listed, ForSpending(context)), keeps), ForSpending(context))
  {
    SpendingOrderIsTotal(context);
    SortedIsOrdered(listed, ForSpending(context));
    FilterKeepsOrder(SortBy(listed, ForSpending(context)), keeps, ForSpending(context));
    var left, right := FilterRecords(SortBy(listed, ForSpending(context)), keeps), FilterRecords(listed, keeps);
    forall x
      ensures multiset(left)[x] == multiset(right)[x]
    {
      FilterCounts(listed, keeps, x);
      FilterCounts(SortBy(listed, ForSpending(context)), keeps, x);
    }
  }

  // ---------------------------------------------------------------- the choice, in terms of what is stored

  /** What a note is worth to a spend: its coin's numeral where it has one, and else its amount. */
  ghost function ValueOf(r: PrivateRecord, context: Context): Option<int> {
    match r.coinNote
    case Some(coin) => if coin.value == "" then Some(r.amount) else context.bigInt(coin.value)
    case None => Some(r.amount)
  }

  ghost function Amount(r: PrivateRecord, context: Context): int {
    match ValueOf(r, context) case Some(value) => value case None => 0
  }

  /** A note of this asset that is spent from this source, and is neither consumed nor marked spent. */
  ghost predicate Listed(r: PrivateRecord, from: string, asset: AssetId) {
    && r.asset == asset && !r.consumed && r.status != Some(Spent)
    && if "stpl" <= from then r.privateAddress == Some(from) else r.owner == from
  }

  /** A listed note that the chain, if it is asked, does not report as spent. */
  ghost predicate Usable(r: PrivateRecord, from: string, asset: AssetId, context: Context) {
    && Listed(r, from, asset)
    && match context.spent
       case None => true
       case Some(isSpent) => r.coinNote == None || isSpent(r) == Done(false)
  }

  ghost predicate UsableNote(stored: seq<PrivateRecord>, r: PrivateRecord, from: string, asset: AssetId, context: Context) {
    r in stored && Usable(r, from, asset, context)
  }

  /** Two usable notes, each from its own place. */
  ghost predicate UsablePair(
    stored: seq<PrivateRecord>, r: PrivateRecord, other: PrivateRecord, from: string, asset: AssetId, context: Context)
  {
    multiset{r, other} <= multiset(stored) && Usable(r, from, asset, context) && Usable(other, from, asset, context)
  }

  /** Worth more, or as much with an id that does not come later. */
  ghost predicate Preferred(r: PrivateRecord, other: PrivateRecord, context: Context) {
    || Amount(r, context) > Amount(other, context)
    || (Amount(r, context) == Amount(other, context) && context.rank(r.id) <= context.rank(other.id))
  }

  /** The amount with its hundredth rounded up; an amount that is not positive stays as it is. */
  ghost predicate IsNeed(need: int, amount: int) {
    if amount <= 0 then need == amount else 100 * (need - amount - 1) < amount <= 100 * (need - amount)
  }

  /**
   The preferred usable note if it covers the need, and else with it the preferred one of the rest if the two cover
   it. If not, no usable note and no two of them cover it, and what is reported is the most that two are worth, or one
   if there is no second.
   */
  ghost predicate Chooses(
    selection: Selection, stored: seq<PrivateRecord>, from: string, asset: AssetId, need: int, context: Context)
  {
    match selection
    case Selected(notes) =>
      && (|notes| == 1 || |notes| == 2)
      && UsableNote(stored, notes[0], from, asset, context)
      && (forall r :: UsableNote(stored, r, from, asset, context) ==> Preferred(notes[0], r, context))
      && (|notes| == 1 ==> Amount(notes[0], context) >= need)
      && (|notes| == 2 ==>
            && UsablePair(stored, notes[0], notes[1], from, asset, context)
            && (forall r :: UsablePair(stored, notes[0], r, from, asset, context) ==> Preferred(notes[1], r, context))
            && Amount(notes[0], context) < need <= Amount(notes[0], context) + Amount(notes[1], context))
    case Insufficient(requested, best) =>
      && requested == need && best < need
      && (forall r :: UsableNote(stored, r, from, asset, context) ==> Amount(r, context) < need)
      && (forall r, other :: UsablePair(stored, r, other, from, asset, context) ==>
            Amount(r, context) + Amount(other, context) <= best)
      && ((exists r, other ::
             UsablePair(stored, r, other, from, asset, context) && Amount(r, context) + Amount(other, context) == best)
          || ((forall r, other :: !UsablePair(stored, r, other, from, asset, context))
              && exists r :: UsableNote(stored, r, from, asset, context) && Amount(r, context) == best))
  }

  ghost predicate NothingUsable(stored: seq<PrivateRecord>, from: string, asset: AssetId, context: Context) {
    forall r :: !UsableNote(stored, r, from, asset, context)
  }

  /** What selection is to answer for an amount. */
  ghost predicate ChoosesFor(
    selection: Selection, stored: seq<PrivateRecord>, from: string, asset: AssetId, amount: int, context: Context)
  {
    if NothingUsable(stored, from, asset, context) then selection == Insufficient(amount, 0)
    else exists need :: IsNeed(need, amount) && Chooses(selection, stored, from, asset, need, context)
  }

  lemma WorthIsAmount(r: PrivateRecord, context: Context)
    ensures SpendAmount(r, context.bigInt) == ValueOf(r, context) && Worth(r, context.bigInt) == Amount(r, context)
  {
  }

  lemma OrderIsPreference(r: PrivateRecord, other: PrivateRecord, context: Context)
    ensures ForSpending(context)(r, other) <==> Preferred(r, other, context)
  {
    WorthIsAmount(r, context);
    WorthIsAmount(other, context);
  }

  lemma CoverIsNeed(amount: int)
    ensures IsNeed(SpendAmountCoveringProtocolFee(amount), amount)
  {
  }

  /** The listed notes are the stored ones that are listed, each as often as it is stored. */
  lemma ListedAreStored(stored: seq<PrivateRecord>, from: string, asset: AssetId, r: PrivateRecord)
    ensures multiset(AvailableRecords(stored, SourceFilter(from, asset)))[r]
         == if Listed(r, from, asset) then multiset(stored)[r] else 0
  {
    FilterCounts(stored, (x: PrivateRecord) => Matches(x, SourceFilter(from, asset)), r);
  }

  /** The candidates are the usable stored notes, each as often as it is stored. */
  lemma CandidatesAreUsable(stored: seq<PrivateRecord>, from: string, asset: AssetId, context: Context, r: PrivateRecord)
    ensures multiset(Candidates(stored, from, asset, context))[r]
         == if Usable(r, from, asset, context) then multiset(stored)[r] else 0
  {
    ListedAreStored(stored, from, asset, r);
    FilterCounts(AvailableRecords(stored, SourceFilter(from, asset)), Unspent(context), r);
  }

  lemma UsableIsAvailable(
    stored: seq<PrivateRecord>, available: seq<PrivateRecord>, from: string, asset: AssetId, context: Context, r: PrivateRecord)
    requires multiset(available) == multiset(Candidates(stored, from, asset, context))
    ensures UsableNote(stored, r, from, asset, context) <==> r in available
  {
    CandidatesAreUsable(stored, from, asset, context, r);
    assert r in stored <==> multiset(stored)[r] > 0;
    assert r in available <==> multiset(available)[r] > 0;
  }

  lemma PairIsAvailable(
    stored: seq<PrivateRecord>, available: seq<PrivateRecord>, from: string, asset: AssetId, context: Context,
    r: PrivateRecord, other: PrivateRecord)
    requires multiset(available) == multiset(Candidates(stored, from, asset, context))
    ensures UsablePair(stored, r, other, from, asset, context) <==> multiset{r, other} <= multiset(available)
  {
    CandidatesAreUsable(stored, from, asset, context, r);
    CandidatesAreUsable(stored, from, asset, context, other);
    var pair := multiset{r, other};
    assert forall x :: x in pair ==> x == r || x == other;
    assert pair[r] > 0 && pair[other] > 0;
  }

  /** The first of the sorted notes is preferred to all, the second to all that remain beside the first. */
  lemma FirstArePreferred(available: seq<PrivateRecord>, context: Context)
    requires Ordered(available, ForSpending(context)) && available != []
    ensures forall r :: r in available ==> Preferred(available[0], r, context)
    ensures forall r :: multiset{available[0], r} <= multiset(available) ==>
              |available| >= 2 && Preferred(available[1], r, context)
    ensures forall r, other :: multiset{r, other} <= multiset(available) ==>
              && |available| >= 2
              && Amount(r, context) + Amount(other, context) <= Amount(available[0], context) + Amount(available[1], context)
  {
    var leq := ForSpending(context);
    SpendingOrderIsTotal(context);
    forall r | r in available
      ensures Preferred(available[0], r, context)
    {
      var k :| 0 <= k < |available| && available[k] == r;
      assert leq(available[0], available[k]);
      OrderIsPreference(available[0], r, context);
    }
    forall r | multiset{available[0], r} <= multiset(available)
      ensures |available| >= 2 && Preferred(available[1], r, context)
    {
      var i, j := PairAtPositions(available, available[0], r);
      var k := if j == 0 then i else j;
      assert available[k] == r && leq(available[1], available[k]);
      OrderIsPreference(available[1], r, context);
    }
    forall r, other | multiset{r, other} <= multiset(available)
      ensures |available| >= 2
      ensures Amount(r, context) + Amount(other, context) <= Amount(available[0], context) + Amount(available[1], context)
    {
      var i, j := PairAtPositions(available, r, other);
      FirstTwoAreBest(available, i, j, context);
    }
  }

  /** The available notes are the usable ones, singly and in pairs. */
  ghost predicate AreUsable(
    available: seq<PrivateRecord>, stored: seq<PrivateRecord>, from: string, asset: AssetId, context: Context)
  {
    && (forall r :: UsableNote(stored, r, from, asset, context) <==> r in available)
    && (forall r, other ::
          UsablePair(stored, r, other, from, asset, context) <==> multiset{r, other} <= multiset(available))
  }

  lemma CandidatesAreAvailable(
    available: seq<PrivateRecord>, stored: seq<PrivateRecord>, from: string, asset: AssetId, context: Context)
    requires multiset(available) == multiset(Candidates(stored, from, asset, context))
    ensures AreUsable(available, stored, from, asset, context)
  {
    forall r
      ensures UsableNote(stored, r, from, asset, context) <==> r in available
    {
      UsableIsAvailable(stored, available, from, asset, context, r);
    }
    forall r, other
      ensures UsablePair(stored, r, other, from, asset, context) <==> multiset{r, other} <= multiset(available)
    {
      PairIsAvailable(stored, available, from, asset, context, r, other);
    }
  }

  /** Taking the first, or the first two if only they cover, is the choice. */
  lemma FirstAreChosen(
    available: seq<PrivateRecord>, stored: seq<PrivateRecord>, from: string, asset: AssetId, need: int, context: Context)
    requires AreUsable(available, stored, from, asset, context)
    requires Ordered(available, ForSpending(context)) && available != []
    ensures Amount(available[0], context) >= need ==> Chooses(Selected(available[..1]), stored, from, asset, need, context)
    ensures (|available| >= 2
             && Amount(available[0], context) < need <= Amount(available[0], context) + Amount(available[1], context)) ==>
              Chooses(Selected(available[..2]), stored, from, asset, need, context)
  {
    FirstArePreferred(available, context);
    assert available[0] in available;
    if |available| >= 2 {
      PairInMultiset(available, 0, 1);
    }
  }

  lemma ShortfallIsReported(
    available: seq<PrivateRecord>, stored: seq<PrivateRecord>, from: string, asset: AssetId, need: int, context: Context)
    requires AreUsable(available, stored, from, asset, context)
    requires Ordered(available, ForSpending(context)) && available != [] && Amount(available[0], context) < need
    ensures var best := Amount(available[0], context) + if |available| >= 2 then Amount(available[1], context) else 0;
            best < need ==> Chooses(Insufficient(need, best), stored, from, asset, need, context)
  {
    FirstArePreferred(available, context);
    assert UsableNote(stored, available[0], from, asset, context);
    if |available| >= 2 {
      PairInMultiset(available, 0, 1);
      assert UsablePair(stored, available[0], available[1], from, asset, context);
    }
  }

  /** What is picked from the sorted candidates is the choice among the stored notes. */
  lemma PickedIsChosen(
    selection: Selection, stored: seq<PrivateRecord>, available: seq<PrivateRecord>, from: string, asset: AssetId,
    need: int, context: Context)
    requires multiset(available) == multiset(Candidates(stored, from, asset, context))
    requires Ordered(available, ForSpending(context)) && available != []
    requires Picked(selection, available, need, context.bigInt)
    ensures Chooses(selection, stored, from, asset, need, context)
  {
    CandidatesAreAvailable(available, stored, from, asset, context);
    WorthIsAmount(available[0], context);
    if |available| >= 2 {
      WorthIsAmount(available[1], context);
    }
    FirstAreChosen(available, stored, from, asset, need, context);
    if Amount(available[0], context) < need {
      ShortfallIsReported(available, stored, from, asset, need, context);
    }
  }

  // ---------------------------------------------------------------- the loops

  /** Keeps, in order, the records the chain does not report as spent. A rejected query ends the whole call. */
  method FilterUnspentPrivateRecords(records: seq<PrivateRecord>, context: Context) returns (e: Ended<seq<PrivateRecord>>)
    requires context.spent.Some?
    ensures e.Done? ==> e.value == FilterRecords(records, Unspent(context))
    ensures e.Done? <==> forall r :: r in records && r.coinNote.Some? ==> context.spent.value(r).Done?
  {
    var unspent: seq<PrivateRecord> := [];
    for k := 0 to |records|
      invariant unspent == FilterRecords(records[..k], Unspent(context))
      invariant forall r :: r in records[..k] && r.coinNote.Some? ==> context.spent.value(r).Done?
    {
      assert Init(records[..k + 1]) == records[..k];
      assert records[..k + 1] == records[..k] + [records[k]];
      if records[k].coinNote.None? {
        unspent := unspent + [records[k]];
      } else {
        var answer := context.spent.value(records[k]);
        if !answer.Done? {
          return if answer.Threw? then Threw else Crashed;
        }
        if !answer.value {
          unspent := unspent + [records[k]];
        }
      }
    }
    assert records[..|records|] == records;
    e := Done(unspent);
  }

  /** Takes notes from the front until they cover the amount, at most two. A numeral that does not parse throws. */
  method PickRecordsForSpendAmount(available: seq<PrivateRecord>, amount: int, bigInt: string -> Option<int>)
    returns (e: Ended<Selection>)
    requires available != [] && (|available| >= 2 ==> Readable(available, bigInt))
    ensures e.Done? ==> Picked(e.value, available, amount, bigInt)
    ensures e.Done? <==> Readable(available, bigInt)
  {
    var selectedTotal := 0;
    var selected: seq<PrivateRecord> := [];
    for k := 0 to |available|
      invariant k <= 1 && selected == available[..k]
      invariant selectedTotal == if k == 0 then 0 else Worth(available[0], bigInt)
      invariant k == 1 ==> selectedTotal < amount && SpendAmount(available[0], bigInt).Some?
    {
      var worth := SpendAmount(available[k], bigInt);
      if worth.None? {
        return Threw;
      }
      selected := selected + [available[k]];
      selectedTotal := selectedTotal + worth.value;
      if selectedTotal >= amount {
        return Done(Selected(selected));
      }
      if |selected| >= 2 {
        return Done(Insufficient(amount, selectedTotal));
      }
    }
    e := Done(Insufficient(amount, selectedTotal));
  }

  /** The listed notes in spending order, without the spent ones. Sorting two or more reads every value. */
  method AvailableNotes(listed: seq<PrivateRecord>, context: Context) returns (e: Ended<seq<PrivateRecord>>)
    ensures e.Done? ==>
              && multiset(e.value) == multiset(FilterRecords(listed, Unspent(context)))
              && Ordered(e.value, ForSpending(context))
              && (|e.value| >= 2 ==> Readable(listed, context.bigInt))
              && (forall r :: r in e.value ==> r in listed)
    ensures Answered(listed, context) ==> e.Done?
  {
    if |listed| >= 2 && !Readable(listed, context.bigInt) {
      return Threw;
    }
    var sorted := SortBy(listed, ForSpending(context));
    SpendingOrderIsTotal(context);
    SortedIsOrdered(listed, ForSpending(context));
    SortedHasSame(listed, ForSpending(context));
    SortThenFilter(listed, Unspent(context), context);
    FilterRecordsIn(sorted, Unspent(context));
    FilterIsNoLonger(sorted, Unspent(context));
    if context.spent.Some? {
      e := FilterUnspentPrivateRecords(sorted, context);
    } else {
      KeepAll(sorted, Unspent(context));
      e := Done(sorted);
    }
  }

  /**
   Selection succeeds exactly when some one or two of the usable stored notes cover the amount and its hundredth, uses
   one note exactly when one suffices, and takes the preferred ones. A source that is not given as text is rejected
   before anything is read.
   */
  method SelectPrivateRecords(
    storage: Ended<seq<PrivateRecord>>, source: Option<string>, asset: AssetId, amount: int, context: Context)
    returns (e: Ended<Selection>)
    ensures source.None? ==> e.Threw?
    ensures e.Done? ==>
              && storage.Done? && source.Some?
              && ChoosesFor(e.value, storage.value, source.value, asset, amount, context)
              && Decided(e.value, Candidates(storage.value, source.value, asset, context),
                         SpendAmountCoveringProtocolFee(amount), context.bigInt)
    ensures (source.Some? && storage.Done?
             && forall r :: r in storage.value && Listed(r, source.value, asset) ==> HasAnswers(r, context)) ==> e.Done?
  {
    if source.None? {
      return Threw;
    }
    var from := source.value;
    var stored :- storage;
    var records := AvailableRecords(stored, SourceFilter(from, asset));
    ListedAreAnswered(stored, from, asset, context);
    ListedAreNotConsumed(stored, SourceFilter(from, asset));
    var available :- AvailableNotes(FilterRecords(records, NotConsumed()), context);
    ghost var notes := Candidates(stored, from, asset, context);
    assert multiset(available) == multiset(notes);
    if |available| == 0 {
      assert |notes| == |multiset(notes)| == 0;
      NoneAvailable(stored, available, from, asset, context);
      return Done(Insufficient(amount, 0));
    }
    e := PickRecordsForSpendAmount(available, SpendAmountCoveringProtocolFee(amount), context.bigInt);
    if e.Done? {
      PickedDecides(e.value, notes, available, SpendAmountCoveringProtocolFee(amount), context);
      PickedIsChosen(e.value, stored, available, from, asset, SpendAmountCoveringProtocolFee(amount), context);
      CoverIsNeed(amount);
      UsableIsAvailable(stored, available, from, asset, context, available[0]);
    }
  }

  /** The value of the note can be read, and the chain answers if it is asked about it. */
  ghost predicate HasAnswers(r: PrivateRecord, context: Context) {
    && ValueOf(r, context).Some?
    && match context.spent
       case None => true
       case Some(isSpent) => r.coinNote == None || isSpent(r).Done?
  }

  lemma ListedAreAnswered(stored: seq<PrivateRecord>, from: string, asset: AssetId, context: Context)
    ensures (forall r :: r in stored && Listed(r, from, asset) ==> HasAnswers(r, context)) ==>
              Answered(AvailableRecords(stored, SourceFilter(from, asset)), context)
  {
    FilterRecordsIn(stored, (r: PrivateRecord) => Matches(r, SourceFilter(from, asset)));
  }

  lemma NoneAvailable(
    stored: seq<PrivateRecord>, available: seq<PrivateRecord>, from: string, asset: AssetId, context: Context)
    requires multiset(available) == multiset(Candidates(stored, from, asset, context)) && available == []
    ensures NothingUsable(stored, from, asset, context)
  {
    forall r
      ensures !UsableNote(stored, r, from, asset, context)
    {
      UsableIsAvailable(stored, available, from, asset, context, r);
    }
  }

  /** Every listed note has a readable value and, if the chain is asked, an answer. */
  predicate Answered(listed: seq<PrivateRecord>, context: Context) {
    && Readable(listed, context.bigInt)
    && forall r :: r in listed && context.spent.Some? && r.coinNote.Some? ==> context.spent.value(r).Done?
  }

  lemma ListedAreNotConsumed(stored: seq<PrivateRecord>, filter: AvailableFilter)
    ensures FilterRecords(AvailableRecords(stored, filter), NotConsumed()) == AvailableRecords(stored, filter)
  {
    FilterRecordsIn(stored, (r: PrivateRecord) => Matches(r, filter));
    KeepAll(AvailableRecords(stored, filter), NotConsumed());
  }

  lemma {:induction false} FilterIsNoLonger(records: seq<PrivateRecord>, keeps: PrivateRecord -> bool)
    ensures |FilterRecords(records, keeps)| <= |records|
  {
    if records != [] {
      FilterIsNoLonger(Init(records), keeps);
    }
  }
}
