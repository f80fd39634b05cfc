/** Recovery after a reload, and waiting for settlement with growing delays. */
module RelayRecovery {
  import opened Common
  import opened RelayTypes
  import opened RelayProtocol
  import opened RelayRuntime

  // ---------------------------------------------------------------- resume

  predicate DistinctKeys(ops: seq<Operation>) {
    forall i, j :: 0 <= i < j < |ops| ==> ops[i].key != ops[j].key
  }

  /** Known to a relayer and not finalized. */
  ghost predicate Pending(op: Operation) {
    op.relayRequestId != None && op.relayRequestId != Some("") && !op.finalized
  }

  /** `ops` lists, once each and in some order, the unfinalized relay operations of one wallet. */
  ghost predicate ListsPending(ops: seq<Operation>, store: map<Key, Operation>, wallet: string) {
    && DistinctKeys(ops)
    && (forall i :: 0 <= i < |ops| ==>
          && ops[i].key in store && store[ops[i].key] == ops[i]
          && ops[i].key.wallet == wallet && Pending(ops[i]))
    && (forall k :: k in store && k.wallet == wallet && Pending(store[k]) ==> store[k] in ops)
  }

  /** The store lists the wallet's operations in an order of its own; only the unfinalized relay ones are kept. */
  method ListPending(r: Runtime, wallet: string) returns (ops: seq<Operation>)
    requires r.Valid()
    ensures ListsPending(ops, r.store, wallet)
  {
    ops := [];
    var rest := r.store.Keys;
    while rest != {}
      invariant rest <= r.store.Keys
      invariant DistinctKeys(ops)
      invariant forall i :: 0 <= i < |ops| ==>
                  && ops[i].key in r.store.Keys - rest && r.store[ops[i].key] == ops[i]
                  && ops[i].key.wallet == wallet && Pending(ops[i])
      invariant forall k :: k in r.store.Keys - rest && k.wallet == wallet && Pending(r.store[k]) ==>
                  r.store[k] in ops
    {
      var k :| k in rest;
      rest := rest - {k};
      StoredWasBegun(r.trace, k);
      if k.wallet == wallet && IsUnfinalizedRelayOperation(r.store[k]) {
        ops := ops + [r.store[k]];
      }
    }
  }

  /** What one poll may add to the history: at most one report on its own operation, and no waiting. */
  ghost predicate AddsOnePoll(before: Trace, after: Trace, key: Key, answer: Option<StatusAnswer>) {
    && Earlier(before, after)
    && (forall k :: Reports(after, k) == Reports(before, k) + if answer.Some? && k == key then 1 else 0)
    && (forall k :: LastReport(after, k) == if answer.Some? && k == key then answer else LastReport(before, k))
    && (forall k :: Waits(after, k) == Waits(before, k))
  }

  lemma PollIsCounted(before: Trace, after: Trace, key: Key, answer: Option<StatusAnswer>)
    requires Calm(if answer.Some? then Then(before, Reported(key, answer.value)) else before, after)
    ensures AddsOnePoll(before, after, key, answer)
  {
    var asking := if answer.Some? then Then(before, Reported(key, answer.value)) else before;
    CalmIsEarlier(asking, after);
    assert Earlier(before, asking);
    EarlierTransitive(before, asking, after);
    forall k
      ensures Reports(after, k) == Reports(asking, k) && LastReport(after, k) == LastReport(asking, k)
      ensures Waits(after, k) == Waits(asking, k)
    {
      CalmKeepsReports(asking, after, k);
    }
  }

  /** The poll of one listed operation, whose record has not changed since it was listed. */
  method PollListed(r: Runtime, op: Operation) returns (e: Ended<SubmitResult>, ghost answer: Option<StatusAnswer>)
    requires r.Valid() && op.key in r.store && r.store[op.key] == op && Pending(op)
    modifies r
    ensures r.Explains(e)
    ensures r.Valid() && AddsOnePoll(old(r.trace), r.trace, op.key, answer)
    ensures r.Others(op.key) == old(r.Others(op.key))
    ensures e.Done? ==>
              && answer.Some?
              && r.store == old(r.store)[op.key := AfterPoll(op, answer.value)]
              && e.value.operation == AfterPoll(op, answer.value)
  {
    e, answer := r.PollPendingOperation(op.key);
    PollIsCounted(old(r.trace), r.trace, op.key, answer);
  }

  /** The operation was reported on once more than before, and `answer` is what was reported. */
  ghost predicate AskedOnce(t0: Trace, t: Trace, key: Key, answer: StatusAnswer) {
    Reports(t, key) == Reports(t0, key) + 1 && LastReport(t, key) == Some(answer)
  }

  /** The operations that have an answer were asked about once, and no other operation was asked about. */
  ghost predicate Asked(t0: Trace, t: Trace, pending: seq<Operation>, answers: seq<StatusAnswer>)
    requires |answers| <= |pending|
  {
    && (forall i :: 0 <= i < |answers| ==> AskedOnce(t0, t, pending[i].key, answers[i]))
    && (forall k :: (forall i :: 0 <= i < |answers| ==> pending[i].key != k) ==> Reports(t, k) == Reports(t0, k))
  }

  /** Each operation that has an answer holds the record it calls for; all other records are as before. */
  ghost predicate Updated(
    store0: map<Key, Operation>, store: map<Key, Operation>, pending: seq<Operation>, answers: seq<StatusAnswer>)
    requires |answers| <= |pending|
  {
    && store.Keys == store0.Keys
    && (forall i :: 0 <= i < |answers| ==>
          pending[i].key in store && store[pending[i].key] == AfterPoll(pending[i], answers[i]))
    && (forall k :: k in store && (forall i :: 0 <= i < |answers| ==> pending[i].key != k) ==> store[k] == store0[k])
  }

  lemma AskedStep(
    t0: Trace, t: Trace, next: Trace, pending: seq<Operation>, answers: seq<StatusAnswer>, answer: StatusAnswer)
    requires |answers| < |pending| && DistinctKeys(pending) && Asked(t0, t, pending, answers)
    requires AddsOnePoll(t, next, pending[|answers|].key, Some(answer))
    ensures Asked(t0, next, pending, answers + [answer])
  {
    var n := |answers|;
    var key, all := pending[n].key, answers + [answer];
    assert AskedOnce(t0, next, key, answer);
    forall i | 0 <= i < |all|
      ensures AskedOnce(t0, next, pending[i].key, all[i])
    {
      if i < n {
        assert AskedOnce(t0, t, pending[i].key, answers[i]) && pending[i].key != key;
      }
    }
    forall k | forall i :: 0 <= i < |all| ==> pending[i].key != k
      ensures Reports(next, k) == Reports(t0, k)
    {
      assert pending[n].key != k;
    }
  }

  lemma UpdatedStep(
    store0: map<Key, Operation>, store: map<Key, Operation>, pending: seq<Operation>, answers: seq<StatusAnswer>,
    answer: StatusAnswer)
    requires |answers| < |pending| && DistinctKeys(pending) && Updated(store0, store, pending, answers)
    requires pending[|answers|].key in store
    ensures var op := pending[|answers|];
            Updated(store0, store[op.key := AfterPoll(op, answer)], pending, answers + [answer])
  {
    var op, all := pending[|answers|], answers + [answer];
    var next := store[op.key := AfterPoll(op, answer)];
    assert next.Keys == store0.Keys;
    forall k | k in next && forall i :: 0 <= i < |all| ==> pending[i].key != k
      ensures next[k] == store0[k]
    {
      assert pending[|answers|].key != k;
    }
  }

  /** A pass that is cut after some polls has asked about no operation more than once. */
  lemma CutPass(
    t0: Trace, t: Trace, next: Trace, pending: seq<Operation>, answers: seq<StatusAnswer>, answer: Option<StatusAnswer>)
    requires |answers| < |pending| && DistinctKeys(pending) && Asked(t0, t, pending, answers)
    requires AddsOnePoll(t, next, pending[|answers|].key, answer)
    ensures NeverTwice(t0, next)
  {
    forall k
      ensures Reports(next, k) <= Reports(t0, k) + 1
    {
      if i :| 0 <= i < |answers| && pending[i].key == k {
        assert AskedOnce(t0, t, pending[i].key, answers[i]) && pending[i].key != pending[|answers|].key;
      }
    }
  }

  /** In a pass that was cut, the answered operations are updated, and only the one whose turn it was may have moved. */
  ghost predicate CutShort(
    store0: map<Key, Operation>, store: map<Key, Operation>, pending: seq<Operation>, answers: seq<StatusAnswer>)
  {
    && |answers| <= |pending|
    && if |answers| == |pending| then Updated(store0, store, pending, answers)
       else
         var key := pending[|answers|].key;
         Updated(store0 - {key}, store - {key}, pending, answers)
  }

  lemma CutWhileUnchanged(
    store0: map<Key, Operation>, store: map<Key, Operation>, next: map<Key, Operation>, pending: seq<Operation>,
    answers: seq<StatusAnswer>)
    requires |answers| < |pending| && DistinctKeys(pending) && Updated(store0, store, pending, answers)
    requires store - {pending[|answers|].key} == next - {pending[|answers|].key}
    ensures CutShort(store0, next, pending, answers)
  {
    var key := pending[|answers|].key;
    assert (store - {key}).Keys == (store0 - {key}).Keys;
    forall i | 0 <= i < |answers|
      ensures pending[i].key in store - {key} && (store - {key})[pending[i].key] == AfterPoll(pending[i], answers[i])
    {
      assert pending[i].key != key;
    }
  }

  lemma PassBegins(t0: Trace, t: Trace, store: map<Key, Operation>, pending: seq<Operation>)
    requires Calm(t0, t) && DistinctKeys(pending)
    ensures Earlier(t0, t) && Asked(t0, t, pending, []) && Updated(store, store, pending, [])
    ensures NeverTwice(t0, t) && CutShort(store, store, pending, [])
  {
    if pending != [] {
      CutWhileUnchanged(store, store, store, pending, []);
    }
    CalmIsEarlier(t0, t);
    forall k
      ensures Reports(t, k) == Reports(t0, k)
    {
      CalmKeepsReports(t0, t, k);
    }
  }

  /** Nothing was asked about twice. */
  ghost predicate NeverTwice(t0: Trace, t: Trace) {
    forall k :: Reports(t, k) <= Reports(t0, k) + 1
  }

  /** Where a pass stands: what was asked, what was updated, and the results so far. */
  ghost predicate InPass(
    t0: Trace, t: Trace, store0: map<Key, Operation>, store: map<Key, Operation>, pending: seq<Operation>,
    answers: seq<StatusAnswer>, results: seq<SubmitResult>)
  {
    && |results| == |answers| <= |pending|
    && Earlier(t0, t) && NeverTwice(t0, t)
    && Asked(t0, t, pending, answers) && Updated(store0, store, pending, answers)
    && (forall i :: 0 <= i < |answers| ==> results[i].operation == AfterPoll(pending[i], answers[i]))
  }

  lemma PassGoesOn(
    t0: Trace, t: Trace, next: Trace, store0: map<Key, Operation>, store: map<Key, Operation>,
    nextStore: map<Key, Operation>, pending: seq<Operation>, answers: seq<StatusAnswer>, results: seq<SubmitResult>,
    answer: StatusAnswer, result: SubmitResult)
    requires |answers| < |pending| && DistinctKeys(pending)
    requires InPass(t0, t, store0, store, pending, answers, results)
    requires AddsOnePoll(t, next, pending[|answers|].key, Some(answer))
    requires pending[|answers|].key in store
    requires var op := pending[|answers|];
             nextStore == store[op.key := AfterPoll(op, answer)] && result.operation == AfterPoll(op, answer)
    ensures InPass(t0, next, store0, nextStore, pending, answers + [answer], results + [result])
  {
    EarlierTransitive(t0, t, next);
    CutPass(t0, t, next, pending, answers, Some(answer));
    AskedStep(t0, t, next, pending, answers, answer);
    UpdatedStep(store0, store, pending, answers, answer);
  }

  lemma PassIsCut(
    t0: Trace, t: Trace, next: Trace, store0: map<Key, Operation>, store: map<Key, Operation>,
    nextStore: map<Key, Operation>, pending: seq<Operation>, answers: seq<StatusAnswer>, results: seq<SubmitResult>,
    answer: Option<StatusAnswer>)
    requires |answers| < |pending| && DistinctKeys(pending)
    requires InPass(t0, t, store0, store, pending, answers, results)
    requires AddsOnePoll(t, next, pending[|answers|].key, answer)
    requires store - {pending[|answers|].key} == nextStore - {pending[|answers|].key}
    ensures Earlier(t0, next) && NeverTwice(t0, next) && CutShort(store0, nextStore, pending, answers)
  {
    EarlierTransitive(t0, t, next);
    CutPass(t0, t, next, pending, answers, answer);
    CutWhileUnchanged(store0, store, nextStore, pending, answers);
  }

  /** One step of a pass. */
  method PollNext(
    r: Runtime, pending: seq<Operation>, i: nat, results: seq<SubmitResult>, ghost wallet: string,
    ghost answers: seq<StatusAnswer>, ghost t0: Trace, ghost store0: map<Key, Operation>)
    returns (e: Ended<SubmitResult>, ghost answer: StatusAnswer)
    requires r.Valid() && ListsPending(pending, store0, wallet) && i == |answers| < |pending|
    requires InPass(t0, r.trace, store0, r.store, pending, answers, results)
    modifies r
    ensures r.Explains(e)
    ensures r.Valid() && Earlier(t0, r.trace) && NeverTwice(t0, r.trace)
    ensures !e.Done? ==> CutShort(store0, r.store, pending, answers)
    ensures e.Done? ==> InPass(t0, r.trace, store0, r.store, pending, answers + [answer], results + [e.value])
  {
    ghost var before, store := r.trace, r.store;
    ghost var reported;
    e, reported := PollListed(r, pending[i]);
    answer := if reported.Some? then reported.value else StatusAnswer(None, false, None, None);
    if e.Done? {
      PassGoesOn(t0, before, r.trace, store0, store, r.store, pending, answers, results, answer, e.value);
    } else {
      PassIsCut(t0, before, r.trace, store0, store, r.store, pending, answers, results, reported);
    }
  }

  /**
   Every pending operation is reported on once. If the whole pass ends, each of them holds the record its own
   report calls for, so the ones reported succeeded are finalized, and all other records are untouched. A pass that
   is cut has done so for an initial part of them. No pass, cut or not, asks about an operation twice.
   */
  method ResumePendingOperations(r: Runtime, wallet: string)
    returns (e: Ended<seq<SubmitResult>>, ghost pending: seq<Operation>, ghost answers: seq<StatusAnswer>)
    requires r.Valid()
    modifies r
    ensures r.Explains(e)
    ensures r.Valid() && Earlier(old(r.trace), r.trace)
    ensures ListsPending(pending, old(r.store), wallet)
    ensures NeverTwice(old(r.trace), r.trace)
    ensures !e.Done? ==> CutShort(old(r.store), r.store, pending, answers)
    ensures e.Done? ==>
              && |answers| == |pending|
              && InPass(old(r.trace), r.trace, old(r.store), r.store, pending, answers, e.value)
  {
    var listed := ListPending(r, wallet);
    pending, answers := listed, [];
    var alive := r.MayCrash();
    PassBegins(old(r.trace), r.trace, r.store, pending);
    if !alive.Done? {
      return Crashed, pending, answers;
    }
    var results: seq<SubmitResult> := [];
    for i := 0 to |listed|
      invariant r.Valid() && |answers| == i
      invariant InPass(old(r.trace), r.trace, old(r.store), r.store, pending, answers, results)
    {
      var result;
      ghost var answer;
      result, answer := PollNext(r, listed, i, results, wallet, answers, old(r.trace), old(r.store));
      if !result.Done? {
        return (if result.Threw? then Threw else Crashed), pending, answers;
      }
      results, answers := results + [result.value], answers + [answer];
    }
    return Done(results), pending, answers;
  }

  // ---------------------------------------------------------------- await settlement

  datatype PollBounds = PollBounds(
    pollIntervalMs: real, maxAttempts: int, backoffMultiplier: real, maxPollIntervalMs: real)

  const DEFAULT_BOUNDS := PollBounds(2000.0, 15, 2.0, 30000.0)

  function OrElse<T>(given: Option<T>, otherwise: T): T {
    if given.Some? then given.value else otherwise
  }

  /** Bounds that are not given take their defaults. */
  function ResolvePollBounds(
    pollIntervalMs: Option<real>, maxAttempts: Option<int>, backoffMultiplier: Option<real>,
    maxPollIntervalMs: Option<real>): PollBounds
  {
    PollBounds(
      OrElse(pollIntervalMs, DEFAULT_BOUNDS.pollIntervalMs), OrElse(maxAttempts, DEFAULT_BOUNDS.maxAttempts),
      OrElse(backoffMultiplier, DEFAULT_BOUNDS.backoffMultiplier), OrElse(maxPollIntervalMs, DEFAULT_BOUNDS.maxPollIntervalMs))
  }

  function MaxPolls(bounds: PollBounds): nat {
    if bounds.maxAttempts > 1 then bounds.maxAttempts else 1
  }

  function Power(base: real, exponent: nat): real {
    if exponent == 0 then 1.0 else base * Power(base, exponent - 1)
  }

  function NextPollDelayMs(attemptIndex: nat, bounds: PollBounds): real {
    var grown := bounds.pollIntervalMs * Power(bounds.backoffMultiplier, attemptIndex);
    if grown <= bounds.maxPollIntervalMs then grown else bounds.maxPollIntervalMs
  }

  function Sum(xs: seq<real>): real {
    if xs == [] then 0.0 else Sum(xs[..|xs| - 1]) + xs[|xs| - 1]
  }

  /** The delays of the first `n` attempts. */
  function Schedule(n: nat, bounds: PollBounds): (delays: seq<real>)
    ensures |delays| == n
    ensures forall i :: 0 <= i < n ==> delays[i] == NextPollDelayMs(i, bounds)
  {
    if n == 0 then [] else Schedule(n - 1, bounds) + [NextPollDelayMs(n - 1, bounds)]
  }

  lemma ProductNotNegative(a: real, b: real)
    requires a >= 0.0 && b >= 0.0
    ensures a * b >= 0.0
  {
  }

  lemma Scales(base: real, x: real)
    requires base >= 1.0 && x >= 0.0
    ensures base * x >= x
  {
    ProductNotNegative(base - 1.0, x);
    assert (base - 1.0) * x == base * x - x;
  }

  lemma {:induction false} PowerAtLeastOne(base: real, i: nat)
    requires base >= 1.0
    ensures Power(base, i) >= 1.0
  {
    if i > 0 {
      PowerAtLeastOne(base, i - 1);
      Scales(base, Power(base, i - 1));
    }
  }

  lemma {:induction false} PowerGrows(base: real, i: nat, j: nat)
    requires base >= 1.0 && i <= j
    ensures 1.0 <= Power(base, i) <= Power(base, j)
  {
    PowerAtLeastOne(base, i);
    if i < j {
      PowerGrows(base, i, j - 1);
      Scales(base, Power(base, j - 1));
    }
  }

  /** With a multiplier of at least one the delays never shrink. */
  lemma DelaysNeverShrink(i: nat, j: nat, bounds: PollBounds)
    requires bounds.backoffMultiplier >= 1.0 && bounds.pollIntervalMs >= 0.0 && i <= j
    ensures NextPollDelayMs(i, bounds) <= NextPollDelayMs(j, bounds)
  {
    var early, late := Power(bounds.backoffMultiplier, i), Power(bounds.backoffMultiplier, j);
    PowerGrows(bounds.backoffMultiplier, i, j);
    ProductNotNegative(bounds.pollIntervalMs, late - early);
    assert bounds.pollIntervalMs * (late - early) == bounds.pollIntervalMs * late - bounds.pollIntervalMs * early;
  }

  /**
   What the delays are: the first is the interval, and each further one is the multiplier times the one before, all of
   them cut off at the cap.
   */
  lemma DelaysMultiplyUpToTheCap(i: nat, bounds: PollBounds)
    requires bounds.backoffMultiplier >= 1.0 && bounds.maxPollIntervalMs >= 0.0
    ensures NextPollDelayMs(0, bounds) == Least(bounds.pollIntervalMs, bounds.maxPollIntervalMs)
    ensures NextPollDelayMs(i + 1, bounds)
         == Least(bounds.backoffMultiplier * NextPollDelayMs(i, bounds), bounds.maxPollIntervalMs)
  {
    var interval, m, p := bounds.pollIntervalMs, bounds.backoffMultiplier, Power(bounds.backoffMultiplier, i);
    assert interval * (m * p) == m * (interval * p);
    Scales(m, bounds.maxPollIntervalMs);
    if interval * p > bounds.maxPollIntervalMs {
      Scales(m, interval * p);
    }
  }

  ghost function Least(x: real, y: real): real {
    if x < y then x else y
  }

  /** The delays when no bounds are given: two, four, eight and sixteen seconds, and then thirty each time. */
  lemma DefaultDelays(i: nat)
    ensures var bounds := ResolvePollBounds(None, None, None, None);
            && MaxPolls(bounds) == 15
            && Schedule(4, bounds) == [2000.0, 4000.0, 8000.0, 16000.0]
            && (i >= 4 ==> NextPollDelayMs(i, bounds) == 30000.0)
  {
    var bounds := ResolvePollBounds(None, None, None, None);
    DelaysMultiplyUpToTheCap(0, bounds);
    DelaysMultiplyUpToTheCap(1, bounds);
    DelaysMultiplyUpToTheCap(2, bounds);
    DelaysMultiplyUpToTheCap(3, bounds);
    if i >= 4 {
      DelaysNeverShrink(4, i, bounds);
      DelayCapped(i, bounds);
    }
  }

  lemma DelayCapped(i: nat, bounds: PollBounds)
    ensures NextPollDelayMs(i, bounds) <= bounds.maxPollIntervalMs
  {
  }

  lemma OneMore(n: real, cap: real)
    ensures (n + 1.0) * cap == n * cap + cap
  {
  }

  /** The total waiting time is at most the cap for every delay. */
  lemma {:induction false} TotalWaitBounded(delays: seq<real>, cap: real)
    requires forall i :: 0 <= i < |delays| ==> delays[i] <= cap
    ensures Sum(delays) <= |delays| as real * cap
  {
    if delays != [] {
      var n := |delays| - 1;
      TotalWaitBounded(delays[..n], cap);
      OneMore(n as real, cap);
    }
  }

  /** The first `n` delays take at most the cap each. */
  ghost predicate WithinCap(n: nat, bounds: PollBounds) {
    Sum(Schedule(n, bounds)) <= n as real * bounds.maxPollIntervalMs
  }

  lemma ScheduleCapped(n: nat, bounds: PollBounds)
    ensures WithinCap(n, bounds)
  {
    forall i | 0 <= i < n
      ensures Schedule(n, bounds)[i] <= bounds.maxPollIntervalMs
    {
      DelayCapped(i, bounds);
    }
    TotalWaitBounded(Schedule(n, bounds), bounds.maxPollIntervalMs);
  }

  /** The environment's `delay`. It may be cut, and then nobody has waited. */
  method Delay(r: Runtime, key: Key, ms: real) returns (e: Ended<()>)
    requires r.Valid() && key in r.store
    modifies r`trace
    ensures r.Valid() && !e.Threw?
    ensures e.Done? ==> r.trace == Then(old(r.trace), Waited(key, ms))
    ensures e.Crashed? ==> r.trace == Then(old(r.trace), CrashHappened)
  {
    e := r.MayCrash();
    if e.Done? {
      r.trace := Then(r.trace, Waited(key, ms));
    }
  }

  /** The relayer can be asked about the operation. */
  predicate Asks(store: map<Key, Operation>, key: Key) {
    key in store && Present(store[key].relayRequestId)
  }

  /** The history ends with the whole of one poll, begun at `start`, that brought `answer`. */
  ghost predicate EndsWithPoll(start: Trace, t: Trace, key: Key, answer: Option<StatusAnswer>) {
    && key in StoreOf(start)
    && (answer.Some? <==> Asks(StoreOf(start), key))
    && t == if answer.None? then start else PollTrace(start, StoreOf(start)[key], answer.value)
  }

  method PollOnce(r: Runtime, key: Key) returns (e: Ended<SubmitResult>, ghost answer: Option<StatusAnswer>)
    requires r.Valid()
    modifies r
    ensures e.Crashed? || key in old(r.store) ==> r.Explains(e)
    ensures r.Valid() && r.Others(key) == old(r.Others(key))
    ensures AddsOnePoll(old(r.trace), r.trace, key, answer)
    ensures e.Done? ==>
              && key in r.store
              && EndsWithPoll(old(r.trace), r.trace, key, answer)
              && (answer.Some? <==> Asks(old(r.store), key))
              && (answer.None? ==> r.store == old(r.store))
              && Asks(r.store, key) == Asks(old(r.store), key)
              && e.value == ToSubmitResult(r.store[key], e.value.txId, e.value.warning)
  {
    if key in r.store {
      StoredWasBegun(r.trace, key);
    }
    e, answer := r.PollPendingOperation(key);
    PollIsCounted(old(r.trace), r.trace, key, answer);
    if answer.Some? && key in old(r.store) {
      PollKeepsRequest(old(r.store)[key], answer.value);
    }
  }

  lemma PollKeepsRequest(op: Operation, answer: StatusAnswer)
    ensures AfterPoll(op, answer).relayRequestId == op.relayRequestId && AfterPoll(op, answer).key == op.key
  {
  }

  /**
   What the polls of a wait have added to the history: one report for each, if the operation can be asked about,
   and the scheduled delays between them.
   */
  ghost predicate Polled(before: Trace, after: Trace, key: Key, polls: nat, asks: bool, bounds: PollBounds)
    requires polls >= 1
  {
    && Earlier(before, after)
    && Reports(after, key) == Reports(before, key) + (if asks then polls else 0)
    && Waits(after, key) == Waits(before, key) + Schedule(polls - 1, bounds)
  }

  lemma PolledAgain(
    before: Trace, t: Trace, next: Trace, key: Key, polls: nat, asks: bool, bounds: PollBounds,
    answer: Option<StatusAnswer>)
    requires polls >= 1 && Polled(before, t, key, polls, asks, bounds)
    requires AddsOnePoll(Then(t, Waited(key, NextPollDelayMs(polls - 1, bounds))), next, key, answer)
    ensures Earlier(before, next) && Waits(next, key) == Waits(before, key) + Schedule(polls, bounds)
    ensures Reports(next, key) <= Reports(before, key) + polls + 1
    ensures (answer.Some? <==> asks) ==> Polled(before, next, key, polls + 1, asks, bounds)
  {
    var waited := Then(t, Waited(key, NextPollDelayMs(polls - 1, bounds)));
    assert Earlier(t, waited);
    EarlierTransitive(before, t, waited);
    EarlierTransitive(before, waited, next);
    assert Waits(waited, key) == Waits(t, key) + [NextPollDelayMs(polls - 1, bounds)];
    assert Schedule(polls, bounds) == Schedule(polls - 1, bounds) + [NextPollDelayMs(polls - 1, bounds)];
    assert Waits(before, key) + Schedule(polls - 1, bounds) + [NextPollDelayMs(polls - 1, bounds)]
        == Waits(before, key) + Schedule(polls, bounds);
  }

  /** Where a wait stands after `polls` polls: counted in the history, the last one whole and its record reported. */
  ghost predicate Standing(
    t0: Trace, t: Trace, store0: map<Key, Operation>, store: map<Key, Operation>, key: Key, bounds: PollBounds,
    polls: nat, start: Trace, answer: Option<StatusAnswer>, result: SubmitResult)
  {
    && polls >= 1 && Polled(t0, t, key, polls, Asks(store0, key), bounds)
    && Earlier(t0, start) && EndsWithPoll(start, t, key, answer)
    && key in store && Asks(store, key) == Asks(store0, key) && (!Asks(store0, key) ==> store == store0)
    && result == ToSubmitResult(store[key], result.txId, result.warning)
  }

  /** One more delay and poll behind `polls` of them. */
  method WaitAndPoll(
    r: Runtime, key: Key, ghost t0: Trace, ghost store0: map<Key, Operation>, bounds: PollBounds, polls: nat,
    ghost early: Trace, ghost before: Option<StatusAnswer>, result: SubmitResult)
    returns (e: Ended<SubmitResult>, ghost start: Trace, ghost answer: Option<StatusAnswer>, asked: bool)
    requires r.Valid() && Standing(t0, r.trace, store0, r.store, key, bounds, polls, early, before, result)
    modifies r
    ensures r.Explains(e)
    ensures r.Valid() && r.Others(key) == old(r.Others(key))
    ensures Earlier(t0, r.trace)
    ensures !asked ==> e.Crashed?
    ensures var n := if asked then polls + 1 else polls;
            && Reports(r.trace, key) <= Reports(t0, key) + n
            && Waits(r.trace, key) == Waits(t0, key) + Schedule(n - 1, bounds)
    ensures e.Done? ==> Standing(t0, r.trace, store0, r.store, key, bounds, polls + 1, start, answer, e.value)
  {
    start, answer, asked := r.trace, None, false;
    var waited := Delay(r, key, NextPollDelayMs(polls - 1, bounds));
    if !waited.Done? {
      assert Earlier(start, r.trace);
      EarlierTransitive(t0, start, r.trace);
      return Crashed, start, answer, asked;
    }
    asked := true;
    ghost var standing := start;
    start := r.trace;
    e, answer := PollOnce(r, key);
    PolledAgain(t0, standing, r.trace, key, polls, Asks(store0, key), bounds, answer);
    EarlierTransitive(t0, standing, start);
  }

  /**
   Between one and `max(1, maxAttempts)` polls, with one delay fewer, each of them in the history. The wait ends
   with a whole poll whose record it reports, and it ends unsettled only when every poll was used.
   */
  method PollUntilBound(r: Runtime, key: Key, bounds: PollBounds)
    returns (e: Ended<SubmitResult>, polls: nat, ghost start: Trace, ghost answer: Option<StatusAnswer>)
    requires r.Valid()
    modifies r
    ensures e.Crashed? || key in old(r.store) ==> r.Explains(e)
    ensures r.Valid() && Earlier(old(r.trace), r.trace)
    ensures r.Others(key) == old(r.Others(key))
    ensures 1 <= polls <= MaxPolls(bounds)
    ensures Reports(r.trace, key) <= Reports(old(r.trace), key) + polls
    ensures Waits(r.trace, key) == Waits(old(r.trace), key) + Schedule(polls - 1, bounds)
    ensures e.Done? ==>
              && Standing(old(r.trace), r.trace, old(r.store), r.store, key, bounds, polls, start, answer, e.value)
              && r.store[key].key == key
              && (!IsSettled(e.value) ==> polls == MaxPolls(bounds))
  {
    polls, start := 1, r.trace;
    e, answer := PollOnce(r, key);
    assert Waits(old(r.trace), key) + [] == Waits(old(r.trace), key);
    var attemptIndex := 0;
    while e.Done? && !IsSettled(e.value) && attemptIndex + 1 < bounds.maxAttempts
      invariant r.Valid() && r.Others(key) == old(r.Others(key)) && Earlier(old(r.trace), r.trace)
      invariant e.Crashed? || key in old(r.store) ==> r.Explains(e)
      invariant 1 <= polls <= MaxPolls(bounds)
      invariant Reports(r.trace, key) <= Reports(old(r.trace), key) + polls
      invariant Waits(r.trace, key) == Waits(old(r.trace), key) + Schedule(polls - 1, bounds)
      invariant e.Done? ==>
                  && polls == attemptIndex + 1
                  && Standing(old(r.trace), r.trace, old(r.store), r.store, key, bounds, polls, start, answer, e.value)
      decreases e.Done?, bounds.maxAttempts - attemptIndex
    {
      var asked;
      e, start, answer, asked :=
        WaitAndPoll(r, key, old(r.trace), old(r.store), bounds, polls, start, answer, e.value);
      polls := if asked then polls + 1 else polls;
      attemptIndex := attemptIndex + 1;
    }
    if e.Done? {
      StoredWasBegun(r.trace, key);
    }
  }

  method MarkSettlementTimedOut(r: Runtime, op: Operation) returns (e: Ended<SubmitResult>)
    requires r.Valid() && op.key in r.store && r.store[op.key] == op
    modifies r
    ensures r.Explains(e)
    ensures r.Valid() && Calm(old(r.trace), r.trace)
    ensures r.Others(op.key) == old(r.Others(op.key))
    ensures e.Done? ==>
              var marked := op.(phase := Phase.SettlementTimedOut);
              && r.trace == Then(old(r.trace), Saved(marked)) && r.store == old(r.store)[op.key := marked]
              && e.value == ToSubmitResult(marked, None, None)
  {
    StoredWasBegun(r.trace, op.key);
    e := r.SaveAndReport(op.(phase := Phase.SettlementTimedOut), None);
  }

  /**
   The wait ends settled. Its last poll decides: if that was settled, its result is the answer; if not, the bound
   was reached, and what is stored and answered is that very record with its phase set to `settlement_timed_out`.
   Waiting takes at most the cap for each delay.
   */
  method AwaitRelaySettlement(r: Runtime, key: Key, bounds: PollBounds)
    returns (e: Ended<SubmitResult>, polls: nat, ghost last: Ended<SubmitResult>, ghost start: Trace,
             ghost answer: Option<StatusAnswer>)
    requires r.Valid()
    modifies r
    ensures e.Crashed? || key in old(r.store) ==> r.Explains(e)
    ensures r.Valid() && Earlier(old(r.trace), r.trace)
    ensures r.Others(key) == old(r.Others(key))
    ensures 1 <= polls <= MaxPolls(bounds)
    ensures Reports(r.trace, key) <= Reports(old(r.trace), key) + polls
    ensures Waits(r.trace, key) == Waits(old(r.trace), key) + Schedule(polls - 1, bounds)
    ensures WithinCap(polls - 1, bounds)
    ensures e.Done? ==> IsSettled(e.value) && last.Done? && key in r.store && e.value.operation == r.store[key]
    ensures e.Done? ==>
              var timedOut := !IsSettled(last.value);
              var polled := if timedOut && r.trace.Then? then r.trace.before else r.trace;
              && Standing(old(r.trace), polled, old(r.store), StoreOf(polled), key, bounds, polls, start, answer, last.value)
              && (!timedOut ==> e == last)
              && (timedOut ==>
                    var marked := StoreOf(polled)[key].(phase := Phase.SettlementTimedOut);
                    && polls == MaxPolls(bounds)
                    && r.trace == Then(polled, Saved(marked))
                    && e.value == ToSubmitResult(marked, None, None))
  {
    e, polls, start, answer := PollUntilBound(r, key, bounds);
    last := e;
    ScheduleCapped(polls - 1, bounds);
    if e.Done? && !IsSettled(e.value) {
      ghost var polled := r.trace;
      e := MarkSettlementTimedOut(r, e.value.operation);
      CalmKeepsReports(polled, r.trace, key);
      CalmIsEarlier(polled, r.trace);
      EarlierTransitive(old(r.trace), polled, r.trace);
    }
  }

  /** The result tells of the stored record. */
  ghost predicate TellsStored(store: map<Key, Operation>, key: Key, result: SubmitResult) {
    key in store && Tells(result, store[key], result.txId, result.warning)
  }

  /** The phase is neither prepared nor relay_accepted, or the relayer's status is terminal. */
  ghost predicate EndedFor(result: SubmitResult) {
    || (result.outcome != Phase.Prepared && result.outcome != Phase.RelayAccepted)
    || result.operation.relayStatus == Some(RelayStatus.Succeeded)
    || result.operation.relayStatus == Some(RelayStatus.Rejected)
    || result.operation.relayStatus == Some(RelayStatus.Failed)
  }

  /** The submission, before any wait: either it has ended, or the relayer took it. */
  method SubmitFirst(r: Runtime, input: NewOperation) returns (e: Ended<SubmitResult>)
    requires r.Valid() && !BegunAs(r.trace, input.key, true) && !BegunAs(r.trace, input.key, false)
    modifies r
    ensures r.Explains(e)
    ensures r.Valid() && Earlier(old(r.trace), r.trace)
    ensures r.Others(input.key) == old(r.Others(input.key))
    ensures Reports(r.trace, input.key) == Reports(old(r.trace), input.key)
    ensures Waits(r.trace, input.key) == Waits(old(r.trace), input.key)
    ensures e.Done? ==>
              && TellsStored(r.store, input.key, e.value)
              && (e.value.outcome == Phase.RelayAccepted || EndedFor(e.value))
              && (e.value.outcome == Phase.RelayAccepted ==> r.relayConfigured && (input.escrowSend || !input.directPath))
  {
    ghost var outcome, txId;
    e, outcome, txId := r.SubmitPreparedPrivateOperation(input);
    CalmIsEarlier(old(r.trace), r.trace);
    CalmKeepsReports(old(r.trace), r.trace, input.key);
  }

  /** The wait behind an accepted submission. */
  method AwaitEnd(r: Runtime, key: Key, bounds: PollBounds) returns (e: Ended<SubmitResult>, ghost polls: nat)
    requires r.Valid() && key in r.store
    modifies r
    ensures r.Explains(e)
    ensures r.Valid() && Earlier(old(r.trace), r.trace)
    ensures r.Others(key) == old(r.Others(key))
    ensures 1 <= polls <= if bounds.maxAttempts > 1 then bounds.maxAttempts else 1
    ensures Reports(r.trace, key) <= Reports(old(r.trace), key) + polls
    ensures Waits(r.trace, key) == Waits(old(r.trace), key) + Schedule(polls - 1, bounds)
    ensures e.Done? ==> TellsStored(r.store, key, e.value) && EndedFor(e.value)
  {
    var asked;
    ghost var last, start, answer;
    e, asked, last, start, answer := AwaitRelaySettlement(r, key, bounds);
    polls := asked;
    if e.Done? {
      SettledExactly(e.value);
    }
  }

  /**
   A submission and, if the relayer took it, the wait for its settlement. What is answered is what is stored, and it
   is settled. Only an accepted operation is polled, at most as often as the bound says, with the scheduled delays.
   */
  method SubmitAndAwait(r: Runtime, input: NewOperation, pollIntervalMs: Option<real>, maxAttempts: Option<int>)
    returns (e: Ended<SubmitResult>, ghost bounds: PollBounds, ghost polls: nat)
    requires r.Valid() && !BegunAs(r.trace, input.key, true) && !BegunAs(r.trace, input.key, false)
    modifies r
    ensures r.Explains(e)
    ensures r.Valid() && Earlier(old(r.trace), r.trace)
    ensures r.Others(input.key) == old(r.Others(input.key))
    ensures bounds == PollBounds(match pollIntervalMs case Some(ms) => ms case None => 2000.0,
                                 match maxAttempts case Some(n) => n case None => 15,
                                 2.0, 30000.0)
    ensures e.Done? ==> TellsStored(r.store, input.key, e.value) && EndedFor(e.value)
    ensures polls <= (if bounds.maxAttempts > 1 then bounds.maxAttempts else 1)
    ensures !r.relayConfigured || (input.directPath && !input.escrowSend) ==> polls == 0
    ensures Reports(r.trace, input.key) <= Reports(old(r.trace), input.key) + polls
    ensures Waits(r.trace, input.key)
         == Waits(old(r.trace), input.key) + if polls == 0 then [] else Schedule(polls - 1, bounds)
  {
    bounds, polls := ResolvePollBounds(pollIntervalMs, maxAttempts, None, None), 0;
    e := SubmitFirst(r, input);
    if e.Done? && e.value.outcome == Phase.RelayAccepted {
      ghost var submitted := r.trace;
      e, polls := AwaitEnd(r, input.key, ResolvePollBounds(pollIntervalMs, maxAttempts, None, None));
      EarlierTransitive(old(r.trace), submitted, r.trace);
    }
  }
}
