/**
 The operation language over a state tree, its batches, and the in-memory adapter that runs a batch on a
 clone and swaps it in. Item schemas and the reading of a value as a big integer come from outside.
 */
module StateOperations {
  import opened Common
  import opened StateTree

  datatype RejectMatch =
    | FieldEquals(field: string, value: Value)
    | FieldIn(field: string, values: seq<Value>)
    | And(matches: seq<RejectMatch>)

  datatype Operation =
    | ArrayPush(path: Path, items: seq<Value>)
    | ArrayFilter(path: Path, schemaKey: string, rejectWhen: RejectMatch)
    | ArrayClean(path: Path)
    | RecordGet(path: Path, key: string)
    | RecordSet(path: Path, key: string, value: Value)
    | RecordDelete(path: Path, key: string)
    | RecordKeys(path: Path)
    | RecordValues(path: Path)
    | RecordEntries(path: Path)
    | PrimitiveGet(path: Path)
    | PrimitiveSet(path: Path, value: Value)
    | PrimitiveIncrement(path: Path, delta: int)
    | PrimitiveNull(path: Path)

  /** What an operation hands back. Keys, values and entries are all known from the record they list. */
  datatype Answer = NoAnswer | One(value: Value) | KeysOf(fields: Fields) | ValuesOf(fields: Fields) | EntriesOf(fields: Fields)

  datatype Mode = ReadMode | WriteMode

  /** Item schemas by key (a parsed item, or nothing), and `BigInt(String(value))` where it does not throw. */
  datatype Registry = Registry(schemas: map<string, Value -> Option<Fields>>, asBig: Value -> Option<int>)

  predicate IsReadOperation(op: Operation) {
    op.RecordGet? || op.RecordKeys? || op.RecordValues? || op.RecordEntries? || op.PrimitiveGet?
  }

  // ---------------------------------------------------------------- array filters

  /** `Object.is` on cloned data: two records or arrays are never the same object. */
  predicate SameObject(left: Value, right: Value) {
    left == right && !left.Items? && !left.Record?
  }

  predicate ValuesEqual(left: Value, right: Value, registry: Registry) {
    if left.Big? || right.Big? then
      registry.asBig(left).Some? && registry.asBig(left) == registry.asBig(right)
    else
      SameObject(left, right)
  }

  predicate ShouldReject(item: Fields, rejectWhen: RejectMatch, registry: Registry) {
    match rejectWhen
    case FieldEquals(field, value) => ValuesEqual(Prop(item, field), value, registry)
    case FieldIn(field, values) => exists i :: 0 <= i < |values| && ValuesEqual(Prop(item, field), values[i], registry)
    case And(matches) => forall i :: 0 <= i < |matches| ==> ShouldReject(item, matches[i], registry)
  }

  /** An item stays when it parses and its parsed form is not rejected. */
  predicate Stays(item: Value, schema: Value -> Option<Fields>, rejectWhen: RejectMatch, registry: Registry) {
    schema(item).Some? && !ShouldReject(schema(item).value, rejectWhen, registry)
  }

  function FilterItems(items: seq<Value>, schema: Value -> Option<Fields>, rejectWhen: RejectMatch, registry: Registry)
    : seq<Value>
  {
    if items == [] then []
    else FilterItems(items[..|items| - 1], schema, rejectWhen, registry)
         + if Stays(items[|items| - 1], schema, rejectWhen, registry) then [items[|items| - 1]] else []
  }

  /** Filtering keeps every occurrence of a staying item and none of any other. */
  lemma {:induction false} FilterKeepsExactlyTheStaying(
    items: seq<Value>, schema: Value -> Option<Fields>, rejectWhen: RejectMatch, registry: Registry, item: Value)
    ensures multiset(FilterItems(items, schema, rejectWhen, registry))[item]
         == if Stays(item, schema, rejectWhen, registry) then multiset(items)[item] else 0
  {
    if items != [] {
      FilterKeepsExactlyTheStaying(items[..|items| - 1], schema, rejectWhen, registry, item);
      assert items == items[..|items| - 1] + [items[|items| - 1]];
    }
  }

  /** Filtering goes item by item, so what stays keeps its order. */
  lemma {:induction false} FilterKeepsOrder(
    items: seq<Value>, more: seq<Value>, schema: Value -> Option<Fields>, rejectWhen: RejectMatch, registry: Registry)
    ensures FilterItems(items + more, schema, rejectWhen, registry)
         == FilterItems(items, schema, rejectWhen, registry) + FilterItems(more, schema, rejectWhen, registry)
    decreases |more|
  {
    if more == [] {
      assert items + more == items;
    } else {
      assert (items + more)[..|items + more| - 1] == items + more[..|more| - 1];
      FilterKeepsOrder(items, more[..|more| - 1], schema, rejectWhen, registry);
    }
  }

  /** Two field values are told the same: equal texts, numbers, truth values or nothings, and equal big integers. */
  ghost predicate Same(left: Value, right: Value, registry: Registry) {
    match (left, right)
    case (Undefined, Undefined) => true
    case (Null, Null) => true
    case (Text(a), Text(b)) => a == b
    case (Number(a), Number(b)) => a == b
    case (Bool(a), Bool(b)) => a == b
    case (Big(_), _) => exists n: int :: registry.asBig(left) == Some(n) && registry.asBig(right) == Some(n)
    case (_, Big(_)) => exists n: int :: registry.asBig(left) == Some(n) && registry.asBig(right) == Some(n)
    case _ => false
  }

  /** The item is to go: its field is the value, or one of the values, or every one of the matches says so. */
  ghost predicate Goes(item: Fields, rejectWhen: RejectMatch, registry: Registry) {
    match rejectWhen
    case FieldEquals(field, value) => Same(Prop(item, field), value, registry)
    case FieldIn(field, values) => exists value :: value in values && Same(Prop(item, field), value, registry)
    case And(matches) => forall m :: m in matches ==> Goes(item, m, registry)
  }

  lemma SameExactly(left: Value, right: Value, registry: Registry)
    ensures ValuesEqual(left, right, registry) <==> Same(left, right, registry)
  {
    if ValuesEqual(left, right, registry) && (left.Big? || right.Big?) {
      var n := registry.asBig(left).value;
      assert registry.asBig(left) == Some(n) && registry.asBig(right) == Some(n);
    }
  }

  lemma {:induction false} GoesExactly(item: Fields, rejectWhen: RejectMatch, registry: Registry)
    ensures ShouldReject(item, rejectWhen, registry) <==> Goes(item, rejectWhen, registry)
  {
    match rejectWhen
    case FieldEquals(field, value) => SameExactly(Prop(item, field), value, registry);
    case FieldIn(field, values) =>
      forall i | 0 <= i < |values|
        ensures ValuesEqual(Prop(item, field), values[i], registry) <==> Same(Prop(item, field), values[i], registry)
      {
        SameExactly(Prop(item, field), values[i], registry);
      }
    case And(matches) =>
      forall i | 0 <= i < |matches|
        ensures ShouldReject(item, matches[i], registry) <==> Goes(item, matches[i], registry)
      {
        GoesExactly(item, matches[i], registry);
      }
  }

  /** What a filter keeps, item by item from the front: what parses and is not to go. */
  ghost function Staying(items: seq<Value>, schema: Value -> Option<Fields>, rejectWhen: RejectMatch, registry: Registry)
    : seq<Value>
  {
    if items == [] then []
    else
      var rest := Staying(items[1..], schema, rejectWhen, registry);
      match schema(items[0])
      case Some(parsed) => if Goes(parsed, rejectWhen, registry) then rest else [items[0]] + rest
      case None => rest
  }

  /** The filter keeps exactly these. */
  lemma {:induction false} FilterKeepsTheStaying(
    items: seq<Value>, schema: Value -> Option<Fields>, rejectWhen: RejectMatch, registry: Registry)
    ensures FilterItems(items, schema, rejectWhen, registry) == Staying(items, schema, rejectWhen, registry)
    decreases |items|
  {
    if items != [] {
      var first, rest := items[0], items[1..];
      FilterKeepsTheStaying(rest, schema, rejectWhen, registry);
      assert items == [first] + rest;
      FilterKeepsOrder([first], rest, schema, rejectWhen, registry);
      assert [first][..0] == [];
      if schema(first).Some? {
        GoesExactly(schema(first).value, rejectWhen, registry);
      }
    }
  }

  // ---------------------------------------------------------------- what an operation means

  function ToNumberValue(current: Value): int {
    match current
    case Number(n) => n
    case Big(n) => n
    case _ => 0
  }

  /** The array an array operation works on: the one at its path, or a new one. */
  function ArrayAt(current: Value, createMissing: bool): Option<seq<Value>> {
    match current
    case Items(items) => Some(items)
    case Undefined => if createMissing then Some([]) else None
    case _ => None
  }

  function RecordAt(current: Value, createMissing: bool): Option<Fields> {
    match current
    case Record(fields) => Some(fields)
    case Undefined => if createMissing then Some(map[]) else None
    case _ => None
  }

  /** The value an operation leaves at its path and its answer, given the value found there. */
  function Result(current: Value, op: Operation, createMissing: bool, registry: Registry): Option<(Value, Answer)> {
    var items := ArrayAt(current, createMissing);
    var record := RecordAt(current, createMissing);
    match op
    case ArrayPush(_, more) => if items.None? then None else Some((Items(items.value + more), NoAnswer))
    case ArrayFilter(_, schemaKey, rejectWhen) =>
      if items.None? || schemaKey !in registry.schemas then None
      else Some((Items(FilterItems(items.value, registry.schemas[schemaKey], rejectWhen, registry)), NoAnswer))
    case ArrayClean(_) => Some((Items([]), NoAnswer))
    case RecordGet(_, key) =>
      if record.None? then None else Some((Record(record.value), One(Prop(record.value, key))))
    case RecordSet(_, key, value) => if record.None? then None else Some((Record(record.value[key := value]), NoAnswer))
    case RecordDelete(_, key) => if record.None? then None else Some((Record(record.value - {key}), NoAnswer))
    case RecordKeys(_) => if record.None? then None else Some((Record(record.value), KeysOf(record.value)))
    case RecordValues(_) => if record.None? then None else Some((Record(record.value), ValuesOf(record.value)))
    case RecordEntries(_) => if record.None? then None else Some((Record(record.value), EntriesOf(record.value)))
    case PrimitiveGet(_) => Some((current, One(current)))
    case PrimitiveSet(_, value) => Some((value, NoAnswer))
    case PrimitiveIncrement(_, delta) =>
      var next := Number(ToNumberValue(current) + delta);
      Some((next, One(next)))
    case PrimitiveNull(_) => Some((Undefined, NoAnswer))
  }

  /** The tree and answer after one operation, or nothing if it throws. */
  function Outcome(before: Fields, op: Operation, createMissing: bool, registry: Registry): Option<(Fields, Answer)> {
    if op.PrimitiveGet? then Some((before, One(Get(before, op.path))))
    else
      var current := if op.PrimitiveIncrement? then Get(before, op.path) else Get(before, Address(op.path));
      match Result(current, op, createMissing, registry)
      case None => None
      case Some((value, answer)) =>
        match SetAt(before, op.path, value, createMissing)
        case None => None
        case Some(after) => Some((after, answer))
  }

  /** The tree and last answer after a whole batch, or nothing if some operation throws. */
  function RunAll(before: Fields, ops: seq<Operation>, createMissing: bool, registry: Registry): Option<(Fields, Answer)> {
    if ops == [] then Some((before, NoAnswer))
    else match RunAll(before, ops[..|ops| - 1], createMissing, registry)
         case None => None
         case Some((middle, _)) => Outcome(middle, ops[|ops| - 1], createMissing, registry)
  }

  /** A read operation that succeeds without creation leaves the tree alone. */
  lemma ReadsChangeNothing(before: Fields, op: Operation, registry: Registry)
    requires IsReadOperation(op) && Outcome(before, op, false, registry).Some?
    ensures Outcome(before, op, false, registry).value.0 == before
  {
    if !op.PrimitiveGet? {
      ResolveWithoutCreation(before, Address(op.path));
      ResolveHasParent(before, Address(op.path), false);
      PutSameRecord(before, Address(op.path));
    }
  }

  /** A filter with an unregistered schema key whose array is missing and can be created. */
  predicate CreatesBeforeThrowing(before: Fields, op: Operation, createMissing: bool, registry: Registry) {
    && createMissing && op.ArrayFilter? && op.schemaKey !in registry.schemas
    && Get(before, Address(op.path)) == Undefined
    && Resolve(before, Address(op.path), true).Some?
  }

  /** The tree a throwing operation leaves behind. */
  function LeftBehind(before: Fields, op: Operation, createMissing: bool, registry: Registry): Fields {
    if CreatesBeforeThrowing(before, op, createMissing, registry) then SetAt(before, op.path, Items([]), true).value
    else before
  }

  /** A throwing operation leaves another tree behind exactly in that one case, and then with an empty array at its path. */
  lemma ThrowingLeavesATraceExactly(before: Fields, op: Operation, createMissing: bool, registry: Registry)
    requires Outcome(before, op, createMissing, registry).None?
    ensures LeftBehind(before, op, createMissing, registry) != before
       <==> CreatesBeforeThrowing(before, op, createMissing, registry)
    ensures CreatesBeforeThrowing(before, op, createMissing, registry) ==>
              Get(LeftBehind(before, op, createMissing, registry), Address(op.path)) == Items([])
  {
    if CreatesBeforeThrowing(before, op, createMissing, registry) {
      var path := Address(op.path);
      ResolveHasParent(before, path, true);
      PutThenGet(Resolve(before, path, true).value, path, Items([]));
    }
  }

  /** Such an operation does throw: in an empty tree every path can be created. */
  lemma UnknownSchemaLeavesAnArray(path: Path, schemaKey: string, rejectWhen: RejectMatch, registry: Registry)
    requires path != [] && schemaKey !in registry.schemas
    ensures var op := ArrayFilter(path, schemaKey, rejectWhen);
            && Outcome(map[], op, true, registry).None?
            && CreatesBeforeThrowing(map[], op, true, registry)
            && Get(LeftBehind(map[], op, true, registry), path) == Items([])
  {
    CreatedPathIsUndefined(path);
    ThrowingLeavesATraceExactly(map[], ArrayFilter(path, schemaKey, rejectWhen), true, registry);
  }

  // ---------------------------------------------------------------- what can be read of an operation

  /** The array, or the record, that is read at a path; empty when there is none. */
  ghost function ItemsRead(fields: Fields, path: Path): seq<Value> {
    match Get(fields, path) case Items(items) => items case _ => []
  }

  ghost function RecordRead(fields: Fields, path: Path): Fields {
    match Get(fields, path) case Record(inner) => inner case _ => map[]
  }

  /** After a step the record at the path is the one before, but for this key. */
  ghost predicate OnlyKeyChanged(before: Fields, after: Fields, path: Path, key: string) {
    && Get(after, path).Record?
    && (forall other :: other != key ==>
          && (other in RecordRead(after, path) <==> other in RecordRead(before, path))
          && Get(after, path + [other]) == Get(before, path + [other]))
  }

  /**
   What a successful operation does, told by reading the trees before and after: what its path reads, what it answers,
   and that every path that is neither an initial part nor an extension of it reads as before.
   */
  ghost predicate Does(before: Fields, op: Operation, after: Fields, answer: Answer, registry: Registry) {
    var path := Written(op.path);
    && (forall other :: Apart(path, other) ==> Get(after, other) == Get(before, other))
    && match op
       case ArrayPush(_, more) => answer == NoAnswer && Get(after, path) == Items(ItemsRead(before, path) + more)
       case ArrayFilter(_, schemaKey, rejectWhen) =>
         && answer == NoAnswer && schemaKey in registry.schemas
         && Get(after, path) == Items(Staying(ItemsRead(before, path), registry.schemas[schemaKey], rejectWhen, registry))
       case ArrayClean(_) => answer == NoAnswer && Get(after, path) == Items([])
       case RecordGet(_, key) =>
         && Get(after, path) == Record(RecordRead(before, path))
         && answer == One(Get(before, path + [key]))
       case RecordSet(_, key, value) =>
         && answer == NoAnswer && OnlyKeyChanged(before, after, path, key)
         && key in RecordRead(after, path) && Get(after, path + [key]) == value
       case RecordDelete(_, key) =>
         && answer == NoAnswer && OnlyKeyChanged(before, after, path, key)
         && key !in RecordRead(after, path) && Get(after, path + [key]) == Undefined
       case RecordKeys(_) =>
         Get(after, path) == Record(RecordRead(before, path)) && answer == KeysOf(RecordRead(before, path))
       case RecordValues(_) =>
         Get(after, path) == Record(RecordRead(before, path)) && answer == ValuesOf(RecordRead(before, path))
       case RecordEntries(_) =>
         Get(after, path) == Record(RecordRead(before, path)) && answer == EntriesOf(RecordRead(before, path))
       case PrimitiveGet(from) => after == before && answer == One(Get(before, from))
       case PrimitiveSet(_, value) => answer == NoAnswer && Get(after, path) == value
       case PrimitiveIncrement(from, delta) =>
         var next := match Get(before, from)
                     case Number(n) => n + delta
                     case Big(n) => n + delta
                     case _ => delta;
         answer == One(Number(next)) && Get(after, path) == Number(next)
       case PrimitiveNull(_) => answer == NoAnswer && Get(after, path) == Undefined
  }

  /** What a read operation answers of a tree, which it leaves as it is. */
  ghost predicate ReadsAs(fields: Fields, op: Operation, answer: Answer, registry: Registry) {
    Does(fields, op, fields, answer, registry)
  }

  /**
   When an operation fails: its path cannot be reached, or something else is where it needs an array or a record, or it
   filters by a schema nobody registered. Getting a primitive never fails.
   */
  ghost predicate Fails(before: Fields, op: Operation, createMissing: bool, registry: Registry) {
    var path := Written(op.path);
    var missing := createMissing && Get(before, path) == Undefined;
    && !op.PrimitiveGet?
    && (|| (if createMissing then Blocked(before, path) else !HasParent(before, path))
        || ((op.ArrayPush? || op.ArrayFilter?) && !Get(before, path).Items? && !missing)
        || (op.ArrayFilter? && op.schemaKey !in registry.schemas)
        || ((op.RecordGet? || op.RecordSet? || op.RecordDelete? || op.RecordKeys? || op.RecordValues? || op.RecordEntries?)
            && !Get(before, path).Record? && !missing))
  }

  lemma ResolvesExactly(before: Fields, path: Path, createMissing: bool)
    requires path != []
    ensures Resolve(before, path, createMissing).None? <==>
              if createMissing then Blocked(before, path) else !HasParent(before, path)
  {
    if createMissing {
      SetFailsExactlyWhenBlocked(before, path);
    } else if HasParent(before, path) {
      ResolveWhenPresent(before, path, false);
    } else if Resolve(before, path, false).Some? {
      ResolveHasParent(before, path, false);
      ResolveWithoutCreation(before, path);
    }
  }

  /** An operation fails exactly then. */
  lemma OutcomeFailsExactly(before: Fields, op: Operation, createMissing: bool, registry: Registry)
    ensures Outcome(before, op, createMissing, registry).None? <==> Fails(before, op, createMissing, registry)
  {
    ResolvesExactly(before, Address(op.path), createMissing);
  }

  /** The value a successful operation leaves is read at its path, and nothing apart from it has changed. */
  lemma OutcomeIsReadBack(before: Fields, op: Operation, createMissing: bool, registry: Registry)
    requires Outcome(before, op, createMissing, registry).Some? && !op.PrimitiveGet?
    ensures var path := Address(op.path);
            var after := Outcome(before, op, createMissing, registry).value.0;
            var current := if op.PrimitiveIncrement? then Get(before, op.path) else Get(before, path);
            && Get(after, path) == Result(current, op, createMissing, registry).value.0
            && (forall other :: Apart(path, other) ==> Get(after, other) == Get(before, other))
  {
    var current := if op.PrimitiveIncrement? then Get(before, op.path) else Get(before, Address(op.path));
    var value := Result(current, op, createMissing, registry).value.0;
    SetAddressed(before, op.path, value, createMissing);
    SetIsReadBackAndLocal(before, Address(op.path), value, createMissing);
  }

  lemma KeyedRead(fields: Fields, path: Path)
    ensures forall key :: Get(fields, path + [key]) == Prop(RecordRead(fields, path), key)
  {
    forall key
      ensures Get(fields, path + [key]) == Prop(RecordRead(fields, path), key)
    {
      GetOneMore(fields, path, key);
    }
  }

  lemma ArrayDoes(before: Fields, op: Operation, createMissing: bool, registry: Registry)
    requires Outcome(before, op, createMissing, registry).Some? && (op.ArrayPush? || op.ArrayFilter? || op.ArrayClean?)
    ensures var (after, answer) := Outcome(before, op, createMissing, registry).value;
            Does(before, op, after, answer, registry)
  {
    OutcomeIsReadBack(before, op, createMissing, registry);
    if op.ArrayFilter? {
      var items := ItemsRead(before, Address(op.path));
      FilterKeepsTheStaying(items, registry.schemas[op.schemaKey], op.rejectWhen, registry);
    }
  }

  lemma RecordReadDoes(before: Fields, op: Operation, createMissing: bool, registry: Registry)
    requires Outcome(before, op, createMissing, registry).Some?
    requires op.RecordGet? || op.RecordKeys? || op.RecordValues? || op.RecordEntries?
    ensures var (after, answer) := Outcome(before, op, createMissing, registry).value;
            Does(before, op, after, answer, registry)
  {
    OutcomeIsReadBack(before, op, createMissing, registry);
    KeyedRead(before, Address(op.path));
  }

  lemma RecordWriteDoes(before: Fields, op: Operation, createMissing: bool, registry: Registry)
    requires Outcome(before, op, createMissing, registry).Some? && (op.RecordSet? || op.RecordDelete?)
    ensures var (after, answer) := Outcome(before, op, createMissing, registry).value;
            Does(before, op, after, answer, registry)
  {
    OutcomeIsReadBack(before, op, createMissing, registry);
    KeyedRead(before, Address(op.path));
    KeyedRead(Outcome(before, op, createMissing, registry).value.0, Address(op.path));
  }

  /** A successful operation does this. */
  lemma OutcomeDoes(before: Fields, op: Operation, createMissing: bool, registry: Registry)
    requires Outcome(before, op, createMissing, registry).Some?
    ensures var (after, answer) := Outcome(before, op, createMissing, registry).value;
            Does(before, op, after, answer, registry)
  {
    if op.ArrayPush? || op.ArrayFilter? || op.ArrayClean? {
      ArrayDoes(before, op, createMissing, registry);
    } else if op.PrimitiveGet? || op.PrimitiveSet? || op.PrimitiveIncrement? || op.PrimitiveNull? {
      if !op.PrimitiveGet? {
        OutcomeIsReadBack(before, op, createMissing, registry);
      }
    } else if op.RecordSet? || op.RecordDelete? {
      RecordWriteDoes(before, op, createMissing, registry);
    } else {
      RecordReadDoes(before, op, createMissing, registry);
    }
  }

  // ---------------------------------------------------------------- whole batches

  /** A path that is neither prefix nor extension of any addressed path reads as before after the whole batch. */
  lemma {:induction false} BatchIsLocal(
    before: Fields, ops: seq<Operation>, createMissing: bool, registry: Registry, other: Path)
    requires RunAll(before, ops, createMissing, registry).Some?
    requires forall i :: 0 <= i < |ops| ==> Apart(Address(ops[i].path), other)
    ensures Get(RunAll(before, ops, createMissing, registry).value.0, other) == Get(before, other)
    decreases |ops|
  {
    if ops != [] {
      var init, op := ops[..|ops| - 1], ops[|ops| - 1];
      BatchIsLocal(before, init, createMissing, registry, other);
      var middle := RunAll(before, init, createMissing, registry).value.0;
      OperationIsLocal(middle, op, createMissing, registry, other);
    }
  }

  lemma OperationIsLocal(before: Fields, op: Operation, createMissing: bool, registry: Registry, other: Path)
    requires Outcome(before, op, createMissing, registry).Some? && Apart(Address(op.path), other)
    ensures Get(Outcome(before, op, createMissing, registry).value.0, other) == Get(before, other)
  {
    if !op.PrimitiveGet? {
      var current := if op.PrimitiveIncrement? then Get(before, op.path) else Get(before, Address(op.path));
      SetAddressed(before, op.path, Result(current, op, createMissing, registry).value.0, createMissing);
      SetIsReadBackAndLocal(before, Address(op.path), Result(current, op, createMissing, registry).value.0, createMissing);
    }
  }

  lemma SetAddressed(before: Fields, path: Path, value: Value, createMissing: bool)
    ensures SetAt(before, path, value, createMissing) == SetAt(before, Address(path), value, createMissing)
  {
  }

  // ---------------------------------------------------------------- one live tree

  class LiveTree {
    var root: Fields

    constructor (root: Fields)
      ensures this.root == root
    {
      this.root := root;
    }

    /** Walk to the parent of `path`, creating missing records when asked. A failing walk changes nothing. */
    method ResolveJsonPathParent(path: Path, createMissing: bool) returns (ok: bool)
      requires path != []
      modifies this
      ensures ok ==> Resolve(old(root), path, createMissing) == Some(root)
      ensures ok ==> HasParent(root, path) && Get(root, path) == old(Get(root, path))
      ensures !ok ==> Resolve(old(root), path, createMissing).None? && root == old(root)
      ensures !createMissing ==> root == old(root)
    {
      var current := root;
      for i := 0 to |path| - 1
        invariant Get(root, path[..i]) == Record(current)
        invariant Resolve(root, path, createMissing) == Resolve(old(root), path, createMissing)
        invariant root == old(root) || (createMissing && current == map[])
      {
        assert path[..i + 1] == path[..i] + [path[i]];
        GetOneMore(root, path[..i], path[i]);
        match Prop(current, path[i])
        case Undefined =>
          if !createMissing {
            StoppedHere(root, path, i, createMissing);
            return false;
          }
          CreateFirstMissing(root, path, i);
          PutThenGet(root, path[..i + 1], Record(map[]));
          root := Put(root, path[..i + 1], Record(map[]));
          current := map[];
        case Record(inner) =>
          current := inner;
        case _ =>
          StoppedHere(root, path, i, createMissing);
          return false;
      }
      var n := |path| - 1;
      assert path == path[..n] + [path[n]];
      GetOneMore(root, path[..n], path[n]);
      ResolveWhenPresent(root, path, createMissing);
      ResolveHasParent(old(root), path, createMissing);
      if !createMissing {
        ResolveWithoutCreation(old(root), path);
      }
      return true;
    }

    method SetJsonPathValue(path: Path, value: Value, createMissing: bool) returns (ok: bool)
      modifies this
      ensures ok ==> SetAt(old(root), path, value, createMissing) == Some(root)
      ensures !ok ==> SetAt(old(root), path, value, createMissing).None? && root == old(root)
    {
      ok := ResolveJsonPathParent(Address(path), createMissing);
      if ok {
        root := Put(root, Address(path), value);
      }
    }

    /** The array at `path`, put there first if it was missing and may be created. */
    method EnsureArrayAtPath(path: Path, createMissing: bool) returns (items: Option<seq<Value>>)
      requires path != []
      modifies this
      ensures items.Some? ==>
                && ArrayAt(old(Get(root, path)), createMissing) == items
                && HasParent(root, path) && Get(root, path) == Items(items.value)
                && (forall value :: Some(Put(root, path, value)) == SetAt(old(root), path, value, createMissing))
      ensures items.None? ==>
                && root == old(root)
                && (ArrayAt(Get(root, path), createMissing).None? || Resolve(root, path, createMissing).None?)
      ensures items.Some? && old(Get(root, path)) != Undefined ==> root == old(root)
      ensures items.Some? && old(Get(root, path)) == Undefined ==>
                Some(root) == SetAt(old(root), path, Items([]), createMissing)
    {
      var ok := ResolveJsonPathParent(path, createMissing);
      if !ok {
        return None;
      }
      if old(Get(root, path)) != Undefined {
        CreatedMeansUndefined(old(root), path, createMissing);
      }
      match Get(root, path)
      case Undefined =>
        if !createMissing {
          return None;
        }
        PutThenGet(root, path, Items([]));
        PutTwice(root, path, Items([]));
        root := Put(root, path, Items([]));
        return Some([]);
      case Items(found) => return Some(found);
      case _ => return None;
    }

    method EnsureRecordAtPath(path: Path, createMissing: bool) returns (record: Option<Fields>)
      requires path != []
      modifies this
      ensures record.Some? ==>
                && RecordAt(old(Get(root, path)), createMissing) == record
                && HasParent(root, path) && Get(root, path) == Record(record.value)
                && (forall value :: Some(Put(root, path, value)) == SetAt(old(root), path, value, createMissing))
      ensures record.None? ==>
                && root == old(root)
                && (RecordAt(Get(root, path), createMissing).None? || Resolve(root, path, createMissing).None?)
    {
      var ok := ResolveJsonPathParent(path, createMissing);
      if !ok {
        return None;
      }
      if old(Get(root, path)) != Undefined {
        CreatedMeansUndefined(old(root), path, createMissing);
      }
      match Get(root, path)
      case Undefined =>
        if !createMissing {
          return None;
        }
        PutThenGet(root, path, Record(map[]));
        PutTwice(root, path, Record(map[]));
        root := Put(root, path, Record(map[]));
        return Some(map[]);
      case Record(found) => return Some(found);
      case _ => return None;
    }

    method ApplyArrayOperation(op: Operation, createMissing: bool, registry: Registry) returns (e: Ended<Answer>)
      requires op.ArrayPush? || op.ArrayFilter? || op.ArrayClean?
      modifies this
      ensures e.Done? ==> Outcome(old(root), op, createMissing, registry) == Some((root, e.value))
      ensures e.Done? ==> Does(old(root), op, root, e.value, registry)
      ensures e.Done? <==> !Fails(old(root), op, createMissing, registry)
      ensures !e.Done? ==>
                && Outcome(old(root), op, createMissing, registry).None?
                && root == LeftBehind(old(root), op, createMissing, registry)
    {
      OutcomeFailsExactly(root, op, createMissing, registry);
      if Outcome(root, op, createMissing, registry).Some? {
        OutcomeDoes(root, op, createMissing, registry);
      }
      var path := Address(op.path);
      if op.ArrayClean? {
        var cleaned := SetJsonPathValue(op.path, Items([]), createMissing);
        return if cleaned then Done(NoAnswer) else Threw;
      }
      var items := EnsureArrayAtPath(path, createMissing);
      if items.None? {
        return Threw;
      }
      if op.ArrayPush? {
        root := Put(root, path, Items(items.value + op.items));
        return Done(NoAnswer);
      }
      if op.schemaKey !in registry.schemas {
        return Threw;
      }
      var filtered := FilterItems(items.value, registry.schemas[op.schemaKey], op.rejectWhen, registry);
      ResolveWhenPresent(root, path, createMissing);
      var ok := SetJsonPathValue(op.path, Items(filtered), createMissing);
      return Done(NoAnswer);
    }

    method ApplyRecordOperation(op: Operation, createMissing: bool, registry: Registry) returns (e: Ended<Answer>)
      requires op.RecordGet? || op.RecordSet? || op.RecordDelete? || op.RecordKeys? || op.RecordValues? || op.RecordEntries?
      modifies this
      ensures e.Done? ==> Outcome(old(root), op, createMissing, registry) == Some((root, e.value))
      ensures e.Done? ==> Does(old(root), op, root, e.value, registry)
      ensures e.Done? <==> !Fails(old(root), op, createMissing, registry)
      ensures !e.Done? ==> Outcome(old(root), op, createMissing, registry).None? && root == old(root)
    {
      OutcomeFailsExactly(root, op, createMissing, registry);
      if Outcome(root, op, createMissing, registry).Some? {
        OutcomeDoes(root, op, createMissing, registry);
      }
      var path := Address(op.path);
      var record := EnsureRecordAtPath(path, createMissing);
      if record.None? {
        return Threw;
      }
      PutSameRecord(root, path);
      match op
      case RecordGet(_, key) => return Done(One(Prop(record.value, key)));
      case RecordSet(_, key, value) =>
        root := Put(root, path, Record(record.value[key := value]));
        return Done(NoAnswer);
      case RecordDelete(_, key) =>
        root := Put(root, path, Record(record.value - {key}));
        return Done(NoAnswer);
      case RecordKeys(_) => return Done(KeysOf(record.value));
      case RecordValues(_) => return Done(ValuesOf(record.value));
      case RecordEntries(_) => return Done(EntriesOf(record.value));
    }

    method ApplyPrimitiveOperation(op: Operation, createMissing: bool, registry: Registry) returns (e: Ended<Answer>)
      requires op.PrimitiveGet? || op.PrimitiveSet? || op.PrimitiveIncrement? || op.PrimitiveNull?
      modifies this
      ensures e.Done? ==> Outcome(old(root), op, createMissing, registry) == Some((root, e.value))
      ensures e.Done? ==> Does(old(root), op, root, e.value, registry)
      ensures e.Done? <==> !Fails(old(root), op, createMissing, registry)
      ensures !e.Done? ==> Outcome(old(root), op, createMissing, registry).None? && root == old(root)
    {
      OutcomeFailsExactly(root, op, createMissing, registry);
      if Outcome(root, op, createMissing, registry).Some? {
        OutcomeDoes(root, op, createMissing, registry);
      }
      var ok;
      match op
      case PrimitiveGet(path) =>
        return Done(One(Get(root, path)));
      case PrimitiveSet(path, value) =>
        ok := SetJsonPathValue(path, value, createMissing);
        return if ok then Done(NoAnswer) else Threw;
      case PrimitiveIncrement(path, delta) =>
        var next := Number(ToNumberValue(Get(root, path)) + delta);
        ok := SetJsonPathValue(path, next, createMissing);
        return if ok then Done(One(next)) else Threw;
      case PrimitiveNull(path) =>
        ok := SetJsonPathValue(path, Undefined, createMissing);
        return if ok then Done(NoAnswer) else Threw;
    }

    /** An operation that throws changes nothing, but for a filter that created its array before its schema was looked up. */
    method ApplyStateOperation(op: Operation, mode: Mode, registry: Registry) returns (e: Ended<Answer>)
      modifies this
      ensures mode.ReadMode? ==> root == old(root) && (e.Done? ==> IsReadOperation(op))
      ensures e.Done? ==> Outcome(old(root), op, mode.WriteMode?, registry) == Some((root, e.value))
      ensures !e.Done? ==>
                && (Outcome(old(root), op, mode.WriteMode?, registry).None? || (mode.ReadMode? && !IsReadOperation(op)))
                && root == LeftBehind(old(root), op, mode.WriteMode?, registry)
    {
      if mode.ReadMode? && !IsReadOperation(op) {
        return Threw;
      }
      if op.ArrayPush? || op.ArrayFilter? || op.ArrayClean? {
        e := ApplyArrayOperation(op, mode.WriteMode?, registry);
      } else if op.PrimitiveGet? || op.PrimitiveSet? || op.PrimitiveIncrement? || op.PrimitiveNull? {
        e := ApplyPrimitiveOperation(op, mode.WriteMode?, registry);
      } else {
        e := ApplyRecordOperation(op, mode.WriteMode?, registry);
      }
      if mode.ReadMode? && e.Done? {
        ReadsChangeNothing(old(root), op, registry);
      }
    }

    /** A batch runs its operations in order; a read batch must consist of reads and never changes the tree. */
    method ApplyStateOperations(ops: seq<Operation>, mode: Mode, registry: Registry) returns (e: Ended<Answer>)
      modifies this
      ensures mode.ReadMode? ==> root == old(root)
      ensures e.Done? ==>
                var all := RunAll(old(root), ops, mode.WriteMode?, registry);
                all.Some? && all.value.0 == root && (mode.ReadMode? ==> e.value == all.value.1)
      ensures mode.ReadMode? ==>
                (e.Done? <==> && ops != [] && RunAll(old(root), ops, false, registry).Some?
                              && forall i :: 0 <= i < |ops| ==> IsReadOperation(ops[i]))
      ensures mode.WriteMode? ==> (e.Done? <==> RunAll(old(root), ops, true, registry).Some?)
      ensures !e.Done? ==> e.Threw?
    {
      var readResult := NoAnswer;
      for i := 0 to |ops|
        invariant RunAll(old(root), ops[..i], mode.WriteMode?, registry) == Some((root, readResult))
        invariant mode.ReadMode? ==> root == old(root) && forall j :: 0 <= j < i ==> IsReadOperation(ops[j])
      {
        assert ops[..i + 1][..i] == ops[..i];
        var result := ApplyStateOperation(ops[i], mode, registry);
        if !result.Done? {
          FailureLasts(old(root), ops, i + 1, mode.WriteMode?, registry);
          return Threw;
        }
        readResult := result.value;
      }
      assert ops[..|ops|] == ops;
      if mode.ReadMode? {
        if ops == [] {
          return Threw;
        }
        return Done(readResult);
      }
      return Done(NoAnswer);
    }
  }

  /** Trees that follow one another from `before`, each by one of the operations in turn. */
  ghost predicate Steps(before: Fields, ops: seq<Operation>, states: seq<Fields>, registry: Registry) {
    && 1 <= |states| <= |ops| + 1 && states[0] == before
    && forall i :: 0 <= i < |states| - 1 ==> DoesSomehow(states[i], ops[i], states[i + 1], registry)
  }

  ghost predicate DoesSomehow(before: Fields, op: Operation, after: Fields, registry: Registry) {
    exists answer :: Does(before, op, after, answer, registry)
  }

  lemma StepTaken(
    before: Fields, ops: seq<Operation>, states: seq<Fields>, registry: Registry, after: Fields, answer: Answer)
    requires Steps(before, ops, states, registry) && |states| <= |ops|
    requires Does(states[|states| - 1], ops[|states| - 1], after, answer, registry)
    ensures Steps(before, ops, states + [after], registry)
  {
    var all := states + [after];
    forall i | 0 <= i < |all| - 1
      ensures DoesSomehow(all[i], ops[i], all[i + 1], registry)
    {
      if i < |states| - 1 {
        assert DoesSomehow(states[i], ops[i], states[i + 1], registry);
      }
    }
  }

  lemma StepsOfMore(before: Fields, ops: seq<Operation>, more: seq<Operation>, states: seq<Fields>, registry: Registry)
    requires ops <= more && Steps(before, ops, states, registry)
    ensures Steps(before, more, states, registry)
  {
    forall i | 0 <= i < |states| - 1
      ensures DoesSomehow(states[i], more[i], states[i + 1], registry)
    {
      assert DoesSomehow(states[i], ops[i], states[i + 1], registry);
    }
  }

  /** All operations were done, and the last tree is `after`; or one of them failed on the last tree. */
  ghost predicate EndsWell(ops: seq<Operation>, states: seq<Fields>, after: Option<Fields>, registry: Registry)
    requires states != []
  {
    var n := |states| - 1;
    match after
    case Some(last) => n == |ops| && states[n] == last
    case None => n < |ops| && Fails(states[n], ops[n], true, registry)
  }

  ghost function TreeOf(all: Option<(Fields, Answer)>): Option<Fields> {
    match all case Some((fields, _)) => Some(fields) case None => None
  }

  /**
   A write batch goes through its operations in order, each doing what it does to the tree the one before left. It
   succeeds exactly when none of them fails.
   */
  lemma {:induction false} BatchGoesInSteps(before: Fields, ops: seq<Operation>, registry: Registry) returns (states: seq<Fields>)
    ensures Steps(before, ops, states, registry)
    ensures EndsWell(ops, states, TreeOf(RunAll(before, ops, true, registry)), registry)
    decreases |ops|
  {
    if ops == [] {
      states := [before];
    } else {
      var init, op := ops[..|ops| - 1], ops[|ops| - 1];
      states := BatchGoesInSteps(before, init, registry);
      StepsOfMore(before, init, ops, states, registry);
      var middle := RunAll(before, init, true, registry);
      if middle.Some? {
        var outcome := Outcome(middle.value.0, op, true, registry);
        OutcomeFailsExactly(middle.value.0, op, true, registry);
        if outcome.Some? {
          OutcomeDoes(middle.value.0, op, true, registry);
          StepTaken(before, ops, states, registry, outcome.value.0, outcome.value.1);
          states := states + [outcome.value.0];
        }
      }
    }
  }

  /** A batch of reads succeeds exactly when none of them fails, on the one tree, and answers the last of them. */
  lemma {:induction false} ReadsGoTogether(before: Fields, ops: seq<Operation>, registry: Registry)
    requires forall i :: 0 <= i < |ops| ==> IsReadOperation(ops[i])
    ensures RunAll(before, ops, false, registry).Some? <==> forall i :: 0 <= i < |ops| ==> !Fails(before, ops[i], false, registry)
    ensures RunAll(before, ops, false, registry).Some? ==> RunAll(before, ops, false, registry).value.0 == before
    ensures RunAll(before, ops, false, registry).Some? && ops != [] ==>
              ReadsAs(before, ops[|ops| - 1], RunAll(before, ops, false, registry).value.1, registry)
    decreases |ops|
  {
    if ops != [] {
      var init, op := ops[..|ops| - 1], ops[|ops| - 1];
      ReadsGoTogether(before, init, registry);
      OutcomeFailsExactly(before, op, false, registry);
      if Outcome(before, op, false, registry).Some? {
        ReadsChangeNothing(before, op, registry);
        OutcomeDoes(before, op, false, registry);
      }
      assert forall i :: 0 <= i < |init| ==> init[i] == ops[i];
    }
  }

  lemma {:induction false} FailureLasts(before: Fields, ops: seq<Operation>, n: nat, createMissing: bool, registry: Registry)
    requires n <= |ops|
    ensures RunAll(before, ops[..n], createMissing, registry).None? ==> RunAll(before, ops, createMissing, registry).None?
    decreases |ops|
  {
    if n < |ops| {
      assert ops[..|ops| - 1][..n] == ops[..n];
      FailureLasts(before, ops[..|ops| - 1], n, createMissing, registry);
    } else {
      assert ops[..n] == ops;
    }
  }

  // ---------------------------------------------------------------- the in-memory adapter

  /** Calls work on a clone; a write call swaps the clone in only when its whole batch succeeded. */
  class InMemoryStateAdapter {
    var stateTree: Fields
    var registeredTypes: set<string>
    const registry: Registry

    constructor (initialState: Fields, registry: Registry)
      ensures stateTree == initialState && registeredTypes == {} && this.registry == registry
    {
      stateTree := initialState;
      registeredTypes := {};
      this.registry := registry;
    }

    method RegisterDefinition(callType: string)
      modifies `registeredTypes
      ensures registeredTypes == old(registeredTypes) + {callType}
    {
      registeredTypes := registeredTypes + {callType};
    }

    /**
     A write of a registered type takes over the last tree when every operation of its batch could be done in turn. An
     operation that fails, and an unregistered type, leave the state as it was.
     */
    method Write(callType: string, ops: seq<Operation>) returns (ok: bool, ghost states: seq<Fields>)
      modifies `stateTree
      ensures ok <==> callType in registeredTypes && RunAll(old(stateTree), ops, true, registry).Some?
      ensures ok ==> RunAll(old(stateTree), ops, true, registry).value.0 == stateTree
      ensures Steps(old(stateTree), ops, states, registry)
      ensures callType in registeredTypes ==>
                EndsWell(ops, states, if ok then Some(stateTree) else None, registry)
      ensures !ok ==> stateTree == old(stateTree)
    {
      states := BatchGoesInSteps(stateTree, ops, registry);
      if callType !in registeredTypes {
        return false, states;
      }
      var draft := new LiveTree(stateTree);
      var applied := draft.ApplyStateOperations(ops, WriteMode, registry);
      if !applied.Done? {
        return false, states;
      }
      stateTree := draft.root;
      return true, states;
    }

    /** What a read call may ask: any primitive, and records where there are some. */
    ghost predicate MayRead(op: Operation)
      reads this
    {
      match op
      case PrimitiveGet(_) => true
      case RecordGet(path, _) => Get(stateTree, Written(path)).Record?
      case RecordKeys(path) => Get(stateTree, Written(path)).Record?
      case RecordValues(path) => Get(stateTree, Written(path)).Record?
      case RecordEntries(path) => Get(stateTree, Written(path)).Record?
      case _ => false
    }

    lemma MayReadExactly(op: Operation)
      ensures MayRead(op) <==> IsReadOperation(op) && !Fails(stateTree, op, false, registry)
    {
      if Get(stateTree, Address(op.path)).Record? {
        PresentHasParent(stateTree, Address(op.path));
      }
    }

    /** A read call answers its last operation, if it has one and all of them can be read. */
    method Read(callType: string, ops: seq<Operation>) returns (e: Ended<Answer>)
      ensures e.Done? <==> callType in registeredTypes && ops != [] && forall i :: 0 <= i < |ops| ==> MayRead(ops[i])
      ensures e.Done? ==>
                && callType in registeredTypes && ops != []
                && ReadsAs(stateTree, ops[|ops| - 1], e.value, registry)
                && RunAll(stateTree, ops, false, registry) == Some((stateTree, e.value))
    {
      if callType !in registeredTypes {
        return Threw;
      }
      forall i | 0 <= i < |ops|
        ensures MayRead(ops[i]) <==> IsReadOperation(ops[i]) && !Fails(stateTree, ops[i], false, registry)
      {
        MayReadExactly(ops[i]);
      }
      if forall i :: 0 <= i < |ops| ==> IsReadOperation(ops[i]) {
        ReadsGoTogether(stateTree, ops, registry);
      }
      var draft := new LiveTree(stateTree);
      e := draft.ApplyStateOperations(ops, ReadMode, registry);
    }

    method ResetState(nextState: Fields)
      modifies `stateTree
      ensures stateTree == nextState
    {
      stateTree := nextState;
    }
  }
}
