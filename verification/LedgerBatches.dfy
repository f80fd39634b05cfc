/**
 The ledger's writes are batches of state operations on the stored array: what each batch does to the state
 tree is what the ledger says it does to the raw items, for any storage form of a record.
 */
module LedgerBatches {
  import opened Common
  import P = PrivateRecords
  import L = RecordStore
  import opened StateTree
  import opened StateOperations

  /** How items are stored, and that the registered schema parses exactly the records, with their id and consumed flag. */
  ghost predicate Stores(form: L.Raw -> Value, schema: Value -> Option<Fields>) {
    forall raw: L.Raw ::
      match raw
      case Unparsable => schema(form(raw)).None?
      case Stored(r) =>
        && schema(form(raw)).Some?
        && Prop(schema(form(raw)).value, "id") == Text(r.id)
        && Prop(schema(form(raw)).value, "consumed") == Bool(r.consumed)
  }

  function Form(raw: seq<L.Raw>, form: L.Raw -> Value): (items: seq<Value>)
    ensures |items| == |raw| && forall i :: 0 <= i < |raw| ==> items[i] == form(raw[i])
  {
    seq(|raw|, i requires 0 <= i < |raw| => form(raw[i]))
  }

  function Texts(ids: seq<string>): (values: seq<Value>)
    ensures |values| == |ids| && forall i :: 0 <= i < |ids| ==> values[i] == Text(ids[i])
  {
    seq(|ids|, i requires 0 <= i < |ids| => Text(ids[i]))
  }

  function IdsInOrder(records: seq<P.PrivateRecord>): (ids: seq<string>)
    ensures |ids| == |records| && forall i :: 0 <= i < |records| ==> ids[i] == records[i].id
  {
    seq(|records|, i requires 0 <= i < |records| => records[i].id)
  }

  /** The match that rejects records by id. */
  function RejectIds(records: seq<P.PrivateRecord>): RejectMatch {
    FieldIn("id", Texts(IdsInOrder(records)))
  }

  function RejectConsumed(): RejectMatch {
    FieldEquals("consumed", Bool(true))
  }

  lemma IdIsRejected(item: Fields, id: string, records: seq<P.PrivateRecord>, registry: Registry)
    requires Prop(item, "id") == Text(id)
    ensures ShouldReject(item, RejectIds(records), registry) <==> id in L.Ids(records)
  {
    var values := Texts(IdsInOrder(records));
    if id in L.Ids(records) {
      var i :| 0 <= i < |records| && records[i].id == id;
      assert ValuesEqual(Prop(item, "id"), values[i], registry);
    }
    if ShouldReject(item, RejectIds(records), registry) {
      var i :| 0 <= i < |values| && ValuesEqual(Prop(item, "id"), values[i], registry);
      assert records[i] in records && records[i].id == id;
    }
  }

  lemma {:induction false} FilterByIds(
    raw: seq<L.Raw>, records: seq<P.PrivateRecord>, form: L.Raw -> Value, schema: Value -> Option<Fields>, registry: Registry)
    requires Stores(form, schema)
    ensures FilterItems(Form(raw, form), schema, RejectIds(records), registry)
         == Form(L.WithoutIds(raw, L.Ids(records)), form)
  {
    if raw != [] {
      var last := P.Last(raw);
      FilterByIds(P.Init(raw), records, form, schema, registry);
      assert Form(raw, form)[..|raw| - 1] == Form(P.Init(raw), form);
      if last.Stored? {
        IdIsRejected(schema(form(last)).value, last.record.id, records, registry);
      }
      var rest := L.WithoutIds(P.Init(raw), L.Ids(records));
      assert Form(rest + [last], form) == Form(rest, form) + [form(last)];
      assert rest + [] == rest;
    }
  }

  lemma {:induction false} FilterConsumed(
    raw: seq<L.Raw>, form: L.Raw -> Value, schema: Value -> Option<Fields>, registry: Registry)
    requires Stores(form, schema)
    ensures FilterItems(Form(raw, form), schema, RejectConsumed(), registry) == Form(L.WithoutConsumed(raw), form)
  {
    if raw != [] {
      var last := P.Last(raw);
      FilterConsumed(P.Init(raw), form, schema, registry);
      assert Form(raw, form)[..|raw| - 1] == Form(P.Init(raw), form);
      var rest := L.WithoutConsumed(P.Init(raw));
      assert Form(rest + [last], form) == Form(rest, form) + [form(last)];
      assert rest + [] == rest;
    }
  }

  // ---------------------------------------------------------------- one operation on a present array

  /** The path holds the items, or there are none and an array can be created there. */
  predicate HoldsItems(fields: Fields, path: Path, items: seq<Value>) {
    Get(fields, path) == Items(items) || (items == [] && Get(fields, path) == Undefined && !Blocked(fields, path))
  }

  lemma ItemsCanBeSet(fields: Fields, path: Path, items: seq<Value>)
    requires path != [] && HoldsItems(fields, path, items)
    ensures Resolve(fields, path, true).Some?
  {
    if Get(fields, path) == Items(items) {
      PresentHasParent(fields, path);
      ResolveWhenPresent(fields, path, true);
    } else {
      SetFailsExactlyWhenBlocked(fields, path);
    }
  }

  lemma ArrayStep(before: Fields, op: Operation, items: seq<Value>, next: seq<Value>, registry: Registry)
    requires op.path != [] && HoldsItems(before, op.path, items)
    requires op.ArrayPush? || op.ArrayFilter? || op.ArrayClean?
    requires Result(Items(items), op, true, registry) == Some((Items(next), NoAnswer))
    ensures Outcome(before, op, true, registry).Some?
    ensures Get(Outcome(before, op, true, registry).value.0, op.path) == Items(next)
  {
    ItemsCanBeSet(before, op.path, items);
    var resolved := Resolve(before, op.path, true).value;
    ResolveHasParent(before, op.path, true);
    PutThenGet(resolved, op.path, Items(next));
    assert Result(Get(before, op.path), op, true, registry) == Some((Items(next), NoAnswer));
  }

  lemma RunTwo(before: Fields, first: Operation, second: Operation, registry: Registry)
    ensures RunAll(before, [first], true, registry) == Outcome(before, first, true, registry)
    ensures RunAll(before, [first, second], true, registry)
         == match Outcome(before, first, true, registry)
            case None => None
            case Some((middle, _)) => Outcome(middle, second, true, registry)
  {
    assert [first][..0] == [] && [first, second][..1] == [first];
    assert RunAll(before, [], true, registry) == Some((before, NoAnswer));
  }

  lemma TwoArraySteps(
    before: Fields, first: Operation, second: Operation, a: seq<Value>, b: seq<Value>, c: seq<Value>, registry: Registry)
    requires first.path != [] && first.path == second.path && HoldsItems(before, first.path, a)
    requires first.ArrayPush? || first.ArrayFilter? || first.ArrayClean?
    requires second.ArrayPush? || second.ArrayFilter? || second.ArrayClean?
    requires Result(Items(a), first, true, registry) == Some((Items(b), NoAnswer))
    requires Result(Items(b), second, true, registry) == Some((Items(c), NoAnswer))
    ensures var all := RunAll(before, [first, second], true, registry);
            all.Some? && Get(all.value.0, first.path) == Items(c)
  {
    ArrayStep(before, first, a, b, registry);
    ArrayStep(Outcome(before, first, true, registry).value.0, second, b, c, registry);
    RunTwo(before, first, second, registry);
  }

  // ---------------------------------------------------------------- the ledger's batches

  lemma FilterResult(
    path: Path, raw: seq<L.Raw>, records: seq<P.PrivateRecord>, schemaKey: string, form: L.Raw -> Value, registry: Registry)
    requires schemaKey in registry.schemas && Stores(form, registry.schemas[schemaKey])
    ensures Result(Items(Form(raw, form)), ArrayFilter(path, schemaKey, RejectIds(records)), true, registry)
         == Some((Items(Form(L.WithoutIds(raw, L.Ids(records)), form)), NoAnswer))
  {
    FilterByIds(raw, records, form, registry.schemas[schemaKey], registry);
  }

  lemma PushResult(path: Path, raw: seq<L.Raw>, records: seq<P.PrivateRecord>, form: L.Raw -> Value, registry: Registry)
    ensures Result(Items(Form(raw, form)), ArrayPush(path, Form(L.StoredAll(records), form)), true, registry)
         == Some((Items(Form(raw + L.StoredAll(records), form)), NoAnswer))
  {
    assert Form(raw, form) + Form(L.StoredAll(records), form) == Form(raw + L.StoredAll(records), form);
  }

  /** Filter by id, then push: the batch of an upsert. */
  lemma UpsertBatch(
    before: Fields, path: Path, raw: seq<L.Raw>, records: seq<P.PrivateRecord>, schemaKey: string,
    form: L.Raw -> Value, registry: Registry)
    requires path != [] && HoldsItems(before, path, Form(raw, form))
    requires schemaKey in registry.schemas && Stores(form, registry.schemas[schemaKey])
    ensures var batch := [ArrayFilter(path, schemaKey, RejectIds(records)), ArrayPush(path, Form(L.StoredAll(records), form))];
            var all := RunAll(before, batch, true, registry);
            && all.Some?
            && Get(all.value.0, path) == Items(Form(L.WithoutIds(raw, L.Ids(records)) + L.StoredAll(records), form))
  {
    var left := L.WithoutIds(raw, L.Ids(records));
    FilterResult(path, raw, records, schemaKey, form, registry);
    PushResult(path, left, records, form, registry);
    TwoArraySteps(before, ArrayFilter(path, schemaKey, RejectIds(records)), ArrayPush(path, Form(L.StoredAll(records), form)),
                  Form(raw, form), Form(left, form), Form(left + L.StoredAll(records), form), registry);
  }

  /** Clean, then push: the batch of a replace. */
  lemma ReplaceBatch(
    before: Fields, path: Path, raw: seq<L.Raw>, records: seq<P.PrivateRecord>, form: L.Raw -> Value, registry: Registry)
    requires path != [] && HoldsItems(before, path, Form(raw, form))
    ensures var batch := [ArrayClean(path), ArrayPush(path, Form(L.StoredAll(records), form))];
            var all := RunAll(before, batch, true, registry);
            all.Some? && Get(all.value.0, path) == Items(Form(L.StoredAll(records), form))
  {
    var push := ArrayPush(path, Form(L.StoredAll(records), form));
    assert [] + Form(L.StoredAll(records), form) == Form(L.StoredAll(records), form);
    TwoArraySteps(before, ArrayClean(path), push, Form(raw, form), [], Form(L.StoredAll(records), form), registry);
  }

  /** The single push of a save, and the single filter of a prune. */
  lemma SaveAndPruneBatches(
    before: Fields, path: Path, raw: seq<L.Raw>, records: seq<P.PrivateRecord>, schemaKey: string,
    form: L.Raw -> Value, registry: Registry)
    requires path != [] && HoldsItems(before, path, Form(raw, form))
    requires schemaKey in registry.schemas && Stores(form, registry.schemas[schemaKey])
    ensures var saved := RunAll(before, [ArrayPush(path, Form(L.StoredAll(records), form))], true, registry);
            saved.Some? && Get(saved.value.0, path) == Items(Form(raw + L.StoredAll(records), form))
    ensures var pruned := RunAll(before, [ArrayFilter(path, schemaKey, RejectConsumed())], true, registry);
            pruned.Some? && Get(pruned.value.0, path) == Items(Form(L.WithoutConsumed(raw), form))
  {
    var push := ArrayPush(path, Form(L.StoredAll(records), form));
    var filter := ArrayFilter(path, schemaKey, RejectConsumed());
    assert Form(raw, form) + Form(L.StoredAll(records), form) == Form(raw + L.StoredAll(records), form);
    ArrayStep(before, push, Form(raw, form), Form(raw + L.StoredAll(records), form), registry);
    FilterConsumed(raw, form, registry.schemas[schemaKey], registry);
    ArrayStep(before, filter, Form(raw, form), Form(L.WithoutConsumed(raw), form), registry);
    RunTwo(before, push, filter, registry);
    RunTwo(before, filter, push, registry);
  }
}
