/**
 The state tree: nested records addressed by paths, and the path operations that read it, write it and
 create missing records on the way. A path is the list of its segments. A property that holds
 `Undefined` reads like a missing one.
 */
module StateTree {
  import opened Common

  datatype Value =
    | Undefined
    | Null
    | Text(text: string)
    | Number(number: int)
    | Big(big: int)
    | Bool(flag: bool)
    | Items(items: seq<Value>)
    | Record(fields: map<string, Value>)

  type Fields = map<string, Value>
  type Path = seq<string>

  // ---------------------------------------------------------------- reading and writing along a path

  function Prop(fields: Fields, key: string): Value {
    if key in fields then fields[key] else Undefined
  }

  /** The value at a path; anything below a value that is not a record is undefined. */
  function Get(fields: Fields, path: Path): Value
    decreases |path|
  {
    if path == [] then Record(fields)
    else if |path| == 1 then Prop(fields, path[0])
    else match Prop(fields, path[0])
         case Record(inner) => Get(inner, path[1..])
         case _ => Undefined
  }

  /** Every proper prefix of the path leads to a record. */
  predicate HasParent(fields: Fields, path: Path)
    decreases |path|
  {
    path != [] && (|path| > 1 ==> Prop(fields, path[0]).Record? && HasParent(Prop(fields, path[0]).fields, path[1..]))
  }

  function Put(fields: Fields, path: Path, value: Value): Fields
    requires HasParent(fields, path)
    decreases |path|
  {
    if |path| == 1 then fields[path[0] := value]
    else fields[path[0] := Record(Put(fields[path[0]].fields, path[1..], value))]
  }

  /** Writing addresses the root by the empty key. */
  function Address(path: Path): Path {
    if path == [] then [""] else path
  }

  /** The tree with all records above `path` present, or nothing if some segment cannot be passed. */
  function Resolve(fields: Fields, path: Path, createMissing: bool): Option<Fields>
    requires path != []
    decreases |path|
  {
    if |path| == 1 then Some(fields)
    else match Prop(fields, path[0])
         case Undefined =>
           if createMissing then Some(fields[path[0] := Record(Resolve(map[], path[1..], true).value)]) else None
         case Record(inner) =>
           (match Resolve(inner, path[1..], createMissing)
            case None => None
            case Some(resolved) => Some(fields[path[0] := Record(resolved)]))
         case _ => None
  }

  function SetAt(fields: Fields, path: Path, value: Value, createMissing: bool): Option<Fields>
  {
    var address := Address(path);
    match Resolve(fields, address, createMissing)
    case None => None
    case Some(resolved) => ResolveHasParent(fields, address, createMissing); Some(Put(resolved, address, value))
  }

  // ---------------------------------------------------------------- laws of paths

  lemma {:induction false} ResolveHasParent(fields: Fields, path: Path, createMissing: bool)
    requires path != [] && Resolve(fields, path, createMissing).Some?
    ensures HasParent(Resolve(fields, path, createMissing).value, path)
    ensures Get(Resolve(fields, path, createMissing).value, path) == Get(fields, path)
    decreases |path|
  {
    if |path| > 1 {
      match Prop(fields, path[0])
      case Undefined =>
        CreatedPathIsUndefined(path[1..]);
        ResolveHasParent(map[], path[1..], true);
      case Record(inner) => ResolveHasParent(inner, path[1..], createMissing);
      case _ =>
    }
  }

  /** In an empty record every path can be created, and leads nowhere. */
  lemma {:induction false} CreatedPathIsUndefined(path: Path)
    requires path != []
    ensures Resolve(map[], path, true).Some? && Get(map[], path) == Undefined
    decreases |path|
  {
    if |path| > 1 {
      CreatedPathIsUndefined(path[1..]);
    }
  }

  /** Without creation, resolving never changes the tree. */
  lemma {:induction false} ResolveWithoutCreation(fields: Fields, path: Path)
    requires path != [] && Resolve(fields, path, false).Some?
    ensures Resolve(fields, path, false).value == fields
    decreases |path|
  {
    if |path| > 1 {
      ResolveWithoutCreation(fields[path[0]].fields, path[1..]);
    }
  }

  /** Neither path is an initial part of the other. */
  predicate Apart(p: Path, q: Path) {
    !(p <= q) && !(q <= p)
  }

  lemma {:induction false} PutThenGet(fields: Fields, path: Path, value: Value)
    requires HasParent(fields, path)
    ensures Get(Put(fields, path, value), path) == value
    decreases |path|
  {
    if |path| > 1 {
      PutThenGet(fields[path[0]].fields, path[1..], value);
    }
  }

  /** Writing back the record that is there changes nothing. */
  lemma {:induction false} PutSameRecord(fields: Fields, path: Path)
    requires HasParent(fields, path) && Get(fields, path).Record?
    ensures Put(fields, path, Get(fields, path)) == fields
    decreases |path|
  {
    if |path| > 1 {
      PutSameRecord(fields[path[0]].fields, path[1..]);
      assert fields[path[0] := Record(fields[path[0]].fields)] == fields;
    } else {
      assert fields[path[0] := fields[path[0]]] == fields;
    }
  }

  lemma {:induction false} PutTwice(fields: Fields, path: Path, first: Value)
    requires HasParent(fields, path)
    ensures HasParent(Put(fields, path, first), path)
    ensures forall second :: Put(Put(fields, path, first), path, second) == Put(fields, path, second)
    decreases |path|
  {
    forall second
      ensures HasParent(Put(fields, path, first), path)
      ensures Put(Put(fields, path, first), path, second) == Put(fields, path, second)
    {
      if |path| > 1 {
        PutTwice(fields[path[0]].fields, path[1..], first);
        var inner := fields[path[0]].fields;
        assert Put(fields, path, first)[path[0]].fields == Put(inner, path[1..], first);
      }
    }
  }

  /** Resolving only ever creates parents of paths that lead nowhere. */
  lemma {:induction false} CreatedMeansUndefined(fields: Fields, path: Path, createMissing: bool)
    requires path != [] && Resolve(fields, path, createMissing).Some? && Get(fields, path) != Undefined
    ensures Resolve(fields, path, createMissing).value == fields
    decreases |path|
  {
    if |path| > 1 {
      CreatedMeansUndefined(fields[path[0]].fields, path[1..], createMissing);
      assert fields[path[0] := Record(fields[path[0]].fields)] == fields;
    }
  }

  lemma TailsApart(p: Path, q: Path)
    requires Apart(p, q) && p[0] == q[0]
    ensures |p| > 1 && |q| > 1 && Apart(p[1..], q[1..])
  {
    assert p == [p[0]] + p[1..] && q == [q[0]] + q[1..];
  }

  lemma {:induction false} PutElsewhere(fields: Fields, path: Path, value: Value, other: Path)
    requires HasParent(fields, path) && Apart(path, other)
    ensures Get(Put(fields, path, value), other) == Get(fields, other)
    decreases |path|
  {
    if path[0] == other[0] {
      TailsApart(path, other);
      PutElsewhere(fields[path[0]].fields, path[1..], value, other[1..]);
    }
  }

  lemma {:induction false} ResolveElsewhere(fields: Fields, path: Path, createMissing: bool, other: Path)
    requires path != [] && Resolve(fields, path, createMissing).Some? && Apart(path, other)
    ensures Get(Resolve(fields, path, createMissing).value, other) == Get(fields, other)
    decreases |path|
  {
    if |path| > 1 && path[0] == other[0] {
      TailsApart(path, other);
      match Prop(fields, path[0])
      case Undefined =>
        CreatedPathIsUndefined(path[1..]);
        CreatedPathIsUndefined(other[1..]);
        ResolveElsewhere(map[], path[1..], true, other[1..]);
      case Record(inner) => ResolveElsewhere(inner, path[1..], createMissing, other[1..]);
      case _ =>
    }
  }

  /** Where a set writes: at its path, or under the empty key for the empty path. */
  ghost function Written(path: Path): Path {
    match |path| case 0 => [""] case _ => path
  }

  /**
   A successful set is read back where it writes, and every path that is neither an initial part nor an extension of
   that reads as before, even when records were created on the way.
   */
  lemma SetIsReadBackAndLocal(fields: Fields, path: Path, value: Value, createMissing: bool)
    requires SetAt(fields, path, value, createMissing).Some?
    ensures var after := SetAt(fields, path, value, createMissing).value;
            && Get(after, Written(path)) == value
            && (forall other :: Apart(Written(path), other) ==> Get(after, other) == Get(fields, other))
  {
    var address := Address(path);
    var resolved := Resolve(fields, address, createMissing).value;
    ResolveHasParent(fields, address, createMissing);
    PutThenGet(resolved, address, value);
    forall other | Apart(address, other)
      ensures Get(SetAt(fields, path, value, createMissing).value, other) == Get(fields, other)
    {
      PutElsewhere(resolved, address, value, other);
      ResolveElsewhere(fields, address, createMissing, other);
    }
  }

  /** Some proper prefix of the path holds a value that is neither a record nor undefined. */
  predicate Blocked(fields: Fields, path: Path) {
    exists n :: 0 < n < |path| && !Get(fields, path[..n]).Record? && Get(fields, path[..n]) != Undefined
  }

  /** With creation, a set fails exactly when its path is blocked. */
  lemma {:induction false} SetFailsExactlyWhenBlocked(fields: Fields, path: Path)
    requires path != []
    ensures Resolve(fields, path, true).None? <==> Blocked(fields, path)
    decreases |path|
  {
    if |path| > 1 {
      assert path[..1] == [path[0]];
      match Prop(fields, path[0])
      case Undefined =>
        CreatedPathIsUndefined(path[1..]);
        forall n | 0 < n < |path| ensures Get(fields, path[..n]) == Undefined {
          assert path[..n][0] == path[0];
        }
      case Record(inner) =>
        SetFailsExactlyWhenBlocked(inner, path[1..]);
        BlockedBelow(fields, inner, path);
      case _ => assert !Get(fields, path[..1]).Record?;
    }
  }

  lemma BlockedBelow(fields: Fields, inner: Fields, path: Path)
    requires |path| > 1 && Prop(fields, path[0]) == Record(inner)
    ensures Blocked(fields, path) <==> Blocked(inner, path[1..])
  {
    forall n | 0 < n < |path| - 1 ensures Get(inner, path[1..][..n]) == Get(fields, path[..n + 1]) {
      assert path[..n + 1][1..] == path[1..][..n];
    }
    if Blocked(fields, path) {
      var n :| 0 < n < |path| && !Get(fields, path[..n]).Record? && Get(fields, path[..n]) != Undefined;
      assert path[..1] == [path[0]];
      assert n != 1;
      assert Get(inner, path[1..][..n - 1]) == Get(fields, path[..n]);
    }
    if Blocked(inner, path[1..]) {
      var n :| 0 < n < |path[1..]| && !Get(inner, path[1..][..n]).Record? && Get(inner, path[1..][..n]) != Undefined;
      assert Get(fields, path[..n + 1]) == Get(inner, path[1..][..n]);
    }
  }

  // ---------------------------------------------------------------- walking one segment at a time

  /** The value one segment further is the property of the record reached so far. */
  lemma {:induction false} GetOneMore(fields: Fields, path: Path, key: string)
    ensures Get(fields, path + [key])
         == (match Get(fields, path) case Record(inner) => Prop(inner, key) case _ => Undefined)
    ensures HasParent(fields, path + [key]) <==> Get(fields, path).Record?
    decreases |path|
  {
    if path != [] {
      assert (path + [key])[1..] == path[1..] + [key];
      if Prop(fields, path[0]).Record? {
        GetOneMore(fields[path[0]].fields, path[1..], key);
      }
    }
  }

  /** When all parents are there, resolving finds them and changes nothing. */
  lemma {:induction false} ResolveWhenPresent(fields: Fields, path: Path, createMissing: bool)
    requires HasParent(fields, path)
    ensures Resolve(fields, path, createMissing) == Some(fields)
    decreases |path|
  {
    if |path| > 1 {
      ResolveWhenPresent(fields[path[0]].fields, path[1..], createMissing);
      assert fields[path[0] := Record(fields[path[0]].fields)] == fields;
    }
  }

  /** Whatever is found at a path has records above it. */
  lemma {:induction false} PresentHasParent(fields: Fields, path: Path)
    requires path != [] && Get(fields, path) != Undefined
    ensures HasParent(fields, path)
    decreases |path|
  {
    if |path| > 1 {
      PresentHasParent(Prop(fields, path[0]).fields, path[1..]);
    }
  }

  /** Creating the first missing parent does not change what resolving ends with. */
  lemma {:induction false} CreateFirstMissing(fields: Fields, path: Path, n: nat)
    requires n + 1 < |path| && HasParent(fields, path[..n + 1]) && Get(fields, path[..n + 1]) == Undefined
    ensures Resolve(Put(fields, path[..n + 1], Record(map[])), path, true) == Resolve(fields, path, true)
    decreases |path|
  {
    var created := Put(fields, path[..n + 1], Record(map[]));
    if n == 0 {
      assert fields[path[0] := Record(map[])][path[0] := Record(Resolve(map[], path[1..], true).value)]
          == fields[path[0] := Record(Resolve(map[], path[1..], true).value)];
      CreatedPathIsUndefined(path[1..]);
    } else {
      var inner := fields[path[0]].fields;
      assert path[..n + 1][1..] == path[1..][..n];
      CreateFirstMissing(inner, path[1..], n - 1);
      var innerCreated := Put(inner, path[1..][..n], Record(map[]));
      assert created == fields[path[0] := Record(innerCreated)];
      var resolved := Resolve(inner, path[1..], true);
      if resolved.Some? {
        assert created[path[0] := Record(resolved.value)] == fields[path[0] := Record(resolved.value)];
      }
    }
  }

  /** A parent that is no record, and cannot be created, stops the walk. */
  lemma {:induction false} StoppedHere(fields: Fields, path: Path, n: nat, createMissing: bool)
    requires n + 1 < |path| && HasParent(fields, path[..n + 1]) && !Get(fields, path[..n + 1]).Record?
    requires createMissing ==> Get(fields, path[..n + 1]) != Undefined
    ensures Resolve(fields, path, createMissing).None?
    decreases |path|
  {
    if n > 0 {
      assert path[..n + 1][1..] == path[1..][..n];
      StoppedHere(fields[path[0]].fields, path[1..], n - 1, createMissing);
    }
  }
}
