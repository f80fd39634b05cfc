/**
 The external tree library, abstractly, and the extension of a cached tree snapshot by new leaf pairs.
 A live handle denotes the leaves it holds and the leaves its inner nodes were computed from; the tree is
 sound when the two agree. A stored node list is known by the leaves it was computed from, and is empty
 for no leaves.
 */
module MerkleTree {
  import opened Common

  const BN254: nat :=
    21888242871839275222246405745257275088548364400416034343698204186575808495617

  /** A stored root text: 64 hex digits standing for a number, or any other text. */
  datatype RootText = HexRoot(value: nat) | OtherText(text: string)

  datatype Nodes = NodesOf(leaves: seq<nat>)

  /** What is handed to the tree library: leaves alone, or leaves with nodes and the root they belong to. */
  datatype StateFile =
    | LeavesOnly(commitments: seq<nat>)
    | WithNodes(commitments: seq<nat>, nodes: Nodes, root: nat)

  datatype Tree = Tree(leaves: seq<nat>, hashed: seq<nat>)

  /** The cached view of one pool. */
  datatype CachedView = CachedView(commitments: seq<nat>, merkleRootHex: Option<RootText>, nodes: Option<Nodes>)

  function Whole(leaves: seq<nat>): Tree {
    Tree(leaves, leaves)
  }

  function RootDecimal(root: RootText): Option<nat> {
    match root
    case HexRoot(value) => Some(value % BN254)
    case OtherText(_) => None
  }

  function SnapshotToStateFile(commitments: seq<nat>, root: RootText, nodes: Option<Nodes>): StateFile {
    var decimal := RootDecimal(root);
    if nodes.None? || nodes.value.leaves == [] || decimal.None? then LeavesOnly(commitments)
    else WithNodes(commitments, nodes.value, decimal.value)
  }

  /**
   What a stored snapshot is handed over as: with its nodes and the residue of its root exactly when it has nodes and a
   root that is a number, and else as leaves alone.
   */
  lemma SnapshotByFields(commitments: seq<nat>, root: RootText, nodes: Option<Nodes>)
    ensures var state := SnapshotToStateFile(commitments, root, nodes);
            && state.commitments == commitments
            && (state.WithNodes? <==> nodes.Some? && nodes.value.leaves != [] && root.HexRoot?)
            && (state.WithNodes? ==>
                  && state.nodes == nodes.value
                  && state.root == root.value
                       % 21888242871839275222246405745257275088548364400416034343698204186575808495617)
  {
  }

  function ImportedTree(state: StateFile): Tree {
    match state
    case LeavesOnly(commitments) => Whole(commitments)
    case WithNodes(commitments, nodes, _) => Tree(commitments, nodes.leaves)
  }

  /** The tree library: its live handles. Every call may fail; a new handle is never one that is live. */
  class LeanImt {
    var trees: map<nat, Tree>
    /** Every state the library was asked to import. */
    ghost var imports: seq<StateFile>

    constructor ()
      ensures trees == map[]
    {
      trees := map[];
      imports := [];
    }

    method ImportFromState(state: StateFile) returns (handle: Option<nat>)
      modifies this
      ensures imports == old(imports) + [state]
      ensures handle.None? ==> trees == old(trees)
      ensures handle.Some? ==> handle.value !in old(trees) && trees == old(trees)[handle.value := ImportedTree(state)]
    {
      imports := imports + [state];
      var fails: bool := *;
      if fails {
        return None;
      }
      var handleId := FreshHandle(trees.Keys);
      trees := trees[handleId := ImportedTree(state)];
      return Some(handleId);
    }

    method InsertTwo(handle: nat, leafA: nat, leafB: nat) returns (ok: bool)
      requires handle in trees
      modifies `trees
      ensures ok ==> trees == old(trees)[handle := Grown(old(trees)[handle], [leafA, leafB])]
      ensures !ok ==> trees == old(trees)
    {
      ok := *;
      if ok {
        trees := trees[handle := Grown(trees[handle], [leafA, leafB])];
      }
    }

    method ExportNodes(handle: nat) returns (nodes: Option<Nodes>)
      requires handle in trees
      ensures nodes.Some? ==> nodes.value == NodesOf(trees[handle].hashed)
    {
      var fails: bool := *;
      nodes := if fails then None else Some(NodesOf(trees[handle].hashed));
    }

    method Drop(handle: nat)
      requires handle in trees
      modifies `trees
      ensures trees == old(trees) - {handle}
    {
      trees := trees - {handle};
    }
  }

  method FreshHandle(live: set<nat>) returns (handle: nat)
    ensures handle !in live
  {
    handle := 0;
    var rest := live;
    while rest != {}
      invariant rest <= live
      invariant forall h :: h in live && h !in rest ==> h < handle
    {
      var h :| h in rest;
      rest := rest - {h};
      handle := if handle <= h then h + 1 else handle;
    }
  }

  function Grown(tree: Tree, more: seq<nat>): Tree {
    Tree(tree.leaves + more, tree.hashed + more)
  }

  lemma GrownInTwo(tree: Tree, first: seq<nat>, second: seq<nat>)
    ensures Grown(tree, []) == tree
    ensures Grown(Grown(tree, first), second) == Grown(tree, first + second)
  {
    assert tree.leaves + [] == tree.leaves && tree.hashed + [] == tree.hashed;
    assert tree.leaves + first + second == tree.leaves + (first + second);
    assert tree.hashed + first + second == tree.hashed + (first + second);
  }

  // ---------------------------------------------------------------- extend-snapshot

  function PrefixLength(cached: Option<CachedView>): nat {
    if cached.Some? && cached.value.nodes.Some? then |cached.value.commitments| else 0
  }

  /** The first `n` elements, or all of them when there are fewer. */
  function Take(xs: seq<nat>, n: nat): seq<nat> {
    if n <= |xs| then xs[..n] else xs
  }

  function PrefixSnapshotState(cached: Option<CachedView>, commitments: seq<nat>, root: RootText): StateFile {
    SnapshotToStateFile(
      Take(commitments, PrefixLength(cached)),
      if cached.Some? && cached.value.merkleRootHex.Some? then cached.value.merkleRootHex.value else root,
      if cached.Some? then cached.value.nodes else None)
  }

  function ImportSnapshotState(prefixState: StateFile, commitments: seq<nat>): StateFile {
    if prefixState.WithNodes? && prefixState.commitments != [] then prefixState else LeavesOnly(commitments)
  }

  /** The pairs go in from `prefixLength` on; an odd remainder is given up, and so is any failed insert. */
  method InsertNewPairs(sdk: LeanImt, handle: nat, prefixLength: nat, commitments: seq<nat>) returns (inserted: bool)
    requires handle in sdk.trees && prefixLength <= |commitments|
    modifies sdk`trees
    ensures sdk.trees.Keys == old(sdk.trees.Keys)
    ensures sdk.trees - {handle} == old(sdk.trees) - {handle}
    ensures inserted ==> sdk.trees == old(sdk.trees)[handle := Grown(old(sdk.trees)[handle], commitments[prefixLength..])]
    ensures inserted ==> (|commitments| - prefixLength) % 2 == 0
  {
    var index := prefixLength;
    GrownInTwo(sdk.trees[handle], [], []);
    assert commitments[prefixLength..index] == [];
    while index < |commitments|
      invariant prefixLength <= index <= |commitments|
      invariant (index - prefixLength) % 2 == 0
      invariant sdk.trees ==
                old(sdk.trees)[handle := Grown(old(sdk.trees)[handle], commitments[prefixLength..index])]
    {
      if index + 1 >= |commitments| {
        return false;
      }
      var ok := sdk.InsertTwo(handle, commitments[index], commitments[index + 1]);
      if !ok {
        return false;
      }
      GrownInTwo(old(sdk.trees)[handle], commitments[prefixLength..index], [commitments[index], commitments[index + 1]]);
      assert commitments[prefixLength..index] + [commitments[index], commitments[index + 1]]
          == commitments[prefixLength..index + 2];
      index := index + 2;
    }
    assert commitments[prefixLength..index] == commitments[prefixLength..];
    return true;
  }

  /** The tree a successful extension ends with. */
  function ExtendedTree(cached: Option<CachedView>, commitments: seq<nat>, root: RootText): Tree {
    var prefixState := PrefixSnapshotState(cached, commitments, root);
    var imported := ImportedTree(ImportSnapshotState(prefixState, commitments));
    if prefixState.WithNodes? then Grown(imported, commitments[|prefixState.commitments|..]) else imported
  }

  /**
   What is imported before the new pairs go in: the cached nodes over the commitments they cover, under the root they
   were cached with (or the new one if none was), when all of these are there; and else all the leaves.
   */
  ghost predicate ImportsPrefix(cached: Option<CachedView>, commitments: seq<nat>, root: RootText, state: StateFile) {
    match cached
    case Some(CachedView(known, cachedRoot, Some(nodes))) =>
      var under := match cachedRoot case Some(text) => text case None => root;
      var k := if |known| < |commitments| then |known| else |commitments|;
      if nodes.leaves != [] && under.HexRoot? && k > 0 then
        state == WithNodes(commitments[..k], nodes, under.value % BN254)
      else state == LeavesOnly(commitments)
    case _ => state == LeavesOnly(commitments)
  }

  method ExtendMerkleSnapshotNodes(
    sdk: LeanImt, cached: Option<CachedView>, commitments: seq<nat>, root: RootText)
    returns (nodes: Option<Nodes>, handle: Option<nat>)
    modifies sdk
    ensures nodes.Some? == handle.Some?
    ensures |commitments| % 2 == 1 ==> sdk.imports == old(sdk.imports)
    ensures |commitments| % 2 == 0 ==>
              && |sdk.imports| == |old(sdk.imports)| + 1 && old(sdk.imports) <= sdk.imports
              && ImportsPrefix(cached, commitments, root, sdk.imports[|old(sdk.imports)|])
    ensures |commitments| % 2 == 1 ==> handle.None?
    ensures handle.None? ==> sdk.trees == old(sdk.trees)
    ensures handle.Some? ==>
              && handle.value !in old(sdk.trees)
              && sdk.trees == old(sdk.trees)[handle.value := ExtendedTree(cached, commitments, root)]
              && nodes == Some(NodesOf(ExtendedTree(cached, commitments, root).hashed))
  {
    if |commitments| % 2 != 0 {
      return None, None;
    }
    var prefixState := PrefixSnapshotState(cached, commitments, root);
    var imported := sdk.ImportFromState(ImportSnapshotState(prefixState, commitments));
    if imported.None? {
      return None, None;
    }
    var inserted := true;
    if prefixState.WithNodes? {
      inserted := InsertNewPairs(sdk, imported.value, |prefixState.commitments|, commitments);
    }
    if !inserted {
      sdk.Drop(imported.value);
      assert sdk.trees == old(sdk.trees) - {imported.value};
      return None, None;
    }
    nodes := sdk.ExportNodes(imported.value);
    if nodes.None? {
      sdk.Drop(imported.value);
      return None, None;
    }
    return nodes, imported;
  }

  // ---------------------------------------------------------------- when extending equals importing whole

  /** The cached nodes are used: there are some, under a root text that is a number. */
  predicate UsesCachedNodes(cached: Option<CachedView>, root: RootText) {
    && cached.Some? && cached.value.nodes.Some? && cached.value.nodes.value.leaves != []
    && RootDecimal(if cached.value.merkleRootHex.Some? then cached.value.merkleRootHex.value else root).Some?
  }

  /**
   The extended tree is the one a whole import would give exactly when no cached nodes are used, or there
   is nothing to hold, or the cache has commitments and its nodes were computed from that very prefix.
   */
  lemma ExtensionIsWhole(cached: Option<CachedView>, commitments: seq<nat>, root: RootText)
    ensures ExtendedTree(cached, commitments, root) == Whole(commitments) <==>
            || !UsesCachedNodes(cached, root)
            || commitments == []
            || (cached.value.commitments != []
                && cached.value.nodes.value.leaves == Take(commitments, |cached.value.commitments|))
  {
    if UsesCachedNodes(cached, root) && commitments != [] {
      var k := |cached.value.commitments|;
      var prefix := Take(commitments, k);
      assert PrefixSnapshotState(cached, commitments, root).commitments == prefix;
      assert prefix + commitments[|prefix|..] == commitments;
      var hashed := cached.value.nodes.value.leaves;
      if k == 0 {
        assert |(commitments + commitments)| != |commitments|;
      } else {
        var tree := ExtendedTree(cached, commitments, root);
        assert tree == Tree(commitments, hashed + commitments[|prefix|..]);
        if tree.hashed == commitments {
          assert |hashed| == |prefix|;
          assert hashed == (hashed + commitments[|prefix|..])[..|prefix|];
          assert prefix == commitments[..|prefix|];
        }
      }
    }
  }

  /** A cache is sound when its nodes, if any, were computed from its own commitments. */
  predicate SoundNodes(view: CachedView) {
    view.nodes.Some? ==> view.nodes.value == NodesOf(view.commitments)
  }

  /** The cache already holds as many commitments under the same root text. */
  predicate SameSnapshot(cached: Option<CachedView>, commitments: seq<nat>, root: RootText) {
    cached.Some? && |cached.value.commitments| == |commitments| && cached.value.merkleRootHex == Some(root)
  }

  /** What is cached, if anything, is sound and a prefix of the new commitments. */
  predicate SoundPrefix(cached: Option<CachedView>, commitments: seq<nat>) {
    cached.Some? ==> SoundNodes(cached.value) && cached.value.commitments <= commitments
  }

  /** A sound cache that is a prefix of the new commitments always extends to the whole tree. */
  lemma SoundPrefixExtendsWhole(cached: Option<CachedView>, commitments: seq<nat>, root: RootText)
    requires SoundPrefix(cached, commitments)
    ensures ExtendedTree(cached, commitments, root) == Whole(commitments)
  {
    ExtensionIsWhole(cached, commitments, root);
  }
}
