/**
 Live tree handles per pool, and the index from snapshot keys to handles that lets a witness be built
 without importing the whole tree again.
 */
module TreeSession {
  import opened Common
  import opened MerkleTree

  /** `count:root`, or `count:first:last` for a snapshot without nodes. */
  datatype SessionKey =
    | RootKey(count: nat, root: nat)
    | EdgeKey(count: nat, first: Option<nat>, last: Option<nat>)

  datatype Session = Session(handle: nat, key: SessionKey)

  /** What the sessions are asked for: to bind a pool's snapshot, or to extend a pool's tree. */
  datatype Request = BindTo(pool: string, snapshot: StateFile) | ExtendTo(pool: string, commitments: seq<nat>, root: RootText)

  /** What a witness is computed from. */
  datatype Witness = Witness(coin: string, leaves: seq<nat>)

  function SessionKeyOf(state: StateFile): SessionKey {
    var commitments := state.commitments;
    match state
    case WithNodes(_, _, root) => RootKey(|commitments|, root)
    case LeavesOnly(_) =>
      if commitments == [] then EdgeKey(0, None, None)
      else EdgeKey(|commitments|, Some(commitments[0]), Some(commitments[|commitments| - 1]))
  }

  /** A handle's tree is the sound one over as many of the leaves as the key counts. */
  predicate HoldsPart(tree: Tree, key: SessionKey, leaves: seq<nat>) {
    key.count <= |leaves| && tree == Whole(leaves[..key.count])
  }

  /** The extension of a sound prefix holds its part of the leaves under the key of the snapshot. */
  lemma ExtendedHolds(cached: Option<CachedView>, commitments: seq<nat>, root: RootText, nodes: Option<Nodes>, leaves: seq<nat>)
    requires SoundPrefix(cached, commitments)
    ensures ExtendedTree(cached, commitments, root).hashed == commitments
    ensures commitments <= leaves ==>
              HoldsPart(ExtendedTree(cached, commitments, root), SessionKeyOf(SnapshotToStateFile(commitments, root, nodes)), leaves)
  {
    SoundPrefixExtendsWhole(cached, commitments, root);
    assert SessionKeyOf(SnapshotToStateFile(commitments, root, nodes)).count == |commitments|;
    assert commitments <= leaves ==> leaves[..|commitments|] == commitments;
  }

  /**
   When two snapshots get the same key: those with a root when size and root agree, those without when size, first
   and last leaf do. Snapshots without a root can differ in every inner leaf.
   */
  lemma KeysEqualExactly(left: StateFile, right: StateFile)
    ensures SessionKeyOf(left) == SessionKeyOf(right) <==>
              && |left.commitments| == |right.commitments|
              && (left.WithNodes? <==> right.WithNodes?)
              && (left.WithNodes? ==> left.root == right.root)
              && (left.LeavesOnly? && left.commitments != [] ==>
                    && left.commitments[0] == right.commitments[0]
                    && left.commitments[|left.commitments| - 1] == right.commitments[|right.commitments| - 1])
  {
  }

  /** The pool's present session has the key of this snapshot. */
  ghost predicate HasKey(
    sessions: map<string, Session>, pool: string, commitments: seq<nat>, root: RootText, nodes: Option<Nodes>)
  {
    pool in sessions && sessions[pool].key == SessionKeyOf(SnapshotToStateFile(commitments, root, nodes))
  }

  class TreeSessions {
    const sdk: LeanImt
    var sessionsByPool: map<string, Session>
    var handlesByKey: map<SessionKey, nat>
    /** Everything the sessions were asked for. */
    ghost var requests: seq<Request>

    constructor (sdk: LeanImt)
      ensures this.sdk == sdk && Valid()
      ensures sessionsByPool == map[] && handlesByKey == map[]
    {
      this.sdk := sdk;
      sessionsByPool := map[];
      handlesByKey := map[];
      requests := [];
    }

    /** Every key leads to some pool's current session, every session's handle is live, and no two pools share one. */
    ghost predicate Valid()
      reads `sessionsByPool, `handlesByKey, sdk`trees
    {
      && (forall key :: key in handlesByKey ==>
            exists pool :: pool in sessionsByPool && sessionsByPool[pool] == Session(handlesByKey[key], key))
      && (forall pool :: pool in sessionsByPool ==> sessionsByPool[pool].handle in sdk.trees)
      && (forall p, q :: p in sessionsByPool && q in sessionsByPool && sessionsByPool[p].handle == sessionsByPool[q].handle ==>
            p == q)
    }

    /**
     Every current session holds, soundly hashed, the initial part of its own pool's leaves that its key counts.
     Each pool has leaves of its own.
     */
    ghost predicate Holds(leaves: map<string, seq<nat>>)
      reads `sessionsByPool, sdk`trees
    {
      forall pool :: pool in sessionsByPool && sessionsByPool[pool].handle in sdk.trees ==>
        && pool in leaves
        && HoldsPart(sdk.trees[sessionsByPool[pool].handle], sessionsByPool[pool].key, leaves[pool])
    }

    /** Sessions stay right when the leaves of any pools grow. */
    lemma GrowingLeavesKeep(early: map<string, seq<nat>>, late: map<string, seq<nat>>)
      requires Holds(early) && forall pool :: pool in early ==> pool in late && early[pool] <= late[pool]
      ensures Holds(late)
    {
      forall pool | pool in sessionsByPool && sessionsByPool[pool].handle in sdk.trees
        ensures pool in late && HoldsPart(sdk.trees[sessionsByPool[pool].handle], sessionsByPool[pool].key, late[pool])
      {
        var count := sessionsByPool[pool].key.count;
        assert early[pool][..count] == late[pool][..count];
      }
    }

    /** No other pool's session has the key of this state for other leaves. */
    ghost predicate NoCollision(leaves: map<string, seq<nat>>, pool: string, state: StateFile)
      reads this
    {
      forall other :: other in sessionsByPool && other != pool && sessionsByPool[other].key == SessionKeyOf(state) ==>
        other in leaves && state.commitments <= leaves[other]
    }

    /** What taking over a handle does to the two maps: the key of a replaced handle is forgotten, all others stay. */
    twostate predicate TakesOver(pool: string, key: SessionKey, handle: nat)
      reads this
    {
      && sessionsByPool == old(sessionsByPool)[pool := Session(handle, key)]
      && handlesByKey == (if pool in old(sessionsByPool) && old(sessionsByPool)[pool].handle != handle
                          then old(handlesByKey) - {old(sessionsByPool)[pool].key} else old(handlesByKey))[key := handle]
    }

    ghost predicate NoSessionHas(handle: nat)
      reads this
    {
      forall pool :: pool in sessionsByPool ==> sessionsByPool[pool].handle != handle
    }

    /** Take over `handle`, which is live and new to the sessions. */
    method RememberHandle(pool: string, key: SessionKey, handle: nat)
      requires handle in sdk.trees && NoSessionHas(handle)
      requires forall k :: k in handlesByKey ==>
                 exists p :: p in sessionsByPool && sessionsByPool[p] == Session(handlesByKey[k], k)
      requires forall p :: p in sessionsByPool && p != pool ==> sessionsByPool[p].handle in sdk.trees
      requires forall p, q :: p in sessionsByPool && q in sessionsByPool && sessionsByPool[p].handle == sessionsByPool[q].handle ==>
                 p == q
      modifies `sessionsByPool, `handlesByKey
      ensures Valid()
      ensures TakesOver(pool, key, handle)
    {
      if pool in sessionsByPool && sessionsByPool[pool].handle != handle {
        handlesByKey := handlesByKey - {sessionsByPool[pool].key};
      }
      ghost var before := sessionsByPool;
      sessionsByPool := sessionsByPool[pool := Session(handle, key)];
      handlesByKey := handlesByKey[key := handle];
      forall k | k in handlesByKey
        ensures exists p :: p in sessionsByPool && sessionsByPool[p] == Session(handlesByKey[k], k)
      {
        if k == key {
          assert sessionsByPool[pool] == Session(handlesByKey[k], k);
        } else {
          var p :| p in before && before[p] == Session(handlesByKey[k], k);
          assert sessionsByPool[p] == before[p];
        }
      }
    }

    /** Take over a freshly built handle and leave the replaced one alive. */
    method AdoptSession(pool: string, key: SessionKey, handle: nat, ghost leaves: map<string, seq<nat>>)
      requires Valid() && handle in sdk.trees && NoSessionHas(handle)
      modifies `sessionsByPool, `handlesByKey
      ensures Valid()
      ensures TakesOver(pool, key, handle)
      ensures old(Holds(leaves)) && pool in leaves && HoldsPart(sdk.trees[handle], key, leaves[pool]) ==> Holds(leaves)
    {
      RememberHandle(pool, key, handle);
    }

    /** Drop the pool's present handle, if any, and take over the freshly imported one. */
    method ReplaceSession(pool: string, key: SessionKey, handle: nat, ghost leaves: map<string, seq<nat>>)
      requires Valid() && handle in sdk.trees && NoSessionHas(handle)
      modifies `sessionsByPool, `handlesByKey, sdk
      ensures Valid()
      ensures TakesOver(pool, key, handle)
      ensures sdk.trees == old(sdk.trees) - (if old(pool in sessionsByPool) then {old(sessionsByPool)[pool].handle} else {})
      ensures old(Holds(leaves)) && pool in leaves && HoldsPart(old(sdk.trees)[handle], key, leaves[pool]) ==>
                Holds(leaves)
    {
      if pool in sessionsByPool {
        sdk.Drop(sessionsByPool[pool].handle);
      } else {
        assert sdk.trees == sdk.trees - {};
      }
      RememberHandle(pool, key, handle);
    }

    /** Imports a snapshot for the pool; the replaced handle is dropped. */
    method ImportSession(pool: string, snapshot: StateFile, ghost leaves: map<string, seq<nat>>) returns (handle: Option<nat>)
      requires Valid()
      modifies `sessionsByPool, `handlesByKey, sdk
      ensures Valid()
      ensures handle.None? ==>
                sessionsByPool == old(sessionsByPool) && handlesByKey == old(handlesByKey) && sdk.trees == old(sdk.trees)
      ensures handle.Some? ==>
                && TakesOver(pool, SessionKeyOf(snapshot), handle.value)
                && handle.value !in old(sdk.trees)
                && sdk.trees == (if pool in old(sessionsByPool) then old(sdk.trees) - {old(sessionsByPool)[pool].handle}
                                 else old(sdk.trees))[handle.value := ImportedTree(snapshot)]
      ensures (old(Holds(leaves)) && pool in leaves
               && HoldsPart(ImportedTree(snapshot), SessionKeyOf(snapshot), leaves[pool])) ==>
                Holds(leaves)
    {
      handle := sdk.ImportFromState(snapshot);
      if handle.Some? {
        ReplaceSession(pool, SessionKeyOf(snapshot), handle.value, leaves);
      }
    }

    /**
     A pool's session for this snapshot, imported anew unless the pool already has it; the replaced handle
     is dropped. `leaves` are the leaves every pool has on chain.
     */
    method BindPoolMerkleTree(
      pool: string, commitments: seq<nat>, root: RootText, nodes: Option<Nodes>, ghost leaves: map<string, seq<nat>>)
      returns (handle: Option<nat>)
      requires Valid()
      modifies this, sdk
      ensures Valid()
      ensures requests == old(requests) + [BindTo(pool, SnapshotToStateFile(commitments, root, nodes))]
      ensures handle.None? ==>
                sessionsByPool == old(sessionsByPool) && handlesByKey == old(handlesByKey) && sdk.trees == old(sdk.trees)
      ensures handle.Some? && HasKey(old(sessionsByPool), pool, commitments, root, nodes) ==>
                && handle.value == old(sessionsByPool)[pool].handle
                && sessionsByPool == old(sessionsByPool) && handlesByKey == old(handlesByKey) && sdk.trees == old(sdk.trees)
      ensures handle.Some? && !HasKey(old(sessionsByPool), pool, commitments, root, nodes) ==>
                && TakesOver(pool, SessionKeyOf(SnapshotToStateFile(commitments, root, nodes)), handle.value)
                && handle.value !in old(sdk.trees)
                && sdk.trees
                   == (if pool in old(sessionsByPool) then old(sdk.trees) - {old(sessionsByPool)[pool].handle}
                       else old(sdk.trees))[handle.value := ImportedTree(SnapshotToStateFile(commitments, root, nodes))]
      ensures (old(Holds(leaves)) && pool in leaves && commitments <= leaves[pool]
               && SoundNodes(CachedView(commitments, Some(root), nodes))) ==>
                Holds(leaves)
    {
      requests := requests + [BindTo(pool, SnapshotToStateFile(commitments, root, nodes))];
      var available: bool := *;
      if !available {
        return None;
      }
      var snapshot := SnapshotToStateFile(commitments, root, nodes);
      if pool in sessionsByPool && sessionsByPool[pool].key == SessionKeyOf(snapshot) {
        return Some(sessionsByPool[pool].handle);
      }
      handle := ImportSession(pool, snapshot, leaves);
    }

    /** A new tree under a handle that was not live concerns no session. */
    method BuildExtended(
      cached: Option<CachedView>, commitments: seq<nat>, root: RootText, ghost leaves: map<string, seq<nat>>)
      returns (nodes: Option<Nodes>, handle: Option<nat>)
      requires Valid()
      modifies sdk
      ensures Valid()
      ensures nodes.Some? == handle.Some?
      ensures handle.None? ==> sdk.trees == old(sdk.trees)
      ensures handle.Some? ==>
                && nodes.value == NodesOf(ExtendedTree(cached, commitments, root).hashed)
                && handle.value !in old(sdk.trees) && NoSessionHas(handle.value)
                && sdk.trees == old(sdk.trees)[handle.value := ExtendedTree(cached, commitments, root)]
      ensures old(Holds(leaves)) ==> Holds(leaves)
    {
      nodes, handle := ExtendMerkleSnapshotNodes(sdk, cached, commitments, root);
    }

    /** Build the extended tree and take it over; if that fails nothing changes. */
    method ExtendAndAdopt(
      pool: string, cached: Option<CachedView>, commitments: seq<nat>, root: RootText, ghost leaves: map<string, seq<nat>>)
      returns (nodes: Option<Nodes>)
      requires Valid()
      modifies `sessionsByPool, `handlesByKey, sdk
      ensures Valid()
      ensures nodes.Some? ==>
                && nodes.value == NodesOf(ExtendedTree(cached, commitments, root).hashed)
                && pool in sessionsByPool
                && var handle := sessionsByPool[pool].handle;
                && TakesOver(pool, SessionKeyOf(SnapshotToStateFile(commitments, root, nodes)), handle)
                && handle !in old(sdk.trees)
                && sdk.trees == old(sdk.trees)[handle := ExtendedTree(cached, commitments, root)]
      ensures nodes.None? ==>
                sdk.trees == old(sdk.trees) && sessionsByPool == old(sessionsByPool) && handlesByKey == old(handlesByKey)
      ensures SoundPrefix(cached, commitments) && nodes.Some? ==> nodes.value == NodesOf(commitments)
      ensures (old(Holds(leaves)) && pool in leaves && commitments <= leaves[pool] && SoundPrefix(cached, commitments)) ==>
                Holds(leaves)
    {
      var handle;
      nodes, handle := BuildExtended(cached, commitments, root, leaves);
      if handle.Some? {
        if SoundPrefix(cached, commitments) {
          ExtendedHolds(cached, commitments, root, nodes, if pool in leaves then leaves[pool] else []);
        }
        AdoptSession(pool, SessionKeyOf(SnapshotToStateFile(commitments, root, nodes)), handle.value, leaves);
      }
    }

    /** Nodes for the new commitments; a tree built on the way becomes the pool's session. */
    method ResolveExtendedMerkleNodes(
      pool: string, cached: Option<CachedView>, commitments: seq<nat>, root: RootText, ghost leaves: map<string, seq<nat>>)
      returns (nodes: Option<Nodes>)
      requires Valid()
      modifies this, sdk
      ensures Valid()
      ensures requests == old(requests) + [ExtendTo(pool, commitments, root)]
      ensures SameSnapshot(cached, commitments, root) ==>
                && nodes == cached.value.nodes && sdk.trees == old(sdk.trees)
                && sessionsByPool == old(sessionsByPool) && handlesByKey == old(handlesByKey)
      ensures !SameSnapshot(cached, commitments, root) && nodes.Some? ==>
                && nodes.value == NodesOf(ExtendedTree(cached, commitments, root).hashed)
                && pool in sessionsByPool
                && var handle := sessionsByPool[pool].handle;
                && TakesOver(pool, SessionKeyOf(SnapshotToStateFile(commitments, root, nodes)), handle)
                && handle !in old(sdk.trees)
                && sdk.trees == old(sdk.trees)[handle := ExtendedTree(cached, commitments, root)]
      ensures !SameSnapshot(cached, commitments, root) && nodes.None? ==>
                sdk.trees == old(sdk.trees) && sessionsByPool == old(sessionsByPool) && handlesByKey == old(handlesByKey)
      ensures SoundPrefix(cached, commitments) && nodes.Some? ==> nodes.value == NodesOf(commitments)
      ensures (old(Holds(leaves)) && pool in leaves && commitments <= leaves[pool] && SoundPrefix(cached, commitments)) ==>
                Holds(leaves)
    {
      requests := requests + [ExtendTo(pool, commitments, root)];
      if SameSnapshot(cached, commitments, root) {
        return cached.value.nodes;
      }
      var available: bool := *;
      if !available {
        return None;
      }
      nodes := ExtendAndAdopt(pool, cached, commitments, root, leaves);
    }

    /** The index leads the state's key, if anywhere, to the session of a pool whose leaves the state begins. */
    ghost predicate LeadsToItsLeaves(leaves: map<string, seq<nat>>, state: StateFile)
      reads this
    {
      SessionKeyOf(state) in handlesByKey ==>
        forall other ::
          other in sessionsByPool && other in leaves && sessionsByPool[other].handle == handlesByKey[SessionKeyOf(state)] ==>
          state.commitments <= leaves[other]
    }

    /**
     The witness is the one rebuilt from the state's leaves if and only if the index leads its key to a pool with
     those leaves, or nowhere. A state of one pool is safe when no other pool's session has its key for other leaves.
     */
    method WithdrawMerkleWitnessFromTree(
      coin: string, state: StateFile, ghost leaves: map<string, seq<nat>>, ghost pool: string) returns (proof: Witness)
      requires Valid()
      ensures SessionKeyOf(state) !in handlesByKey ==> proof == Witness(coin, state.commitments)
      ensures SessionKeyOf(state) in handlesByKey ==>
                && handlesByKey[SessionKeyOf(state)] in sdk.trees
                && proof == Witness(coin, sdk.trees[handlesByKey[SessionKeyOf(state)]].leaves)
      ensures Holds(leaves) ==> (proof == Witness(coin, state.commitments) <==> LeadsToItsLeaves(leaves, state))
      ensures Holds(leaves) && pool in leaves && state.commitments <= leaves[pool] && NoCollision(leaves, pool, state) ==>
                proof == Witness(coin, state.commitments)
    {
      var key := SessionKeyOf(state);
      if key in handlesByKey {
        assert exists other :: other in sessionsByPool && sessionsByPool[other] == Session(handlesByKey[key], key);
        return Witness(coin, sdk.trees[handlesByKey[key]].leaves);
      }
      return Witness(coin, state.commitments);
    }
  }

  /**
   Two pools whose states share a key: after both have been bound, in this order, every session holds its own pool's
   leaves, and yet the first pool's state gets a witness over the second pool's leaves.
   */
  method WitnessOfAnotherPool(first: string, second: string, a: seq<nat>, b: seq<nat>, coin: string)
    returns (sessions: TreeSessions, proof: Witness)
    requires first != second && a != b && SessionKeyOf(LeavesOnly(a)) == SessionKeyOf(LeavesOnly(b))
    ensures fresh(sessions) && fresh(sessions.sdk) && sessions.Valid() && sessions.Holds(map[first := a, second := b])
    ensures first in sessions.sessionsByPool && sessions.sessionsByPool[first].key == SessionKeyOf(LeavesOnly(a))
    ensures proof == Witness(coin, b) && proof != Witness(coin, a)
  {
    sessions := TwoPools(first, second, a, b);
    proof := sessions.WithdrawMerkleWitnessFromTree(coin, LeavesOnly(a), map[first := a, second := b], first);
  }

  /** Binds the two pools, one after the other. */
  method TwoPools(first: string, second: string, a: seq<nat>, b: seq<nat>) returns (sessions: TreeSessions)
    requires first != second
    ensures fresh(sessions) && fresh(sessions.sdk) && sessions.Valid() && sessions.Holds(map[first := a, second := b])
    ensures sessions.sessionsByPool
         == map[first := Session(0, SessionKeyOf(LeavesOnly(a))), second := Session(1, SessionKeyOf(LeavesOnly(b)))]
    ensures SessionKeyOf(LeavesOnly(b)) in sessions.handlesByKey
    ensures sessions.handlesByKey[SessionKeyOf(LeavesOnly(b))] == 1
    ensures 1 in sessions.sdk.trees && sessions.sdk.trees[1].leaves == b
  {
    var sdk := new LeanImt();
    sdk.trees := map[0 := Whole(a), 1 := Whole(b)];
    sessions := new TreeSessions(sdk);
    sessions.RememberHandle(first, SessionKeyOf(LeavesOnly(a)), 0);
    assert sessions.sessionsByPool == map[first := Session(0, SessionKeyOf(LeavesOnly(a)))];
    sessions.RememberHandle(second, SessionKeyOf(LeavesOnly(b)), 1);
    assert a[..|a|] == a && b[..|b|] == b;
  }

  /** There are such states. */
  lemma CollidingLeaves()
    ensures [1, 2, 3, 4] != [1, 5, 6, 4]
    ensures SessionKeyOf(LeavesOnly([1, 2, 3, 4])) == SessionKeyOf(LeavesOnly([1, 5, 6, 4]))
  {
    assert [1, 2, 3, 4][1] != [1, 5, 6, 4][1];
  }
}
