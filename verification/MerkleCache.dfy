/**
 The cached commitments of one pool: reuse, sync from chain, append, and the tree session kept beside them.
 `Truthful` (the cache is an initial part of the chain's commitments) and `Sound` (cached nodes and session
 handles agree with the commitments) are what every run of syncs and truthful appends keeps.
 */
module MerkleCache {
  import opened Common
  import opened MerkleTree
  import opened TreeSession
  import opened LeafReader

  datatype PoolState = PoolState(
    commitments: seq<nat>,
    commitmentCount: nat,
    merkleRootHex: RootText,
    nodes: Option<Nodes>,
    syncedLedger: Option<int>)

  datatype FetchResult = FetchResult(
    commitments: seq<nat>, commitmentCount: nat, merkleRootHex: RootText, nodes: Option<Nodes>)

  function ToCachedView(state: PoolState): CachedView {
    CachedView(state.commitments, Some(state.merkleRootHex), state.nodes)
  }

  function CachedViewOf(state: Option<PoolState>): Option<CachedView> {
    if state.Some? then Some(ToCachedView(state.value)) else None
  }

  // ---------------------------------------------------------------- reuse

  predicate CompleteCacheRootMatches(cached: CachedView, root: RootText) {
    cached.merkleRootHex.None? || cached.merkleRootHex == Some(OtherText("")) || cached.merkleRootHex == Some(root)
  }

  function ReuseCachedCommitments(cached: Option<CachedView>, onChainCount: nat, root: RootText): seq<nat> {
    if cached.None? || cached.value.commitments == [] then []
    else if |cached.value.commitments| > onChainCount then []
    else if |cached.value.commitments| == onChainCount then
      if CompleteCacheRootMatches(cached.value, root) then cached.value.commitments else []
    else cached.value.commitments
  }

  /** What is reused from a truthful cache is always an initial part of the counted commitments. */
  lemma ReusedIsPrefix(cached: Option<CachedView>, onChainCount: nat, root: RootText, onChain: seq<nat>)
    requires cached.Some? ==> cached.value.commitments <= onChain
    requires onChainCount <= |onChain|
    ensures ReuseCachedCommitments(cached, onChainCount, root) <= onChain[..onChainCount]
  {
  }

  /**
   How many commitments of the cache a sync keeps: all of them while there are fewer than on chain, or just as many
   under the same root or none; and nothing else. Only the rest is asked for.
   */
  ghost function Kept(cached: Option<CachedView>, count: nat, root: RootText): nat {
    match cached
    case None => 0
    case Some(CachedView(known, cachedRoot, _)) =>
      if |known| < count then |known|
      else if |known| == count
              && (cachedRoot == None || cachedRoot == Some(OtherText("")) || cachedRoot == Some(root)) then count
      else 0
  }

  lemma ReuseIsKept(cached: Option<CachedView>, count: nat, root: RootText)
    ensures |ReuseCachedCommitments(cached, count, root)| == Kept(cached, count, root)
    ensures Kept(cached, count, root) > 0 ==> ReuseCachedCommitments(cached, count, root) == cached.value.commitments
  {
  }

  /** A node that lags behind the cache makes the extension hash other leaves than it holds. */
  lemma LaggingCountIsNeverWhole(cached: CachedView, commitments: seq<nat>, root: RootText)
    requires SoundNodes(cached) && commitments < cached.commitments && commitments != []
    requires UsesCachedNodes(Some(cached), root)
    ensures ExtendedTree(Some(cached), commitments, root) != Whole(commitments)
  {
    ExtensionIsWhole(Some(cached), commitments, root);
  }

  class PoolMerkleCache {
    const pool: string
    const chain: Chain
    const sessions: TreeSessions
    var state: Option<PoolState>

    constructor (pool: string, chain: Chain, sessions: TreeSessions, ghost others: map<string, seq<nat>>)
      requires sessions.Valid()
      ensures this.pool == pool && this.chain == chain && this.sessions == sessions
      ensures Valid() && Truthful() && state.None?
      ensures sessions.Holds(AllLeaves(others)) ==> Sound(others)
    {
      this.pool := pool;
      this.chain := chain;
      this.sessions := sessions;
      state := None;
    }

    ghost predicate Valid()
      reads this, sessions, sessions.sdk
    {
      sessions.Valid()
    }

    ghost predicate Truthful()
      reads this, chain
    {
      state.Some? ==> state.value.commitments <= Decimals(chain.leaves)
    }

    /** The commitments on chain of every pool that shares the sessions: the other pools', and this one's. */
    ghost function AllLeaves(others: map<string, seq<nat>>): map<string, seq<nat>>
      reads this, chain
    {
      others[pool := Decimals(chain.leaves)]
    }

    ghost predicate Sound(others: map<string, seq<nat>>)
      reads this, chain, sessions, sessions.sdk
    {
      && (state.Some? ==> SoundNodes(ToCachedView(state.value)))
      && sessions.Holds(AllLeaves(others))
    }

    /** Growth of the chain changes nothing for the cache. */
    twostate lemma GrowthKeeps(others: map<string, seq<nat>>)
      requires old(chain.leaves) <= chain.leaves && state == old(state)
      requires unchanged(sessions) && unchanged(sessions.sdk)
      ensures old(Truthful()) ==> Truthful()
      ensures old(Sound(others)) ==> Sound(others)
    {
      DecimalsOfPrefix(old(chain.leaves), chain.leaves);
      if old(Sound(others)) {
        sessions.GrowingLeavesKeep(old(AllLeaves(others)), AllLeaves(others));
      }
    }

    /** Growth of the other pools changes nothing either. */
    lemma OthersGrowthKeeps(early: map<string, seq<nat>>, late: map<string, seq<nat>>)
      requires Sound(early) && forall other :: other in early ==> other in late && early[other] <= late[other]
      ensures Sound(late)
    {
      sessions.GrowingLeavesKeep(AllLeaves(early), AllLeaves(late));
    }

    /** The reused commitments completed from the chain. */
    method LoadCommitments(cached: Option<CachedView>, onChainCount: nat, root: RootText)
      returns (e: Ended<seq<nat>>)
      requires cached.Some? ==> cached.value.commitments <= Decimals(chain.leaves)
      requires onChainCount <= |chain.leaves|
      modifies chain`leaves, chain`asked
      ensures old(chain.leaves) <= chain.leaves
      ensures e.Done? ==>
                && e.value == Decimals(chain.leaves)[..onChainCount]
                && AskedFor(old(chain.asked), chain.asked, Range(Kept(cached, onChainCount, root), onChainCount))
    {
      var reused := ReuseCachedCommitments(cached, onChainCount, root);
      ReusedIsPrefix(cached, onChainCount, root, Decimals(chain.leaves));
      ReuseIsKept(cached, onChainCount, root);
      if |reused| == onChainCount {
        NothingAsked(chain.asked);
        return Done(reused);
      }
      ghost var before := chain.leaves;
      ghost var covered;
      e, covered := ReadTreeLeafCommitments(chain, |reused|, onChainCount);
      DecimalsOfPrefix(before, chain.leaves);
      if e.Done? {
        var n := |reused|;
        assert reused == Decimals(chain.leaves)[..n];
        assert reused + e.value == Decimals(chain.leaves)[..onChainCount];
        e := Done(reused + e.value);
      }
    }

    /** With a cache port the result is stored, which may fail after the sessions have moved on. */
    method PersistFetchedMerkleState(
      cached: Option<CachedView>, commitments: seq<nat>, root: RootText, port: bool, ghost others: map<string, seq<nat>>)
      returns (e: Ended<FetchResult>)
      requires Valid() && cached == if port then CachedViewOf(state) else None
      modifies this, sessions, sessions.sdk
      ensures Valid()
      ensures !e.Done? ==> state == old(state)
      ensures SameSnapshot(cached, commitments, root) ==>
                && e == Done(FetchResult(cached.value.commitments, |cached.value.commitments|, root, cached.value.nodes))
                && state == old(state) && unchanged(sessions) && unchanged(sessions.sdk)
      ensures e.Done? && !SameSnapshot(cached, commitments, root) ==>
                && e.value == FetchResult(commitments, |commitments|, root, e.value.nodes)
                && state == (if port then Some(PoolState(commitments, |commitments|, root, e.value.nodes, None)) else old(state))
                && ResolvedFor(cached, commitments, root, e.value.nodes)
                && sessions.requests == old(sessions.requests) + [ExtendTo(pool, commitments, root)]
      ensures e.Done? && SoundPrefix(cached, commitments) && e.value.nodes.Some? ==> e.value.nodes.value == NodesOf(commitments)
      ensures (old(Sound(others)) && SoundPrefix(cached, commitments) && commitments <= Decimals(chain.leaves)) ==>
                Sound(others)
    {
      if SameSnapshot(cached, commitments, root) {
        return Done(FetchResult(cached.value.commitments, |cached.value.commitments|, root, cached.value.nodes));
      }
      var nodes := sessions.ResolveExtendedMerkleNodes(pool, cached, commitments, root, AllLeaves(others));
      if port {
        if * {
          return Threw;
        }
        state := Some(PoolState(commitments, |commitments|, root, nodes, None));
      }
      return Done(FetchResult(commitments, |commitments|, root, nodes));
    }

    /** One read of the count and then one of the root, which may be of a later moment. */
    method ReadCountAndRoot() returns (e: Ended<(nat, RootText)>)
      modifies chain`leaves, chain`counts, chain`roots
      ensures old(chain.leaves) <= chain.leaves
      ensures e.Done? || e.Threw?
      ensures e.Done? ==>
                && chain.counts == old(chain.counts) + [e.value.0] && chain.roots == old(chain.roots) + [e.value.1]
                && e.value.0 <= |chain.leaves|
    {
      var counted := chain.GetCommitmentCount();
      if !counted.Done? {
        return Threw;
      }
      var root := chain.GetMerkleRoot();
      if !root.Done? {
        return Threw;
      }
      return Done((counted.value, root.value));
    }

    /** What the cache holds under `port`. */
    ghost function Cached(port: bool): Option<CachedView>
      reads this
    {
      match state
      case Some(known) => if port then Some(CachedView(known.commitments, Some(known.merkleRootHex), known.nodes)) else None
      case None => None
    }

    /** The cache has as many commitments as were counted, under the very root that was read. */
    ghost predicate UpToDate(port: bool, count: nat, root: RootText)
      reads this
    {
      port && state.Some? && |state.value.commitments| == count && state.value.merkleRootHex == root
    }

    /**
     A successful sync has read one count and one root and asked for just the leaves it did not know. It returns that
     count, that root and the first that many commitments of the chain. A cache that is up to date stays as it is, with
     the sessions; any other takes over all that was returned. A failed sync leaves the cache as it was, and the sessions
     too unless it got as far as writing (`reached`); even then they stay sound.
     */
    method FetchAndMergeMerkleState(port: bool, ghost others: map<string, seq<nat>>)
      returns (e: Ended<FetchResult>, ghost count: nat, ghost root: RootText, ghost reached: bool)
      requires Valid() && Truthful()
      modifies this, chain, sessions, sessions.sdk
      ensures Valid() && Truthful()
      ensures old(chain.leaves) <= chain.leaves
      ensures !e.Done? || !port ==> state == old(state)
      ensures !reached ==> !e.Done? && unchanged(sessions) && unchanged(sessions.sdk)
      ensures reached ==>
                && count <= |chain.leaves|
                && chain.counts == old(chain.counts) + [count] && chain.roots == old(chain.roots) + [root]
                && AskedFor(old(chain.asked), chain.asked, Range(Kept(old(Cached(port)), count, root), count))
      ensures e.Done? ==>
                && |e.value.commitments| == count && AreCommitments(e.value.commitments, chain.leaves, 0)
                && e.value.commitmentCount == count && e.value.merkleRootHex == root
      ensures e.Done? && old(UpToDate(port, count, root)) ==>
                && state == old(state) && e.value.nodes == old(state).value.nodes
                && unchanged(sessions) && unchanged(sessions.sdk)
      ensures e.Done? && !old(UpToDate(port, count, root)) ==>
                && (port ==> state == Some(PoolState(e.value.commitments, count, root, e.value.nodes, None)))
                && ResolvedFor(old(Cached(port)), e.value.commitments, root, e.value.nodes)
                && sessions.requests == old(sessions.requests) + [ExtendTo(pool, e.value.commitments, root)]
      ensures (e.Done? && e.value.nodes.Some?
               && (port && old(state).Some? ==>
                     SoundNodes(ToCachedView(old(state).value)) && |old(state).value.commitments| <= count)) ==>
                e.value.nodes.value == NodesOf(e.value.commitments)
      ensures (old(Sound(others))
               && !(reached && port && old(state).Some? && count < |old(state).value.commitments|)) ==>
                Sound(others)
    {
      count, root, reached := 0, OtherText(""), false;
      var read := ReadCountAndRoot();
      if !read.Done? {
        GrowthKeeps(others);
        return Threw, count, root, reached;
      }
      count, root := read.value.0, read.value.1;
      var cached := if port then CachedViewOf(state) else None;
      DecimalsOfPrefix(old(chain.leaves), chain.leaves);
      var loaded := LoadCommitments(cached, read.value.0, read.value.1);
      GrowthKeeps(others);
      if !loaded.Done? {
        return Threw, count, root, reached;
      }
      reached := true;
      e := PersistFetchedMerkleState(cached, loaded.value, read.value.1, port, others);
    }

    /** The request to bind this pool's session to a state. */
    ghost function Binds(next: PoolState): Request {
      BindTo(pool, SnapshotToStateFile(next.commitments, next.merkleRootHex, next.nodes))
    }

    /** Store a state and rebind the session to it; a state that is not stored is not bound. */
    method WritePoolMerkleState(next: PoolState, ghost others: map<string, seq<nat>>) returns (e: Ended<()>)
      requires Valid()
      modifies this, sessions, sessions.sdk
      ensures Valid()
      ensures e.Done? ==> state == Some(next) && sessions.requests == old(sessions.requests) + [Binds(next)]
      ensures !e.Done? ==> state == old(state) && unchanged(sessions) && unchanged(sessions.sdk)
      ensures (e.Done? && old(sessions.Holds(AllLeaves(others)))
               && next.commitments <= Decimals(chain.leaves)
               && SoundNodes(ToCachedView(next))) ==>
                Sound(others)
    {
      if * {
        return Threw;
      }
      state := Some(next);
      var handle := sessions.BindPoolMerkleTree(
        pool, next.commitments, next.merkleRootHex, next.nodes, AllLeaves(others));
      e := Done(());
    }

    /** What an append of these commitments makes of the old state. */
    ghost predicate IsAppendOf(
      before: Option<PoolState>, after: PoolState, commitments: seq<nat>, root: RootText, syncedLedger: Option<int>,
      nodes: Option<Nodes>)
    {
      && after.commitmentCount == |after.commitments| && after.merkleRootHex == root
      && (nodes.Some? ==> after.nodes == nodes)
      && (syncedLedger.Some? ==> after.syncedLedger == syncedLedger)
      && match before
         case None =>
           && after.commitments == commitments
           && (nodes.None? ==> after.nodes == None) && (syncedLedger.None? ==> after.syncedLedger == None)
         case Some(known) =>
           && after.commitments == known.commitments + commitments
           && (nodes.None? ==> after.nodes == if commitments == [] then known.nodes else None)
           && (syncedLedger.None? ==> after.syncedLedger == known.syncedLedger)
    }

    /**
     The state service's own append. Given nodes win; the old ones survive exactly when none are given and nothing
     is appended, for otherwise they would belong to other leaves.
     */
    method AppendPoolCommitments(
      commitments: seq<nat>, root: RootText, syncedLedger: Option<int>, nodes: Option<Nodes>) returns (e: Ended<()>)
      modifies this
      ensures !e.Done? ==> state == old(state)
      ensures e.Done? ==> state.Some? && IsAppendOf(old(state), state.value, commitments, root, syncedLedger, nodes)
      ensures (e.Done? && (old(state).Some? ==> SoundNodes(ToCachedView(old(state).value)))
               && (nodes.Some? ==> nodes.value == NodesOf(CommitmentsOf(old(state)) + commitments))) ==>
                SoundNodes(ToCachedView(state.value))
    {
      if * {
        return Threw;
      }
      var merged := CommitmentsOf(state) + commitments;
      assert commitments == [] ==> merged == CommitmentsOf(state);
      var kept := if nodes.Some? then nodes else if commitments == [] then NodesIn(state) else None;
      var ledger := if syncedLedger.Some? then syncedLedger else LedgerIn(state);
      state := Some(PoolState(merged, |merged|, root, kept, ledger));
      e := Done(());
    }

    /** The nodes of an append: the given ones, or those resolved for the merged commitments. */
    method ResolveForAppend(
      merged: seq<nat>, root: RootText, nodes: Option<Nodes>, ghost others: map<string, seq<nat>>)
      returns (found: Option<Nodes>)
      requires Valid()
      modifies sessions, sessions.sdk
      ensures Valid()
      ensures nodes.Some? ==> found == nodes && unchanged(sessions) && unchanged(sessions.sdk)
      ensures nodes.None? ==> sessions.requests == old(sessions.requests) + [ExtendTo(pool, merged, root)]
      ensures nodes.None? ==> ResolvedFor(Cached(true), merged, root, found)
      ensures nodes.None? && found.Some? && SoundPrefix(Cached(true), merged) ==> found.value == NodesOf(merged)
      ensures (old(Sound(others)) && SoundPrefix(Cached(true), merged) && merged <= Decimals(chain.leaves)) ==>
                Sound(others)
    {
      if nodes.Some? {
        return nodes;
      }
      assert CachedViewOf(state) == Cached(true);
      found := sessions.ResolveExtendedMerkleNodes(pool, CachedViewOf(state), merged, root, AllLeaves(others));
    }

    /** Bind the session of what is stored. */
    method BindStored(ghost others: map<string, seq<nat>>)
      requires Valid() && state.Some?
      modifies sessions, sessions.sdk
      ensures Valid()
      ensures sessions.requests == old(sessions.requests) + [Binds(state.value)]
      ensures (old(sessions.Holds(AllLeaves(others)))
               && state.value.commitments <= Decimals(chain.leaves) && SoundNodes(ToCachedView(state.value))) ==>
                Sound(others)
    {
      var written := state.value;
      var handle := sessions.BindPoolMerkleTree(
        pool, written.commitments, written.merkleRootHex, written.nodes, AllLeaves(others));
    }

    /**
     An append of the commitments that come next on chain keeps the cache truthful and sound, wherever it fails:
     before anything, after the sessions moved, or after the state was stored.
     */
    method AppendPoolMerkleCommitments(
      commitments: seq<nat>, root: RootText, syncedLedger: Option<int>, nodes: Option<Nodes>,
      ghost others: map<string, seq<nat>>)
      returns (e: Ended<()>, ghost resolved: Option<Nodes>)
      requires Valid()
      modifies this, sessions, sessions.sdk
      ensures Valid()
      ensures nodes.Some? ==> resolved == nodes
      ensures e.Done? ==>
                && state.Some?
                && sessions.requests == old(sessions.requests)
                                        + (if nodes.Some? then [] else [ExtendTo(pool, state.value.commitments, root)])
                                        + [Binds(state.value)]
      ensures nodes.None? && (e.Done? || state != old(state)) ==>
                ResolvedFor(old(Cached(true)), CommitmentsOf(old(state)) + commitments, root, resolved)
      ensures e.Done? || state != old(state) ==>
                state.Some? && IsAppendOf(old(state), state.value, commitments, root, syncedLedger, resolved)
      ensures CommitmentsOf(old(state)) + commitments <= Decimals(chain.leaves) ==> Truthful()
      ensures (old(Sound(others))
               && CommitmentsOf(old(state)) + commitments <= Decimals(chain.leaves)
               && (nodes.Some? ==> nodes.value == NodesOf(CommitmentsOf(old(state)) + commitments))) ==>
                Sound(others)
    {
      resolved := nodes;
      if * {
        return Threw, resolved;
      }
      var merged := CommitmentsOf(state) + commitments;
      var found := ResolveForAppend(merged, root, nodes, others);
      resolved := found;
      assert sessions.requests
          == old(sessions.requests) + (if nodes.Some? then [] else [ExtendTo(pool, merged, root)]);
      assert commitments == [] ==> merged == CommitmentsOf(state);
      e := AppendPoolCommitments(commitments, root, syncedLedger, found);
      if !e.Done? {
        return e, resolved;
      }
      if * {
        return Threw, resolved;
      }
      assert [] + commitments == commitments;
      assert state.value.commitments == merged;
      BindStored(others);
      e := Done(());
    }
  }

  /** Nodes for these commitments: the cached ones of an unchanged snapshot, or those of the extended tree, or none. */
  ghost predicate ResolvedFor(cached: Option<CachedView>, commitments: seq<nat>, root: RootText, nodes: Option<Nodes>) {
    if SameSnapshot(cached, commitments, root) then nodes == cached.value.nodes
    else nodes.None? || nodes == Some(NodesOf(ExtendedTree(cached, commitments, root).hashed))
  }

  function CommitmentsOf(state: Option<PoolState>): seq<nat> {
    if state.Some? then state.value.commitments else []
  }

  function NodesIn(state: Option<PoolState>): Option<Nodes> {
    if state.Some? then state.value.nodes else None
  }

  function LedgerIn(state: Option<PoolState>): Option<int> {
    if state.Some? then state.value.syncedLedger else None
  }
}
