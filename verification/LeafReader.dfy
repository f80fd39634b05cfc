/** Reading a range of pool leaves from an append-only chain, in batches, from answers in any order. */
module LeafReader {
  import opened Common
  import opened MerkleTree

  const FR_ORDER: nat :=
    0x73eda753299d7d483339d80809a1d80553bda402fffe5bfeffffffff00000001

  const TREE_LEAF_LEDGER_BATCH_SIZE: nat := 100

  /** One returned ledger entry: a well-formed leaf, or anything else. A leaf's bytes are read as a number. */
  datatype LedgerEntry = LeafEntry(index: nat, bytes: nat) | OtherEntry

  function CommitmentBufferToDecimal(bytes: nat): nat {
    bytes % FR_ORDER
  }

  /** The commitments of a list of leaves. */
  function Decimals(leaves: seq<nat>): (decimals: seq<nat>)
    ensures |decimals| == |leaves|
    ensures forall i :: 0 <= i < |leaves| ==> decimals[i] == CommitmentBufferToDecimal(leaves[i])
  {
    seq(|leaves|, i requires 0 <= i < |leaves| => CommitmentBufferToDecimal(leaves[i]))
  }

  lemma DecimalsOfPrefix(early: seq<nat>, late: seq<nat>)
    requires early <= late
    ensures Decimals(early) <= Decimals(late)
  {
    assert forall i :: 0 <= i < |early| ==> early[i] == late[i];
  }

  predicate Truthful(entries: seq<LedgerEntry>, leaves: seq<nat>) {
    forall i :: 0 <= i < |entries| && entries[i].LeafEntry? ==>
      entries[i].index < |leaves| && leaves[entries[i].index] == entries[i].bytes
  }

  /**
   The pool on chain. Its leaves only grow, and may grow before any read. `counts`, `roots` and `asked` record what was
   answered to count and root reads, and which leaves were asked for.
   */
  class Chain {
    var leaves: seq<nat>
    ghost var counts: seq<nat>
    ghost var roots: seq<RootText>
    ghost var asked: seq<seq<nat>>

    method Advance()
      modifies `leaves
      ensures old(leaves) <= leaves
    {
      var more: seq<nat> := *;
      leaves := leaves + more;
    }

    /** A node may lag behind and answer an older count. */
    method GetCommitmentCount() returns (e: Ended<nat>)
      modifies `leaves, `counts
      ensures old(leaves) <= leaves
      ensures e.Done? ==> e.value <= |leaves| && counts == old(counts) + [e.value]
    {
      Advance();
      var fails: bool := *;
      var count: nat := *;
      if fails || count > |leaves| {
        return Threw;
      }
      counts := counts + [count];
      return Done(count);
    }

    method GetMerkleRoot() returns (e: Ended<RootText>)
      modifies `leaves, `roots
      ensures old(leaves) <= leaves
      ensures e.Done? ==> roots == old(roots) + [e.value]
    {
      Advance();
      var fails: bool := *;
      var root: RootText := *;
      if fails {
        return Threw;
      }
      roots := roots + [root];
      return Done(root);
    }

    /** Any truthful entries, in any order, with gaps and repetitions. */
    method GetLedgerEntries(batch: seq<nat>) returns (e: Ended<seq<LedgerEntry>>)
      modifies `leaves, `asked
      ensures old(leaves) <= leaves
      ensures asked == old(asked) + [batch]
      ensures e.Done? ==> Truthful(e.value, leaves)
    {
      Advance();
      asked := asked + [batch];
      var entries: seq<LedgerEntry> := *;
      var fails: bool := *;
      if fails || !Truthful(entries, leaves) {
        return Threw;
      }
      return Done(entries);
    }
  }

  method LedgerKeysForRange(startIndex: nat, endIndex: nat) returns (keys: seq<nat>)
    requires startIndex <= endIndex
    ensures |keys| == endIndex - startIndex
    ensures forall i :: 0 <= i < |keys| ==> keys[i] == startIndex + i
  {
    keys := [];
    var leafIndex := startIndex;
    while leafIndex < endIndex
      invariant startIndex <= leafIndex <= endIndex
      invariant |keys| == leafIndex - startIndex
      invariant forall i :: 0 <= i < |keys| ==> keys[i] == startIndex + i
    {
      keys := keys + [leafIndex];
      leafIndex := leafIndex + 1;
    }
  }

  function Flatten(batches: seq<seq<nat>>): seq<nat> {
    if batches == [] then [] else Flatten(batches[..|batches| - 1]) + batches[|batches| - 1]
  }

  method ChunkLedgerKeys(keys: seq<nat>, batchSize: nat) returns (batches: seq<seq<nat>>)
    requires batchSize > 0
    ensures Flatten(batches) == keys
    ensures forall i :: 0 <= i < |batches| ==> 0 < |batches[i]| <= batchSize
    ensures forall i :: 0 <= i < |batches| - 1 ==> |batches[i]| == batchSize
  {
    batches := [];
    var offset := 0;
    assert keys[..0] == [];
    while offset < |keys|
      invariant Flatten(batches) == if offset < |keys| then keys[..offset] else keys
      invariant forall i :: 0 <= i < |batches| ==> 0 < |batches[i]| <= batchSize
      invariant offset < |keys| + batchSize ==> forall i :: 0 <= i < |batches| - 1 ==> |batches[i]| == batchSize
      invariant offset < |keys| ==> forall i :: 0 <= i < |batches| ==> |batches[i]| == batchSize
      invariant offset < |keys| + batchSize
    {
      var end := if offset + batchSize <= |keys| then offset + batchSize else |keys|;
      var batch := keys[offset..end];
      assert (batches + [batch])[..|batches|] == batches;
      assert keys[..offset] + batch == keys[..end];
      assert keys[..|keys|] == keys;
      batches := batches + [batch];
      offset := offset + batchSize;
    }
  }

  /** Well-formed leaf entries are collected by index; anything else is skipped. */
  method CollectLeafBuffers(entries: seq<LedgerEntry>, before: map<nat, nat>, ghost leaves: seq<nat>)
    returns (byIndex: map<nat, nat>)
    requires Truthful(entries, leaves) && AgreesWith(before, leaves)
    ensures AgreesWith(byIndex, leaves)
    ensures byIndex.Keys == before.Keys + set i | 0 <= i < |entries| && entries[i].LeafEntry? :: entries[i].index
  {
    byIndex := before;
    for k := 0 to |entries|
      invariant AgreesWith(byIndex, leaves)
      invariant byIndex.Keys == before.Keys + set i | 0 <= i < k && entries[i].LeafEntry? :: entries[i].index
    {
      match entries[k]
      case OtherEntry =>
      case LeafEntry(index, bytes) => byIndex := byIndex[index := bytes];
    }
  }

  predicate AgreesWith(byIndex: map<nat, nat>, leaves: seq<nat>) {
    forall index :: index in byIndex ==> index < |leaves| && leaves[index] == byIndex[index]
  }

  /** The range's commitments in order; the first missing leaf rejects. */
  method DecimalCommitmentsInRange(byIndex: map<nat, nat>, startIndex: nat, endIndex: nat) returns (e: Ended<seq<nat>>)
    requires startIndex <= endIndex
    ensures e.Done? <==> forall i :: startIndex <= i < endIndex ==> i in byIndex
    ensures e.Done? || e.Threw?
    ensures e.Done? ==>
              && |e.value| == endIndex - startIndex
              && forall i :: startIndex <= i < endIndex ==>
                   e.value[i - startIndex] == CommitmentBufferToDecimal(byIndex[i])
  {
    var commitments: seq<nat> := [];
    var leafIndex := startIndex;
    while leafIndex < endIndex
      invariant startIndex <= leafIndex <= endIndex
      invariant |commitments| == leafIndex - startIndex
      invariant forall i :: startIndex <= i < leafIndex ==>
                  i in byIndex && commitments[i - startIndex] == CommitmentBufferToDecimal(byIndex[i])
    {
      if leafIndex !in byIndex {
        return Threw;
      }
      commitments := commitments + [CommitmentBufferToDecimal(byIndex[leafIndex])];
      leafIndex := leafIndex + 1;
    }
    return Done(commitments);
  }

  /** The answer holds a leaf entry for every asked key. */
  predicate Covers(entries: seq<LedgerEntry>, batch: seq<nat>) {
    forall i :: 0 <= i < |batch| ==>
      exists j :: 0 <= j < |entries| && entries[j].LeafEntry? && entries[j].index == batch[i]
  }

  /** The indices of a range, in order. */
  ghost function Range(from: nat, to: nat): (indices: seq<nat>)
    ensures |indices| == if from <= to then to - from else 0
    ensures forall i :: 0 <= i < |indices| ==> indices[i] == from + i
  {
    if from >= to then [] else seq(to - from, i requires 0 <= i < to - from => from + i)
  }

  /** The leaves asked for since `before`: exactly these, in order, in batches of at most a hundred. */
  ghost predicate AskedFor(before: seq<seq<nat>>, after: seq<seq<nat>>, indices: seq<nat>) {
    && before <= after
    && Flatten(after[|before|..]) == indices
    && forall i :: |before| <= i < |after| ==> 0 < |after[i]| <= 100
  }

  lemma NothingAsked(asked: seq<seq<nat>>)
    ensures AskedFor(asked, asked, [])
  {
    assert asked[|asked|..] == [];
  }

  /** The commitments of a range of leaves, each its bytes modulo the order of the scalar field. */
  ghost predicate AreCommitments(commitments: seq<nat>, leaves: seq<nat>, from: nat) {
    && from + |commitments| <= |leaves|
    && forall i :: 0 <= i < |commitments| ==>
         commitments[i] == leaves[from + i] % 0x73eda753299d7d483339d80809a1d80553bda402fffe5bfeffffffff00000001
  }

  /**
   A successful read returns exactly the asked range of the chain's commitments, whatever the order and
   repetition of the answers, and the read succeeds whenever every batch was answered in full (`covered`).
   */
  method ReadTreeLeafCommitments(chain: Chain, startIndex: nat, endIndex: nat)
    returns (e: Ended<seq<nat>>, ghost covered: bool)
    modifies chain`leaves, chain`asked
    ensures old(chain.leaves) <= chain.leaves
    ensures covered ==> e.Done?
    ensures e.Done? ==> AskedFor(old(chain.asked), chain.asked, Range(startIndex, endIndex))
    ensures e.Done? && startIndex >= endIndex ==> e.value == []
    ensures e.Done? && startIndex < endIndex ==>
              && endIndex <= |chain.leaves| && e.value == Decimals(chain.leaves)[startIndex..endIndex]
              && AreCommitments(e.value, chain.leaves, startIndex)
  {
    covered := true;
    if startIndex >= endIndex {
      NothingAsked(chain.asked);
      return Done([]), covered;
    }
    var keys := LedgerKeysForRange(startIndex, endIndex);
    var batches := ChunkLedgerKeys(keys, TREE_LEAF_LEDGER_BATCH_SIZE);
    var byIndex: map<nat, nat> := map[];
    for k := 0 to |batches|
      invariant old(chain.leaves) <= chain.leaves
      invariant chain.asked == old(chain.asked) + batches[..k]
      invariant AgreesWith(byIndex, chain.leaves)
      invariant covered ==> forall i :: i in Flatten(batches[..k]) ==> i in byIndex
    {
      var response := chain.GetLedgerEntries(batches[k]);
      if !response.Done? {
        return Threw, false;
      }
      covered := covered && Covers(response.value, batches[k]);
      byIndex := CollectLeafBuffers(response.value, byIndex, chain.leaves);
      assert batches[..k + 1][..k] == batches[..k];
      assert Flatten(batches[..k + 1]) == Flatten(batches[..k]) + batches[k];
    }
    assert batches[..|batches|] == batches;
    assert chain.asked[|old(chain.asked)|..] == batches;
    assert keys == Range(startIndex, endIndex);
    forall i | startIndex <= i < endIndex && covered ensures i in byIndex {
      assert keys[i - startIndex] == i;
      assert i in Flatten(batches);
    }
    e := DecimalCommitmentsInRange(byIndex, startIndex, endIndex);
    if e.Done? {
      assert endIndex - 1 in byIndex;
      assert e.value == Decimals(chain.leaves)[startIndex..endIndex];
    }
  }
}
