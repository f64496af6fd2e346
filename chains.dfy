/**
 * The chain engine on values: a block's fields as a record, the sealing and
 * linking steps that the Block constructor and BlockChain.addNewBlock perform,
 * the validity predicate that BlockChain.checkChainValidity decides, and the
 * chains that genesis followed by appends can produce. The classes in module
 * Index are tied to these definitions by their contracts.
 */
module Chains {
  import opened Hashing

  /** The five fields of a block at one moment. */
  datatype BlockValue = BlockValue(
    index: int,
    timestamp: string,
    transaction: Transaction,
    precedingHash: string,
    hash: string)

  /** The caller's data for a genesis block (`genesis.date`, `genesis.transaction`). */
  datatype GenesisSeed = GenesisSeed(date: string, transaction: Transaction)

  /** The sentinel preceding hash of a genesis block. */
  const GenesisPrecedingHash: string := "0"

  /** The hash recomputed from a block's committed fields; the stored hash plays no part. */
  function Recompute(b: BlockValue): string
  {
    BlockHash(b.index, b.precedingHash, b.timestamp, b.transaction)
  }

  /** The stored hash agrees with the recomputation. */
  predicate SelfConsistent(b: BlockValue)
  {
    b.hash == Recompute(b)
  }

  /** A block as the Block constructor leaves it: fields stored, hash sealed. */
  function Seal(index: int, timestamp: string, transaction: Transaction, precedingHash: string): (b: BlockValue)
    ensures b.index == index && b.timestamp == timestamp && b.transaction == transaction
    ensures b.precedingHash == precedingHash
    ensures SelfConsistent(b)
  {
    BlockValue(index, timestamp, transaction, precedingHash, BlockHash(index, precedingHash, timestamp, transaction))
  }

  /** The genesis block that `create` builds from its seed. */
  function GenesisBlock(g: GenesisSeed): (b: BlockValue)
    ensures b.index == 0 && b.timestamp == g.date && b.transaction == g.transaction
    ensures b.precedingHash == GenesisPrecedingHash
    ensures SelfConsistent(b)
  {
    Seal(0, g.date, g.transaction, GenesisPrecedingHash)
  }

  /**
   * A candidate after addNewBlock has re-linked it: first its preceding hash
   * is set to the tail's hash, then its hash is recomputed.
   */
  function Link(candidate: BlockValue, tailHash: string): (b: BlockValue)
    ensures b.index == candidate.index && b.timestamp == candidate.timestamp
    ensures b.transaction == candidate.transaction
    ensures b.precedingHash == tailHash
    ensures SelfConsistent(b)
  {
    var linked := candidate.(precedingHash := tailHash);
    linked.(hash := Recompute(linked))
  }

  /** The chain after addNewBlock(candidate) on chain `s`. */
  function AddBlock(s: seq<BlockValue>, candidate: BlockValue): (r: seq<BlockValue>)
    requires s != []
    ensures |r| == |s| + 1
    ensures r[..|s|] == s
    ensures r[|s|].index == candidate.index && r[|s|].timestamp == candidate.timestamp
    ensures r[|s|].transaction == candidate.transaction
    ensures r[|s|].precedingHash == s[|s| - 1].hash
    ensures SelfConsistent(r[|s|])
  {
    s + [Link(candidate, s[|s| - 1].hash)]
  }

  /** Position i passes both checks of checkChainValidity. */
  predicate LinkedAt(s: seq<BlockValue>, i: int)
    requires 1 <= i < |s|
  {
    SelfConsistent(s[i]) && s[i].precedingHash == s[i - 1].hash
  }

  /**
   * What checkChainValidity decides: every position from 1 on is
   * self-consistent and links to its predecessor. Position 0 is never
   * recomputed, so an empty or one-block chain is valid.
   */
  predicate Valid(s: seq<BlockValue>)
    ensures |s| <= 1 ==> Valid(s)
  {
    forall i :: 1 <= i < |s| ==> LinkedAt(s, i)
  }

  /** A block shaped like the one `create` builds, whatever its seed. */
  predicate IsGenesis(b: BlockValue)
  {
    b.index == 0 && b.precedingHash == GenesisPrecedingHash && SelfConsistent(b)
  }

  /** The seed a genesis-shaped block was built from. */
  function SeedOf(b: BlockValue): GenesisSeed
  {
    GenesisSeed(b.timestamp, b.transaction)
  }

  /** The chain that `create(_, _, g)` followed by addNewBlock of each candidate, in order, produces. */
  function Build(g: GenesisSeed, candidates: seq<BlockValue>): (r: seq<BlockValue>)
    ensures |r| == |candidates| + 1
    ensures r[0] == GenesisBlock(g)
    decreases |candidates|
  {
    if candidates == [] then [GenesisBlock(g)]
    else AddBlock(Build(g, candidates[..|candidates| - 1]), candidates[|candidates| - 1])
  }

  // ---------------------------------------------------------------------
  // Properties of the hash

  /** The recomputation depends on the four committed fields only, never on the stored hash. */
  lemma RecomputeIgnoresStoredHash(b: BlockValue, h: string)
    ensures Recompute(b.(hash := h)) == Recompute(b)
    ensures SelfConsistent(b.(hash := Recompute(b)))
  {
  }

  /** Linking ignores whatever preceding hash and hash the candidate carried before. */
  lemma LinkIgnoresCandidateLink(c: BlockValue, c': BlockValue, tailHash: string)
    requires c.index == c'.index && c.timestamp == c'.timestamp && c.transaction == c'.transaction
    ensures Link(c, tailHash) == Link(c', tailHash)
  {
  }

  // ---------------------------------------------------------------------
  // Append and construction preserve validity

  /** Appending to a valid chain gives a valid chain. */
  lemma AddBlockPreservesValid(s: seq<BlockValue>, candidate: BlockValue)
    requires s != [] && Valid(s)
    ensures Valid(AddBlock(s, candidate))
  {
    var r := AddBlock(s, candidate);
    forall i | 1 <= i < |r|
      ensures LinkedAt(r, i)
    {
      if i < |s| {
        assert r[i] == s[i] && r[i - 1] == s[i - 1];
        assert LinkedAt(s, i);
      }
    }
  }

  /** Every chain produced by genesis and a sequence of appends is valid and starts with a genesis block. */
  lemma {:induction false} BuildValid(g: GenesisSeed, candidates: seq<BlockValue>)
    ensures Valid(Build(g, candidates))
    ensures IsGenesis(Build(g, candidates)[0])
    decreases |candidates|
  {
    if candidates != [] {
      BuildValid(g, candidates[..|candidates| - 1]);
      AddBlockPreservesValid(Build(g, candidates[..|candidates| - 1]), candidates[|candidates| - 1]);
    }
  }

  /** One more append extends Build by one candidate; only the candidate's committed fields matter. */
  lemma BuildStep(g: GenesisSeed, candidates: seq<BlockValue>, k: int, v: BlockValue)
    requires 0 <= k < |candidates|
    requires v.index == candidates[k].index && v.timestamp == candidates[k].timestamp
    requires v.transaction == candidates[k].transaction
    ensures Build(g, candidates[..k + 1]) == AddBlock(Build(g, candidates[..k]), v)
  {
    assert candidates[..k + 1][..k] == candidates[..k];
    var s := Build(g, candidates[..k]);
    LinkIgnoresCandidateLink(v, candidates[k], s[|s| - 1].hash);
  }

  /** A linked, self-consistent block is its own re-linking. */
  lemma LinkOfLinked(s: seq<BlockValue>, i: int)
    requires 1 <= i < |s| && LinkedAt(s, i)
    ensures Link(s[i], s[i - 1].hash) == s[i]
  {
  }

  /**
   * Conversely, every valid chain that starts with a genesis-shaped block is
   * what genesis followed by appending its own blocks produces.
   */
  lemma {:induction false} ValidChainIsBuilt(s: seq<BlockValue>)
    requires s != [] && IsGenesis(s[0]) && Valid(s)
    ensures Build(SeedOf(s[0]), s[1..]) == s
    decreases |s|
  {
    if |s| > 1 {
      var n := |s|;
      var p := s[..n - 1];
      assert Valid(p) by {
        forall i | 1 <= i < |p|
          ensures LinkedAt(p, i)
        {
          assert LinkedAt(s, i);
        }
      }
      ValidChainIsBuilt(p);
      assert s[1..][..n - 2] == p[1..];
      assert LinkedAt(s, n - 1);
      LinkOfLinked(s, n - 1);
      assert s == p + [s[n - 1]];
    }
  }

  /**
   * The chains reachable by genesis and appends are exactly the valid chains
   * that start with a genesis-shaped block.
   */
  lemma BuiltIffValid(s: seq<BlockValue>)
    ensures (exists g, candidates :: Build(g, candidates) == s) <==> (s != [] && IsGenesis(s[0]) && Valid(s))
  {
    if exists g, candidates :: Build(g, candidates) == s {
      var g, candidates :| Build(g, candidates) == s;
      BuildValid(g, candidates);
    }
    if s != [] && IsGenesis(s[0]) && Valid(s) {
      ValidChainIsBuilt(s);
    }
  }

  // ---------------------------------------------------------------------
  // What the validity check detects and what it does not

  /** A block from position 1 on whose stored hash disagrees with its recomputation makes the chain invalid. */
  lemma StaleHashDetected(s: seq<BlockValue>, k: int)
    requires 1 <= k < |s| && !SelfConsistent(s[k])
    ensures !Valid(s)
  {
    assert !LinkedAt(s, k);
  }

  /** A block from position 1 on whose preceding hash is not its predecessor's hash makes the chain invalid. */
  lemma BrokenLinkDetected(s: seq<BlockValue>, k: int)
    requires 1 <= k < |s| && s[k].precedingHash != s[k - 1].hash
    ensures !Valid(s)
  {
    assert !LinkedAt(s, k);
  }

  /**
   * Editing a committed field of a block at position 1 or later, without
   * recomputing its hash, is detected whenever the digest of the edited fields
   * differs from the original one.
   */
  lemma FieldTamperDetected(s: seq<BlockValue>, k: int, forged: BlockValue)
    requires Valid(s) && 1 <= k < |s|
    requires forged.hash == s[k].hash
    requires Recompute(forged) != Recompute(s[k])
    ensures !Valid(s[k := forged])
  {
    assert LinkedAt(s, k);
    StaleHashDetected(s[k := forged], k);
  }

  /** Re-pointing the preceding hash of a block at position 1 or later is always detected. */
  lemma LinkTamperDetected(s: seq<BlockValue>, k: int, p: string)
    requires Valid(s) && 1 <= k < |s| && p != s[k].precedingHash
    ensures !Valid(s[k := s[k].(precedingHash := p)])
  {
    assert LinkedAt(s, k);
    BrokenLinkDetected(s[k := s[k].(precedingHash := p)], k);
  }

  /**
   * Replacing any block but the last, the genesis included, by one with a
   * different stored hash breaks the link of its successor.
   */
  lemma ReplacedHashBreaksSuccessor(s: seq<BlockValue>, k: int, b: BlockValue)
    requires Valid(s) && 0 <= k < |s| - 1 && b.hash != s[k].hash
    ensures !Valid(s[k := b])
  {
    assert LinkedAt(s, k + 1);
    BrokenLinkDetected(s[k := b], k + 1);
  }

  /** The genesis block's own fields are never checked: only its stored hash matters. */
  lemma GenesisFieldsUnchecked(s: seq<BlockValue>, b: BlockValue)
    requires Valid(s) && s != [] && b.hash == s[0].hash
    ensures Valid(s[0 := b])
  {
    var t := s[0 := b];
    forall i | 1 <= i < |t|
      ensures LinkedAt(t, i)
    {
      assert LinkedAt(s, i);
    }
  }

  /** Every prefix of a valid chain is valid: removing blocks from the end is not detected. */
  lemma PrefixValid(s: seq<BlockValue>, n: int)
    requires Valid(s) && 0 <= n <= |s|
    ensures Valid(s[..n])
  {
    var t := s[..n];
    forall i | 1 <= i < |t|
      ensures LinkedAt(t, i)
    {
      assert LinkedAt(s, i);
    }
  }

  /** Removing the genesis block is not detected either: the new first block is never checked. */
  lemma DropGenesisValid(s: seq<BlockValue>)
    requires Valid(s) && s != []
    ensures Valid(s[1..])
  {
    var t := s[1..];
    forall i | 1 <= i < |t|
      ensures LinkedAt(t, i)
    {
      assert LinkedAt(s, i + 1);
    }
  }

  /**
   * A three-block chain whose positions 1 and 2 hold the same block, which
   * was re-linked from hash h1 back onto itself. It is valid only when h1 is
   * the genesis hash and the block's new hash is h1 again.
   */
  lemma SameBlockTwice(s: seq<BlockValue>, c: BlockValue, h1: string)
    requires |s| == 3 && s[1] == s[2]
    requires s[1].index == c.index && s[1].timestamp == c.timestamp && s[1].transaction == c.transaction
    requires s[1].precedingHash == h1 && SelfConsistent(s[1])
    ensures Valid(s) <==> h1 == s[0].hash && Recompute(Link(c, h1)) == h1
  {
    assert Recompute(Link(c, h1)) == s[1].hash;
    assert Valid(s) <==> LinkedAt(s, 1) && LinkedAt(s, 2);
  }

  /**
   * Editing a block at position 1 or later so that its hash input string is
   * unchanged passes the check whatever the digest: the input is a plain
   * concatenation, and neither the concatenation nor the serializer needs to
   * be injective.
   */
  lemma SameHashInputUndetected(s: seq<BlockValue>, k: int, forged: BlockValue)
    requires Valid(s) && 1 <= k < |s|
    requires forged.hash == s[k].hash && forged.precedingHash == s[k].precedingHash
    requires HashInput(forged.index, forged.precedingHash, forged.timestamp, forged.transaction)
          == HashInput(s[k].index, s[k].precedingHash, s[k].timestamp, s[k].transaction)
    ensures Valid(s[k := forged])
  {
    var t := s[k := forged];
    forall i | 1 <= i < |t|
      ensures LinkedAt(t, i)
    {
      assert LinkedAt(s, i);
    }
  }

  /**
   * Moving characters between the end of the timestamp and the start of the
   * serialized transaction (timestamp "T1" with transaction 5 against
   * timestamp "T" with transaction 15) leaves the hash input, and so the
   * check, unchanged.
   */
  lemma ShiftUndetected(s: seq<BlockValue>, k: int, ts: string, tx: Transaction)
    requires Valid(s) && 1 <= k < |s|
    requires ts + Serialize(tx) == s[k].timestamp + Serialize(s[k].transaction)
    ensures Valid(s[k := s[k].(timestamp := ts, transaction := tx)])
  {
    var b := s[k];
    var p := IndexToString(b.index) + b.precedingHash;
    assert HashInput(b.index, b.precedingHash, ts, tx) == p + (ts + Serialize(tx));
    assert HashInput(b.index, b.precedingHash, b.timestamp, b.transaction)
        == p + (b.timestamp + Serialize(b.transaction));
    SameHashInputUndetected(s, k, b.(timestamp := ts, transaction := tx));
  }

  /**
   * Removing an interior block is detected unless the hash of the block
   * before it equals the hash of the removed block.
   */
  lemma DeletionDetected(s: seq<BlockValue>, k: int)
    requires Valid(s) && 1 <= k < |s| - 1
    requires s[k - 1].hash != s[k].hash
    ensures !Valid(s[..k] + s[k + 1..])
  {
    var t := s[..k] + s[k + 1..];
    assert t[k] == s[k + 1] && t[k - 1] == s[k - 1];
    assert LinkedAt(s, k + 1);
    BrokenLinkDetected(t, k);
  }

  /**
   * Swapping two blocks, both at position 1 or beyond, is detected unless
   * the predecessors of the two positions carry the same hash.
   */
  lemma SwapDetected(s: seq<BlockValue>, j: int, k: int)
    requires Valid(s) && 1 <= j < k < |s|
    requires s[j - 1].hash != s[k - 1].hash
    ensures !Valid(s[j := s[k]][k := s[j]])
  {
    var t := s[j := s[k]][k := s[j]];
    assert t[j] == s[k] && t[j - 1] == s[j - 1];
    assert LinkedAt(s, k);
    BrokenLinkDetected(t, j);
  }
}
