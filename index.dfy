/**
 * The two classes of the chain engine. A Block is an object whose fields
 * addNewBlock overwrites in place; a BlockChain holds references to blocks
 * in the sequence `blockchain`, which `create` replaces and addNewBlock
 * extends. The ghost function Contents gives the values of those blocks, so
 * that the contracts can be stated with the definitions of module Chains.
 */
module Index {
  import opened Hashing
  import opened Chains

  /** The difficulty field: the empty string until `create`, then a number that nothing consults. */
  datatype Difficulty = Unset | Level(level: int)

  /** The difficulty `create` records. */
  const CreatedDifficulty: int := 4

  class Block {
    var index: int
    var timestamp: string
    var transaction: Transaction
    var precedingHash: string
    var hash: string

    /** The current fields of this block, as a value. */
    function Value(): BlockValue
      reads this
    {
      BlockValue(index, timestamp, transaction, precedingHash, hash)
    }

    /** Stores the fields and seals the hash over them; the preceding hash defaults to the empty string. */
    constructor (index: int, timestamp: string, transaction: Transaction, precedingHash: string := "")
      ensures this.index == index && this.timestamp == timestamp && this.transaction == transaction
      ensures this.precedingHash == precedingHash
      ensures hash == ComputeHash()
      ensures Value() == Seal(index, timestamp, transaction, precedingHash)
    {
      this.index := index;
      this.timestamp := timestamp;
      this.transaction := transaction;
      this.precedingHash := precedingHash;
      this.hash := BlockHash(index, precedingHash, timestamp, transaction);
    }

    /** The digest over index, preceding hash, timestamp and serialized transaction; the stored hash is not read. */
    function ComputeHash(): (h: string)
      reads this
      ensures h == Recompute(Value())
      ensures h == Recompute(Value().(hash := ""))
    {
      BlockHash(index, precedingHash, timestamp, transaction)
    }
  }

  /** The values of a sequence of blocks, position by position. */
  ghost function Snapshot(bs: seq<Block>): (vs: seq<BlockValue>)
    reads bs
    ensures |vs| == |bs|
    ensures forall i :: 0 <= i < |bs| ==> vs[i] == bs[i].Value()
  {
    if bs == [] then [] else Snapshot(bs[..|bs| - 1]) + [bs[|bs| - 1].Value()]
  }

  class BlockChain {
    var id: string
    var name: string
    var blockchain: seq<Block>
    var difficulty: Difficulty

    /** The values of the blocks in the chain, in order. */
    ghost function Contents(): seq<BlockValue>
      reads this, blockchain
    {
      Snapshot(blockchain)
    }

    /** A chain before `create`: empty metadata and no blocks. */
    constructor ()
      ensures id == "" && name == "" && blockchain == [] && difficulty == Unset
    {
      id := "";
      name := "";
      blockchain := [];
      difficulty := Unset;
    }

    /** Replaces any earlier state by one fresh genesis block built from the seed. */
    method Create(id: string, name: string, genesis: GenesisSeed)
      modifies this
      ensures this.id == id && this.name == name && difficulty == Level(CreatedDifficulty)
      ensures |blockchain| == 1 && fresh(blockchain[0])
      ensures Contents() == [GenesisBlock(genesis)]
    {
      this.id := id;
      this.name := name;
      var genesisBlock := StartGenesisBlock(genesis);
      blockchain := [genesisBlock];
      difficulty := Level(CreatedDifficulty);
    }

    /** A fresh block at index 0 with the seed's date and transaction, linked to the sentinel "0". */
    method StartGenesisBlock(genesis: GenesisSeed) returns (b: Block)
      ensures fresh(b)
      ensures b.Value() == GenesisBlock(genesis)
    {
      b := new Block(0, genesis.date, genesis.transaction, GenesisPrecedingHash);
    }

    /** The last block of the chain; there is one once `create` has run. */
    method ObtainLatestBlock() returns (b: Block)
      requires blockchain != []
      ensures b == blockchain[|blockchain| - 1]
    {
      b := blockchain[|blockchain| - 1];
    }

    /**
     * Links the candidate to the current tail, reseals its hash and pushes
     * it. The candidate object itself is changed; no other block is.
     */
    method AddNewBlock(newBlock: Block)
      requires blockchain != []
      modifies this, newBlock
      ensures blockchain == old(blockchain) + [newBlock]
      ensures newBlock.precedingHash == old(blockchain[|blockchain| - 1].hash)
      ensures newBlock.hash == newBlock.ComputeHash()
      ensures newBlock.index == old(newBlock.index) && newBlock.timestamp == old(newBlock.timestamp)
      ensures newBlock.transaction == old(newBlock.transaction)
      ensures id == old(id) && name == old(name) && difficulty == old(difficulty)
      ensures newBlock !in old(blockchain) ==> Contents() == AddBlock(old(Contents()), old(newBlock.Value()))
    {
      var latest := ObtainLatestBlock();
      newBlock.precedingHash := latest.hash;
      newBlock.hash := newBlock.ComputeHash();
      blockchain := blockchain + [newBlock];
      if newBlock !in old(blockchain) {
        ghost var s := old(Contents());
        ghost var r := AddBlock(s, old(newBlock.Value()));
        forall i | 0 <= i < |blockchain|
          ensures Contents()[i] == r[i]
        {
          if i < |s| {
            assert blockchain[i] == old(blockchain)[i];
            assert r[i] == s[i];
          }
        }
      }
    }

    /**
     * Scans positions 1 onward and answers false at the first block whose
     * hash is stale or whose preceding hash is not its predecessor's hash.
     */
    method CheckChainValidity() returns (valid: bool)
      ensures valid == Valid(Contents())
    {
      var i := 1;
      while i < |blockchain|
        invariant forall j :: 1 <= j < i && j < |blockchain| ==> LinkedAt(Contents(), j)
      {
        var currentBlock := blockchain[i];
        var precedingBlock := blockchain[i - 1];
        if currentBlock.hash != currentBlock.ComputeHash() {
          assert !LinkedAt(Contents(), i);
          return false;
        }
        if currentBlock.precedingHash != precedingBlock.hash {
          assert !LinkedAt(Contents(), i);
          return false;
        }
        i := i + 1;
      }
      return true;
    }
  }

  /**
   * A chain created and then extended with a fresh block for each candidate
   * holds exactly the values Build describes.
   */
  method CreateAndAppend(id: string, name: string, genesis: GenesisSeed, candidates: seq<BlockValue>)
    returns (chain: BlockChain)
    ensures fresh(chain)
    ensures chain.Contents() == Build(genesis, candidates)
  {
    chain := new BlockChain();
    chain.Create(id, name, genesis);
    var k := 0;
    assert candidates[..0] == [];
    while k < |candidates|
      invariant 0 <= k <= |candidates|
      invariant fresh(chain) && chain.blockchain != []
      invariant chain.Contents() == Build(genesis, candidates[..k])
    {
      var c := candidates[k];
      var b := new Block(c.index, c.timestamp, c.transaction);
      ghost var before, v := chain.Contents(), b.Value();
      BuildStep(genesis, candidates, k, v);
      assert b !in chain.blockchain;
      chain.AddNewBlock(b);
      assert chain.Contents() == AddBlock(before, v);
      k := k + 1;
    }
    assert candidates[..k] == candidates;
  }

  /**
   * Any chain made by `create` and a sequence of appends of newly
   * constructed blocks (as the HTTP controller makes them) passes
   * checkChainValidity.
   */
  method CreatedChainPassesCheck(id: string, name: string, genesis: GenesisSeed, candidates: seq<BlockValue>)
    returns (valid: bool)
    ensures valid
  {
    var chain := CreateAndAppend(id, name, genesis, candidates);
    valid := chain.CheckChainValidity();
    BuildValid(genesis, candidates);
  }

  /**
   * Appending the same block object twice. The second append re-links the
   * object that already sits at position 1, so that position now points at
   * the hash the block had after the first append instead of the genesis
   * hash. The check passes only if the digest happens to reproduce the
   * genesis hash and then its own input.
   */
  method AppendSameBlockTwice(id: string, name: string, genesis: GenesisSeed, c: BlockValue)
    returns (valid: bool)
    ensures var h1 := Recompute(Link(c, GenesisBlock(genesis).hash));
            var h2 := Recompute(Link(c, h1));
            valid <==> h1 == GenesisBlock(genesis).hash && h2 == h1
  {
    var chain := new BlockChain();
    chain.Create(id, name, genesis);
    var b := new Block(c.index, c.timestamp, c.transaction);
    chain.AddNewBlock(b);
    ghost var h1 := b.hash;
    chain.AddNewBlock(b);
    valid := chain.CheckChainValidity();
    ghost var s := chain.Contents();
    assert s[1] == b.Value() && s[2] == b.Value();
    SameBlockTwice(s, c, h1);
  }
}
