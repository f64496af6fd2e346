# Hash-linked block chain engine, in Dafny

This project models the core of a small Node.js block chain service. It covers the `Block` class, which seals a block's identity hash over its fields, and the `BlockChain` class, which does three things:
- creates the chain with a genesis block;
- appends blocks, re-linking each one to the current tail;
- checks the whole chain for stale hashes and broken links.

The model has three modules:

- `Hashing` (hashing.dfy) holds the foreign calls. SHA-256 (`Digest`), `JSON.stringify` (`Serialize`) and JavaScript's number-to-string coercion of the index (`IndexToString`) are constant function values with no definition: arbitrary, but fixed. The transaction is the abstract type `Transaction`. `BlockHash` is the digest of index, preceding hash, timestamp and serialized transaction, concatenated in that order. Every property below therefore holds for every choice of digest and serializer.
- `Chains` (chains.dfy) is the engine on values:
  - `BlockValue` holds a block's five fields;
  - `Seal` is what the `Block` constructor produces;
  - `Link` and `AddBlock` are what `addNewBlock` does;
  - `Valid` is what `checkChainValidity` decides;
  - `Build` is the chain that `create` followed by a sequence of appends produces.
  
  It also holds the lemmas that relate these: appending preserves validity; built chains are exactly the valid chains that start with a genesis block; and lemmas on what the check detects and what it does not.
- `Index` (index.dfy) mirrors the classes of index.js:
  - `Block` is a class whose fields `addNewBlock` overwrites in place.
  - `BlockChain` is a class whose field `blockchain: seq<Block>` holds references to blocks. `create` replaces that sequence and `addNewBlock` extends it.
  - The ghost function `BlockChain.Contents()` gives the blocks' current values, so that method contracts can state their effect with the definitions of `Chains`.

The identity hash is defined once, as `Hashing.BlockHash` over the four committed fields; its input string is `Hashing.HashInput` (the expression at index.js:22-27). `Chains.Recompute` applies it to a block value, and `Index.Block.ComputeHash` applies it to a block object's fields and is proved equal to `Chains.Recompute` of the object's value.

Points where the code decides and a natural reading might differ:

- A block's `index` is not its position. Nothing in the engine sets or checks it. The HTTP controller builds every appended block with `index = this.chain.length`, and `this.chain` is an array that is never grown, so every appended block has index 0 (index.js:86, index.js:117). The model lets a candidate carry any index.
- The genesis block's own hash is never recomputed: the check starts at position 1. `Chains.GenesisFieldsUnchecked` shows that any genesis block with the same stored hash passes. The only protection of block 0 is block 1's link to it (`Chains.ReplacedHashBreaksSuccessor`).
- Appending a block object that is already in the chain re-links that object in place wherever it sits. `Index.AppendSameBlockTwice` appends one new block twice after `create`. Position 1 then points at the hash the block had after its first append, not at the genesis hash, so the check fails unless the digest happens to reproduce those hashes (`Chains.SameBlockTwice`). The HTTP controller always appends a newly constructed block, and for such appends the chain stays valid (`Index.CreatedChainPassesCheck`).
- Removing blocks is detected only in the interior. Truncating the chain from the end is not detected (`Chains.PrefixValid`), and neither is dropping the genesis block (`Chains.DropGenesisValid`). Removing an interior block (`Chains.DeletionDetected`) or swapping two blocks at positions 1 or beyond (`Chains.SwapDetected`) is detected, unless the hashes that the check compares happen to coincide: the removed block's hash with its predecessor's, or the hashes of the two swapped blocks' predecessors.
- The hash input is a plain concatenation of index, preceding hash, timestamp and serialized transaction, with no separators. An edit to a block at position 1 or later that keeps that string unchanged goes undetected whatever the digest (`Chains.SameHashInputUndetected`). An example is moving characters between the end of the timestamp and the start of the serialized transaction: timestamp "T1" with transaction 5 hashes exactly as timestamp "T" with transaction 15 (`Chains.ShiftUndetected`). The same holds for two transactions that `JSON.stringify` serializes alike.
- Before `create`, index.js sets `blockchain` and `difficulty` to the empty string. The model uses the empty sequence, which behaves the same way in `checkChainValidity`: the loop does not run and the answer is true. It uses `Difficulty.Unset` for the difficulty.

## Model

| member | source | states |
|---|---|---|
| `Index.Block.constructor` | index.js:8-19 | stores index, timestamp, transaction and preceding hash, with the preceding hash defaulting to the empty string; the new block is self-consistent (`hash == ComputeHash()`) and its value is `Chains.Seal` of the arguments |
| `Index.Block.ComputeHash` | index.js:21-28 | reads only the four committed fields; equals the value-level recomputation; does not depend on the stored hash |
| `Chains.Recompute` | index.js:21-28 | what `computeHash` returns, on a block value: the digest of index, preceding hash, timestamp and serialized transaction in that order |
| `Chains.RecomputeIgnoresStoredHash` | index.js:21-28 | overwriting the stored hash never changes the recomputed hash; storing the recomputation makes a block self-consistent |
| `Chains.Seal` | index.js:8-19 | a block built from index, timestamp, transaction and preceding hash carries exactly those fields and is self-consistent |
| `Index.BlockChain.constructor` | index.js:32-37 | a chain before `create` has empty id and name, no blocks and an unset difficulty |
| `Index.BlockChain.Create` | index.js:39-44 | sets id and name and difficulty 4; replaces any earlier blocks by exactly one fresh genesis block built from the seed |
| `Index.BlockChain.StartGenesisBlock` | index.js:46-53 | returns a fresh block whose value is the genesis block of the seed |
| `Chains.GenesisBlock` | index.js:46-53 | the genesis block has index 0, the seed's date and transaction, preceding hash "0" and a self-consistent hash |
| `Index.BlockChain.ObtainLatestBlock` | index.js:55-57 | returns the last element of a non-empty chain |
| `Index.BlockChain.AddNewBlock` | index.js:59-63 | the chain is the old one with the candidate pushed on the end; the candidate's preceding hash is the old tail's hash and its hash is resealed over its final fields; index, timestamp, transaction and metadata are unchanged; if the candidate was not already in the chain, the values are exactly `AddBlock` of the old values |
| `Chains.Link` | index.js:60-61 | a re-linked candidate keeps its index, timestamp and transaction, points at the tail's hash and is self-consistent |
| `Chains.AddBlock` | index.js:59-63 | appending grows the chain by exactly one; earlier blocks are unchanged; the new last block links to the old tail's hash, is self-consistent and keeps the candidate's committed fields |
| `Chains.LinkIgnoresCandidateLink` | index.js:59-61 | the preceding hash and hash a candidate carried before the append have no effect on the appended block |
| `Chains.LinkOfLinked` | index.js:60-61 | re-linking a block that already links to its predecessor and is self-consistent gives the same block |
| `Index.BlockChain.CheckChainValidity` | index.js:65-79 | answers true exactly when every block from position 1 on is self-consistent and links to its predecessor's hash; reads the chain without changing it |
| `Chains.Valid` | index.js:65-79 | what `checkChainValidity` decides: every block from position 1 on is self-consistent and links to its predecessor's hash; an empty or one-block chain is always valid |
| `Chains.StaleHashDetected` | index.js:70-72 | a block at position 1 or later whose stored hash is not its recomputation makes the chain invalid |
| `Chains.BrokenLinkDetected` | index.js:74-76 | a block at position 1 or later whose preceding hash differs from its predecessor's hash makes the chain invalid |
| `Chains.FieldTamperDetected` | index.js:70-72 | in a valid chain, editing a committed field of a block at position 1 or later without resealing its hash is detected whenever the edited fields digest differently |
| `Chains.LinkTamperDetected` | index.js:74-76 | in a valid chain, re-pointing the preceding hash of a block at position 1 or later is always detected |
| `Chains.ReplacedHashBreaksSuccessor` | index.js:74-76 | in a valid chain, replacing any block but the last (the genesis block included) by one with a different stored hash is detected at its successor |
| `Chains.GenesisFieldsUnchecked` | index.js:66 | replacing the genesis block by any block with the same stored hash keeps a valid chain valid |
| `Chains.PrefixValid` | index.js:65-79 | every prefix of a valid chain is valid, so truncation is not detected |
| `Chains.DropGenesisValid` | index.js:66 | removing the genesis block of a valid chain leaves a valid chain |
| `Chains.DeletionDetected` | index.js:74-76 | in a valid chain, removing an interior block makes it invalid whenever the removed block's hash differs from its predecessor's |
| `Chains.SwapDetected` | index.js:74-76 | in a valid chain, swapping two blocks at positions 1 or beyond makes it invalid whenever the two positions' predecessors carry different hashes |
| `Chains.SameHashInputUndetected` | index.js:22-76 | in a valid chain, replacing a block at position 1 or later by one with the same stored hash, the same preceding hash and the same hash input string keeps the chain valid, whatever the digest |
| `Chains.ShiftUndetected` | index.js:22-76 | in a valid chain, changing a block's timestamp and transaction so that the timestamp followed by the serialized transaction is the same string keeps the chain valid |
| `Chains.AddBlockPreservesValid` | index.js:59-79 | appending to a valid chain keeps it valid |
| `Chains.Build` | index.js:39-63 | genesis followed by appends gives one block per candidate plus the genesis block, which comes first |
| `Chains.BuildStep` | index.js:59-63 | one more append extends the built chain by one candidate, whatever link the candidate carried |
| `Chains.BuildValid` | index.js:39-79 | every chain produced by genesis and any sequence of appends is valid and starts with a genesis-shaped block |
| `Chains.ValidChainIsBuilt` | index.js:39-79 | every valid chain that starts with a genesis-shaped block is the chain built from its own genesis seed and its own later blocks |
| `Chains.BuiltIffValid` | index.js:39-79 | the chains reachable by `create` and appends are exactly the valid chains that start with a genesis-shaped block |
| `Index.CreateAndAppend` | index.js:39-63 | on objects: a fresh chain under `create` and then `addNewBlock` of a fresh block per candidate holds exactly the values `Build` describes |
| `Index.CreatedChainPassesCheck` | index.js:39-79 | on objects: `checkChainValidity` answers true for every chain made by `create` and any sequence of appends of newly constructed blocks (as `appendNewChild` makes them) |
| `Chains.SameBlockTwice` | index.js:59-76 | a chain whose positions 1 and 2 hold one block re-linked onto itself is valid only if its first hash equals the genesis hash and re-linking reproduces that hash |
| `Index.AppendSameBlockTwice` | index.js:39-76 | on objects: after `create` and appending the same block object twice, `checkChainValidity` answers true exactly when the digest reproduces the genesis hash and then the block's own earlier hash |

## Left out

- The Express application, its routes and `app.listen` (index.js:1-5, 130-141): network I/O and wiring.
- The `MilerCoin` controller (index.js:82-128): the request-body checks of `validateNewChain`, and `createNewChain`, `appendNewChild` and `getChain`. These are HTTP handlers over the global `GlobalChain`. Only their effect on indices is noted above.
- The internals of SHA-256 and of `JSON.stringify`. They are foreign library calls, kept as arbitrary fixed functions. So is the coercion of the index to a string.
- Failures of `JSON.stringify` (cyclic or BigInt payloads throw, `undefined` serializes to `undefined`). The model's serializer is total.
- The timestamp is modelled as a string. A numeric timestamp enters the hash input through its string coercion, which is not modelled separately.
- Collision resistance cannot be stated of an arbitrary digest. The lemmas that need two hashes to differ (`Chains.DeletionDetected`, `Chains.SwapDetected`) or two digests to differ (`Chains.FieldTamperDetected`) take that as a hypothesis. For `Chains.FieldTamperDetected` the hypothesis also rules out edits that keep the hash input string, or the serialization, unchanged; those go undetected with any digest (`Chains.SameHashInputUndetected`).
- Index.BlockChain.ObtainLatestBlock: in index.js, `obtainLatestBlock` returns `undefined` before `create`, and `addNewBlock` then fails on `undefined.hash`. The model requires a created (non-empty) chain for both methods instead of modelling `undefined`.
- Index.BlockChain.AddNewBlock: re-appending a block that is already in the chain also changes the earlier occurrence of that object. The object-level postconditions cover that case, but the value-level statement (`Contents()` equals `AddBlock` of the old contents) is given only for a candidate that is not already in the chain. Such a re-append makes the check fail except under a digest coincidence, as `Index.AppendSameBlockTwice` shows for the simplest case.
- Concurrency: index.js runs each request to completion on one thread, and the model is sequential.
