/**
 * The foreign collaborators of the chain engine: the SHA-256 digest of
 * crypto-js, JSON.stringify, and JavaScript's coercion of a number to a
 * string. None of their internals is modelled. Each is a constant function
 * value with no definition: arbitrary, but fixed for the whole program, which
 * is exactly the determinism the engine relies on. Every property proved in
 * this project therefore holds for every choice of these functions.
 */
module Hashing {

  /** The application payload of a block (any JSON value in the original). */
  type Transaction(==)

  /** sha256(...).toString(): the digest of a string, as a hex string. */
  const Digest: string -> string

  /** JSON.stringify of a transaction. */
  const Serialize: Transaction -> string

  /** The number-to-string coercion that `index + precedingHash` performs. */
  const IndexToString: int -> string

  /**
   * The string whose digest is a block's identity: index, preceding hash,
   * timestamp and serialized transaction, concatenated in that order.
   */
  function HashInput(index: int, precedingHash: string, timestamp: string, transaction: Transaction): string
  {
    IndexToString(index) + precedingHash + timestamp + Serialize(transaction)
  }

  /** The identity hash of a block with the given committed fields. */
  function BlockHash(index: int, precedingHash: string, timestamp: string, transaction: Transaction): string
  {
    Digest(HashInput(index, precedingHash, timestamp, transaction))
  }
}
