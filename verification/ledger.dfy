/** The ledger's records and its two hash functions: the digest of one
    transaction and the digest of a block header. */
module Ledger {
  import opened GoStrings

  /** Go's `float64` transfer amount. The model never computes with it; it is
      only ever rendered to text by `Primitives.formatFloat`. */
  type Amount = real

  datatype Transaction = Transaction(sender: string, recipient: string, amount: Amount)

  /** A block as the Go struct holds it. `hash` and `merkleRoot` are stored
      fields, so nothing forces them to agree with the rest of the block. */
  datatype Block = Block(
    index: int,
    timestamp: string,
    transactions: seq<Transaction>,
    nonce: int,
    prevHash: string,
    hash: string,
    merkleRoot: string)

  datatype Blockchain = Blockchain(blocks: seq<Block>)

  /** Library code the ledger calls but the model does not reimplement:
      SHA-256 followed by lowercase hex encoding, and `fmt.Sprintf("%f", _)`.
      Every result below holds whichever functions these are. */
  datatype Primitives = Primitives(sha256Hex: string -> string, formatFloat: Amount -> string)

  /** Go's zero value `Block{}`. */
  const ZeroBlock := Block(0, "", [], 0, "", "", "")

  /** Ways an operation of the ledger stops without a result. */
  datatype Fault =
    | MerkleIndexOutOfRange       // calculateMerkleRoot reads past the end of its list (a panic)
    | EmptyChainIndexOutOfRange   // the mine handler reads the last block of an empty chain (a panic)
    | NonceBudgetExhausted        // the bounded nonce search gave up (see MineBlock)

  /** The text `Transaction.Hash` digests: sender, recipient and formatted
      amount, back to back with no separator. */
  function TxRecord(p: Primitives, t: Transaction): string {
    t.sender + t.recipient + p.formatFloat(t.amount)
  }

  /** `Transaction.Hash`. */
  function TxHash(p: Primitives, t: Transaction): string {
    p.sha256Hex(TxRecord(p, t))
  }

  /** The text `calculateHash` digests: the decimal index, timestamp, Merkle
      root, previous hash and decimal nonce, back to back with no separator.
      Nothing else of the block (its transactions, its stored hash) appears. */
  function BlockRecord(b: Block): string {
    Itoa(b.index) + b.timestamp + b.merkleRoot + b.prevHash + Itoa(b.nonce)
  }

  /** Where each field sits in the block record: the decimal index first, the
      decimal nonce last, and the three strings in between. */
  lemma BlockRecordLayout(b: Block)
    ensures var r := BlockRecord(b);
      && |r| == |Itoa(b.index)| + |b.timestamp| + |b.merkleRoot| + |b.prevHash| + |Itoa(b.nonce)|
      && r[..|Itoa(b.index)|] == Itoa(b.index)
      && r[|Itoa(b.index)|..|r| - |Itoa(b.nonce)|] == b.timestamp + b.merkleRoot + b.prevHash
      && r[|r| - |Itoa(b.nonce)|..] == Itoa(b.nonce)
  {
  }

  /** `calculateHash`. */
  function BlockHash(p: Primitives, b: Block): string {
    p.sha256Hex(BlockRecord(b))
  }

  /** The block hash the miner computes once it has set the nonce to `nonce`. */
  function HashAtNonce(p: Primitives, b: Block, nonce: int): string {
    BlockHash(p, b.(nonce := nonce))
  }

  /** Sender and recipient enter the transaction digest only through their
      concatenation, so moving characters across the boundary is invisible. */
  lemma TxHashSeesOnlyConcatenation(p: Primitives, t: Transaction, u: Transaction)
    requires t.sender + t.recipient == u.sender + u.recipient
    requires t.amount == u.amount
    ensures TxHash(p, t) == TxHash(p, u)
  {
  }

  /** Two different transactions with the same digest, whatever SHA-256 is. */
  lemma TxHashCollision(p: Primitives, a: Amount)
    ensures Transaction("ab", "c", a) != Transaction("a", "bc", a)
    ensures TxHash(p, Transaction("ab", "c", a)) == TxHash(p, Transaction("a", "bc", a))
  {
    assert "ab" + "c" == "a" + "bc";
    assert Transaction("ab", "c", a).sender != Transaction("a", "bc", a).sender;
  }

  /** The block hash reads the five header fields only: the transactions and
      the stored hash do not enter it. */
  lemma BlockHashReadsHeaderOnly(p: Primitives, b: Block, c: Block)
    requires b.index == c.index && b.timestamp == c.timestamp && b.nonce == c.nonce
    requires b.merkleRoot == c.merkleRoot && b.prevHash == c.prevHash
    ensures BlockHash(p, b) == BlockHash(p, c)
  {
  }

  /** Because the header is concatenated without separators, a block with index
      1 stamped "2x" and one with index 12 stamped "x" hash alike. */
  lemma BlockRecordCollision(b: Block)
    ensures b.(index := 1, timestamp := "2x") != b.(index := 12, timestamp := "x")
    ensures BlockRecord(b.(index := 1, timestamp := "2x")) == BlockRecord(b.(index := 12, timestamp := "x"))
  {
  }

  /** Each nonce the miner tries gives a record it has not hashed before:
      blocks that differ only in their nonce have different records. */
  lemma DistinctNoncesDistinctRecords(b: Block, j: int, k: int)
    requires j != k
    ensures BlockRecord(b.(nonce := j)) != BlockRecord(b.(nonce := k))
  {
    var front := Itoa(b.index) + b.timestamp + b.merkleRoot + b.prevHash;
    if BlockRecord(b.(nonce := j)) == BlockRecord(b.(nonce := k)) {
      BlockRecordLayout(b.(nonce := j));
      BlockRecordLayout(b.(nonce := k));
      ItoaInjective(j, k);
    }
  }
}
