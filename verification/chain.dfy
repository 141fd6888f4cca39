/** The chain: `addBlock`, and the chain-state logic of the two request
    handlers (append a transaction, mine the next block), as operations on an
    immutable `Blockchain` value. */
module Chain {
  import opened Wrappers
  import opened Ledger
  import opened Merkle
  import opened ProofOfWork

  /** The mine handler always mines at difficulty 4. */
  const Difficulty: nat := 4

  /** Every block's index is its position. */
  predicate IndexedByPosition(bc: Blockchain) {
    forall i :: 0 <= i < |bc.blocks| ==> bc.blocks[i].index == i
  }

  /** Every block after the first records its predecessor's hash. */
  predicate Linked(bc: Blockchain) {
    forall i :: 1 <= i < |bc.blocks| ==> bc.blocks[i].prevHash == bc.blocks[i - 1].hash
  }

  /** Every block after the first stores the hash of its own header. The
      first block is the zero block the transaction handler creates, whose
      stored hash is empty. */
  predicate Sealed(p: Primitives, bc: Blockchain) {
    forall i :: 1 <= i < |bc.blocks| ==> bc.blocks[i].hash == BlockHash(p, bc.blocks[i])
  }

  /** What the two handlers keep true of the chain. */
  predicate WellFormed(p: Primitives, bc: Blockchain) {
    && IndexedByPosition(bc)
    && Linked(bc)
    && Sealed(p, bc)
    && (|bc.blocks| > 0 ==> bc.blocks[0].prevHash == "")
  }

  /** `Blockchain.addBlock`: link the block to the current last block (an
      empty chain leaves its previous hash as it is), recompute its hash, and
      append it. */
  function AddBlock(p: Primitives, bc: Blockchain, block: Block): (r: Blockchain)
    ensures |r.blocks| == |bc.blocks| + 1
    ensures r.blocks[..|bc.blocks|] == bc.blocks
    ensures var added := r.blocks[|bc.blocks|];
      && added.prevHash == (if |bc.blocks| == 0 then block.prevHash else bc.blocks[|bc.blocks| - 1].hash)
      && added.hash == BlockHash(p, added)
      && added.(prevHash := block.prevHash, hash := block.hash) == block
  {
    var linked := if |bc.blocks| > 0 then block.(prevHash := bc.blocks[|bc.blocks| - 1].hash) else block;
    Blockchain(bc.blocks + [linked.(hash := BlockHash(p, linked))])
  }

  /** Appending with `addBlock` keeps the chain linked and sealed, and keeps
      indices equal to positions when the block's index is the old length. */
  lemma AddBlockPreservesInvariants(p: Primitives, bc: Blockchain, block: Block)
    requires WellFormed(p, bc)
    requires block.index == |bc.blocks|
    requires |bc.blocks| == 0 ==> block.prevHash == ""
    ensures WellFormed(p, AddBlock(p, bc, block))
  {
  }

  /** The transaction handler: on an empty chain first append a zero block,
      then add the transaction to the last block's list. */
  function AppendTransaction(bc: Blockchain, tx: Transaction): (r: Blockchain)
    ensures |r.blocks| == if |bc.blocks| == 0 then 1 else |bc.blocks|
    ensures |bc.blocks| == 0 ==> r.blocks[0] == ZeroBlock.(transactions := [tx])
    ensures |bc.blocks| > 0 ==>
      && r.blocks[..|bc.blocks| - 1] == bc.blocks[..|bc.blocks| - 1]
      && var last := bc.blocks[|bc.blocks| - 1];
         r.blocks[|bc.blocks| - 1] == last.(transactions := last.transactions + [tx])
  {
    var blocks := if |bc.blocks| == 0 then [ZeroBlock] else bc.blocks;
    var last := blocks[|blocks| - 1];
    Blockchain(blocks[..|blocks| - 1] + [last.(transactions := last.transactions + [tx])])
  }

  /** Appending a transaction changes no block's header or stored hash, so
      the chain stays well formed. (The last block's stored Merkle root is
      not recomputed and goes stale; `WellFormed` does not speak of it.) */
  lemma AppendTransactionPreservesInvariants(p: Primitives, bc: Blockchain, tx: Transaction)
    requires WellFormed(p, bc)
    ensures WellFormed(p, AppendTransaction(bc, tx))
  {
  }

  /** The mine handler: build a block whose index is the chain's length,
      stamped `now`, carrying the last block's transactions; mine it at
      difficulty 4; then append it with `addBlock`. On an empty chain the Go
      handler reads `blocks[-1]` and panics. The mined nonce passes the
      difficulty against the header as mined, with an empty previous hash;
      `addBlock` then links the block and recomputes its hash, which need no
      longer pass. */
  method MineNext(p: Primitives, bc: Blockchain, now: string, budget: nat) returns (r: Result<Blockchain, Fault>)
    ensures r == Err(EmptyChainIndexOutOfRange) <==> |bc.blocks| == 0
    ensures |bc.blocks| > 0 ==>
      (r == Err(MerkleIndexOutOfRange) <==> |bc.blocks[|bc.blocks| - 1].transactions| >= 3)
    ensures r == Err(NonceBudgetExhausted) ==>
      && |bc.blocks| > 0
      && var txs := bc.blocks[|bc.blocks| - 1].transactions;
         var header := ZeroBlock.(index := |bc.blocks|, timestamp := now, transactions := txs,
                                  merkleRoot := CalculateMerkleRoot(p, txs).value);
         forall k :: 0 < k <= budget ==> !IsHashValid(HashAtNonce(p, header, k), Difficulty)
    ensures r.Ok? ==>
      && |bc.blocks| > 0
      && |r.value.blocks| == |bc.blocks| + 1
      && r.value.blocks[..|bc.blocks|] == bc.blocks
      && var mined := r.value.blocks[|bc.blocks|];
         && mined.index == |bc.blocks|
         && mined.timestamp == now
         && mined.transactions == bc.blocks[|bc.blocks| - 1].transactions
         && Some(mined.merkleRoot) == CalculateMerkleRoot(p, mined.transactions)
         && mined.prevHash == bc.blocks[|bc.blocks| - 1].hash
         && mined.hash == BlockHash(p, mined)
         && 1 <= mined.nonce <= budget
         && IsHashValid(HashAtNonce(p, mined.(prevHash := ""), mined.nonce), Difficulty)
         && forall k :: 0 < k < mined.nonce ==>
              !IsHashValid(HashAtNonce(p, mined.(prevHash := ""), k), Difficulty)
    ensures r.Ok? && WellFormed(p, bc) ==> WellFormed(p, r.value)
  {
    if |bc.blocks| == 0 {
      return Err(EmptyChainIndexOutOfRange);
    }
    var last := bc.blocks[|bc.blocks| - 1];
    var candidate := ZeroBlock.(index := |bc.blocks|, timestamp := now, transactions := last.transactions);
    var outcome := MineBlock(p, candidate, Difficulty, budget);
    if outcome.Err? {
      return Err(outcome.error);
    }
    var mined := outcome.value;
    var next := AddBlock(p, bc, mined);
    var unlinked := next.blocks[|bc.blocks|].(prevHash := "");
    assert HashAtNonce(p, unlinked, mined.nonce) == mined.hash;
    forall k | 0 < k < mined.nonce
      ensures !IsHashValid(HashAtNonce(p, unlinked, k), Difficulty)
    {
      assert HashAtNonce(p, unlinked, k) == HashAtNonce(p, mined, k);
    }
    if WellFormed(p, bc) {
      AddBlockPreservesInvariants(p, bc, mined);
    }
    return Ok(next);
  }
}
