/** The difficulty check and the nonce search. */
module ProofOfWork {
  import opened Wrappers
  import opened GoStrings
  import opened Ledger
  import opened Merkle

  /** `isHashValid`: the hash starts with `difficulty` '0' characters.
      Go's `strings.Repeat` panics on a negative count, so the difficulty
      is a natural number here. */
  function IsHashValid(hash: string, difficulty: nat): (r: bool)
    ensures r <==> difficulty <= |hash| && forall k :: 0 <= k < difficulty ==> hash[k] == '0'
    ensures difficulty == 0 ==> r
    ensures hash == "" && difficulty > 0 ==> !r
  {
    RepeatChar('0', difficulty);
    HasPrefix(hash, Repeat("0", difficulty))
  }

  /** `mineBlock`. The Merkle root is set once from the transactions; then,
      for as long as the stored hash fails the difficulty, the nonce goes up
      by one and the hash is recomputed. The Go loop has no bound; here at
      most `budget` nonces are tried before giving up with
      `NonceBudgetExhausted`, and that outcome says that none of them would
      have passed. */
  method MineBlock(p: Primitives, block: Block, difficulty: nat, budget: nat) returns (r: Result<Block, Fault>)
    ensures r.Err? ==> r.error == MerkleIndexOutOfRange || r.error == NonceBudgetExhausted
    ensures r == Err(MerkleIndexOutOfRange) <==> |block.transactions| >= 3
    ensures r.Ok? ==> IsHashValid(r.value.hash, difficulty)
    ensures r.Ok? ==>
      && Some(r.value.merkleRoot) == CalculateMerkleRoot(p, block.transactions)
      && r.value.index == block.index
      && r.value.timestamp == block.timestamp
      && r.value.transactions == block.transactions
      && r.value.prevHash == block.prevHash
    // A hash that already passes on entry is kept, nonce and all.
    ensures r.Ok? && IsHashValid(block.hash, difficulty) ==>
      r.value.nonce == block.nonce && r.value.hash == block.hash
    // Otherwise the result carries the first passing nonce above the initial one.
    ensures r.Ok? && !IsHashValid(block.hash, difficulty) ==>
      && block.nonce < r.value.nonce <= block.nonce + budget
      && r.value.hash == BlockHash(p, r.value)
      && forall k :: block.nonce < k < r.value.nonce ==>
           !IsHashValid(HashAtNonce(p, r.value, k), difficulty)
    ensures r == Err(NonceBudgetExhausted) ==>
      && !IsHashValid(block.hash, difficulty)
      && var committed := block.(merkleRoot := CalculateMerkleRoot(p, block.transactions).value);
         forall k :: block.nonce < k <= block.nonce + budget ==>
           !IsHashValid(HashAtNonce(p, committed, k), difficulty)
  {
    var root := CalculateMerkleRoot(p, block.transactions);
    if root.None? {
      return Err(MerkleIndexOutOfRange);
    }
    var committed := block.(merkleRoot := root.value);
    var b := committed;
    var tries: nat := 0;
    while !IsHashValid(b.hash, difficulty)
      invariant tries <= budget
      invariant b == committed.(nonce := block.nonce + tries, hash := b.hash)
      invariant tries == 0 ==> b.hash == block.hash
      invariant tries > 0 ==> !IsHashValid(block.hash, difficulty)
      invariant tries > 0 ==> b.hash == BlockHash(p, b)
      invariant forall k :: block.nonce < k < b.nonce ==> !IsHashValid(HashAtNonce(p, committed, k), difficulty)
      decreases budget - tries
    {
      if tries > 0 {
        assert HashAtNonce(p, committed, b.nonce) == b.hash;
      }
      if tries == budget {
        return Err(NonceBudgetExhausted);
      }
      b := b.(nonce := b.nonce + 1);
      b := b.(hash := BlockHash(p, b));
      tries := tries + 1;
    }
    forall k | block.nonce < k < b.nonce
      ensures !IsHashValid(HashAtNonce(p, b, k), difficulty)
    {
      assert HashAtNonce(p, b, k) == HashAtNonce(p, committed, k);
    }
    return Ok(b);
  }
}
