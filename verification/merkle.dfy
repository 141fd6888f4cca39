/** `calculateMerkleRoot`, as written. The list of digests shrinks by at most
    one per pass while the read cursor advances by two, so the loop only
    finishes for up to two transactions; from three on it reads past the end
    of the list, which in Go is an index-out-of-range panic. */
module Merkle {
  import opened Wrappers
  import opened Ledger

  /** The working list the first loop builds: the transaction digests, in
      transaction order. */
  function Leaves(p: Primitives, txs: seq<Transaction>): (hs: seq<string>)
    ensures |hs| == |txs|
    ensures forall k :: 0 <= k < |txs| ==> hs[k] == TxHash(p, txs[k])
    decreases |txs|
  {
    // the range loop appends the digest of each transaction in turn
    if |txs| == 0 then [] else Leaves(p, txs[..|txs| - 1]) + [TxHash(p, txs[|txs| - 1])]
  }

  /** The Go loop from the state (`tree`, `i`) onwards; `None` is the panic.
      The loop finishes only if it is already done (at most one digest) or
      if it starts with exactly two digests at cursor 0; from every other
      state the cursor overtakes the list before it shrinks to one. */
  function MerklePass(sha: string -> string, tree: seq<string>, i: nat): (r: Option<string>)
    ensures r.Some? <==> |tree| <= 1 || (i == 0 && |tree| == 2)
    ensures |tree| == 0 ==> r == Some("")
    ensures |tree| == 1 ==> r == Some(tree[0])
    ensures i == 0 && |tree| == 2 ==> r == Some(sha(tree[0] + tree[1]))
    decreases |tree| + 2 - i
  {
    if |tree| <= 1 then
      if |tree| == 0 then Some("") else Some(tree[0])
    else if i >= |tree| then
      None
    else
      var padded := if i + 1 == |tree| then tree + [tree[i]] else tree;
      MerklePass(sha, padded[2..] + [sha(padded[i] + padded[i + 1])], i + 2)
  }

  /** `calculateMerkleRoot`: "" for no transactions, the lone digest itself
      (not hashed again) for one, the digest of the two digests concatenated
      in order for two, and a panic for three or more. */
  function CalculateMerkleRoot(p: Primitives, txs: seq<Transaction>): (r: Option<string>)
    ensures r.Some? <==> |txs| <= 2
    ensures |txs| == 0 ==> r == Some("")
    ensures |txs| == 1 ==> r == Some(TxHash(p, txs[0]))
    ensures |txs| == 2 ==> r == Some(p.sha256Hex(TxHash(p, txs[0]) + TxHash(p, txs[1])))
  {
    MerklePass(p.sha256Hex, Leaves(p, txs), 0)
  }
}
