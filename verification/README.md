# go-blockchain chain-integrity core in Dafny

A model of the chain-integrity logic of a minimal proof-of-work ledger
written in Go (`main.go`): the transaction digest, the block-header digest,
the Merkle root of a block's transactions, the difficulty check, the nonce
search (mining), `addBlock`, and the chain-state logic of the two HTTP
handlers (append a transaction to the latest block; mine a new block).

Everything is a value: `Transaction`, `Block` and `Blockchain` are
immutable datatypes, and the handlers become functions and methods from one
`Blockchain` to the next. The Go code signals failure only by panicking, and
the model returns those panics as `Option`/`Result` values.

Files and modules:

- `wrappers.dfy` (`Wrappers`): `Option` and `Result`.
- `go_strings.dfy` (`GoStrings`): `strconv.Itoa` with its inverse,
  `strings.Repeat` and `strings.HasPrefix` (the last characterised through
  `ProofOfWork.IsHashValid`).
- `ledger.dfy` (`Ledger`): the records, `Transaction.Hash` (`TxHash`) and
  `calculateHash` (`BlockHash`), plus what the separator-free records imply.
- `merkle.dfy` (`Merkle`): `calculateMerkleRoot` exactly as written.
- `proof_of_work.dfy` (`ProofOfWork`): `isHashValid` and `mineBlock`.
- `chain.dfy` (`Chain`): `addBlock`, the two handlers, and the chain
  invariants they keep.

SHA-256 with hex encoding, and `fmt.Sprintf("%f", _)`, are library code.
They are the two fields of the `Primitives` parameter, so every property
proved here holds for any functions in those places. No collision
resistance is assumed.

What the Merkle loop does: its read cursor `i` advances by two on every
pass, while the working list shrinks by at most one. So the loop finishes
only for up to two transactions:

- no transactions give `""`;
- one transaction gives its own digest, which is not hashed again;
- two transactions give the digest of the two digests concatenated in order.

With three or more transactions the cursor overtakes the list and Go panics
with an index out of range. `CalculateMerkleRoot` returns `None` in that
case, and `MineBlock`/`MineNext` fail with `MerkleIndexOutOfRange`. Unlike
a textbook Merkle tree, a lone digest is not hashed with itself, and three or
more digests never reduce to a root.

The mine handler mines a block whose previous hash is still empty. Then
`addBlock` links the block and recomputes its hash. So the stored hash of a
mined block need not meet the difficulty: only the hash of the unlinked
header is known to meet it. `MineNext` states exactly that and nothing
stronger.

## Model

| member | source | states |
|---|---|---|
| GoStrings.ItoaRoundTrip | main.go:38 | the decimal text `strconv.Itoa` writes for the index and nonce reads back as the same integer |
| GoStrings.ItoaInjective | main.go:38 | different integers have different decimal text |
| GoStrings.Itoa | main.go:38 | `strconv.Itoa` writes a non-empty text: digits for a non-negative integer, and '-' followed by digits for a negative one |
| GoStrings.Repeat | main.go:94 | `strings.Repeat(s, n)` has n times the length of s |
| GoStrings.RepeatChar | main.go:94 | `strings.Repeat("0", d)` is a run of exactly `d` '0' characters |
| Ledger.TxHashSeesOnlyConcatenation | main.go:69-74 | `TxHash` (SHA-256 hex of sender, recipient and `%f` amount, back to back) sees sender and recipient only through their concatenation: equal concatenations and equal amounts give equal digests |
| Ledger.TxHashCollision | main.go:69-74 | sender "ab"/recipient "c" and sender "a"/recipient "bc" are different transactions with the same digest |
| Ledger.BlockHashReadsHeaderOnly | main.go:37-43 | `BlockHash` (SHA-256 hex of decimal index, timestamp, Merkle root, previous hash and decimal nonce, back to back) depends only on those five fields; changing the transactions or the stored hash does not change it |
| Ledger.BlockRecordCollision | main.go:37-43 | index 1 with timestamp "2x" and index 12 with timestamp "x" give the same hashed record |
| Ledger.DistinctNoncesDistinctRecords | main.go:86-88 | blocks that differ only in their nonce have different hashed records, so the search never hashes the same text twice |
| Merkle.Leaves | main.go:48-50 | the range loop, appending one digest per transaction, leaves a list as long as the transactions whose k-th entry is the digest of the k-th transaction |
| Merkle.MerklePass | main.go:52-61 | from any loop state: the loop finishes exactly when at most one digest remains, or when it starts at cursor 0 with exactly two digests, giving the digest of the two concatenated; from every other state the cursor overtakes the list and the read at main.go:56 goes out of range |
| Merkle.CalculateMerkleRoot | main.go:45-67 | the root is defined exactly for at most two transactions: "" for none, the lone digest unchanged for one, the digest of the two digests in order for two; three or more panic |
| ProofOfWork.IsHashValid | main.go:93-96 | holds exactly when the hash is at least `d` long and its first `d` characters are '0'; always holds for `d = 0`; never holds for the empty hash when `d > 0` |
| ProofOfWork.MineBlock | main.go:84-91 | fails with MerkleIndexOutOfRange exactly when the block has three or more transactions; fails with NonceBudgetExhausted only when the stored hash fails on entry and no nonce in the budget passes. On success: the stored hash passes; the Merkle root is the transactions' root; index, timestamp, transactions and previous hash are unchanged. A hash already valid on entry keeps its nonce and hash. Otherwise the nonce is the least one above the initial nonce whose header hash passes, and the stored hash is that header's hash |
| Chain.AddBlock | main.go:76-82 | the chain grows by one and earlier blocks are unchanged. The new block's previous hash is the old last block's hash, or is left as given on an empty chain. Its stored hash is the hash of the linked header, and no other field changes |
| Chain.AddBlockPreservesInvariants | main.go:76-82 | appending a block whose index is the old length keeps indices equal to positions, every block linked to its predecessor's hash, and every non-first block's stored hash equal to its header hash |
| Chain.AppendTransaction | main.go:112-115 | a zero block is created only when the chain is empty. Otherwise only the last block changes, and only by gaining the transaction at the end of its list |
| Chain.AppendTransactionPreservesInvariants | main.go:112-115 | appending a transaction keeps indices, links and stored hashes valid, because the block hash does not read the transactions |
| Chain.MineNext | main.go:119-128 | fails with EmptyChainIndexOutOfRange exactly on an empty chain; fails with MerkleIndexOutOfRange exactly when the last block has three or more transactions; fails with NonceBudgetExhausted only when no nonce from 1 to the budget passes difficulty 4 on the unlinked header. Otherwise it appends one block with index equal to the old length, the given timestamp and the last block's transactions, linked to the last block's hash, with its header hash stored. Its nonce is the least positive nonce whose unlinked header passes difficulty 4. It keeps the chain invariants |

## Left out

- HTTP routing, JSON binding, flag parsing and `r.Run` (main.go:98-110, 116, 129-132): framework I/O. The handlers' chain-state logic is modelled.
- SHA-256, hex encoding and `%f` formatting: they are parameters (`Primitives`), not implementations. So the model proves nothing that needs collision resistance. For example, "changing a transaction field changes the Merkle root" is not proved, and the collision lemmas show it fails for sender/recipient shifts.
- `float64` amounts: `Amount` is `real` and is only ever passed to the formatting parameter. A `real` has one zero, while Go's `float64` has both 0.0 and -0.0, which `%f` prints as "0.000000" and "-0.000000". So two Go transactions whose digests differ only by the sign of a zero amount are one transaction in the model. NaN and infinities have no `real` counterpart either.
- `time.Now().String()`: the timestamp is the `now` parameter of `MineNext`.
- The `fmt.Println` log line in `mineBlock` (main.go:90).
- The global `blockchain` variable and data races between concurrent requests.
- Go's 64-bit `int` for `Index` and `Nonce`: integers are unbounded, so a nonce never wraps.
- Slice aliasing of `Transactions` between the last block and the newly mined block (main.go:124): blocks are values here. Value semantics are observationally equivalent: only the last block is appended to (main.go:115), and no block sharing its array has more elements than it.
- Negative difficulty: `strings.Repeat` panics on it; the model's difficulty is a `nat`.
- ProofOfWork.MineBlock: the Go search is unbounded, while the model tries at most `budget` nonces and then returns `NonceBudgetExhausted`. That outcome states that no nonce in the tried range passes. The model does not claim that a passing nonce exists or that mining terminates.
- Chain.MineNext: inherits the same nonce budget from `MineBlock`. It does not claim that the stored hash of the appended block meets difficulty 4, because `addBlock` recomputes the hash after linking.
- The Merkle root stored in a block is not recomputed when the transaction handler later appends to that block, so it goes stale. No invariant about stored Merkle roots is claimed.
