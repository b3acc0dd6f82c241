# A verified model of the dreddit node, clerk and client

dreddit is a small blockchain on which people post, comment, upvote and transfer a
currency called dkarma. Nodes keep a chain of blocks, an index of unspent outputs (the
UTXO), a table of pending transactions and a log of every block they were sent. Clerks
build and sign transactions; a client renders the chain as a front page of threads.

This project models those three parts and proves what they keep, over every input, every
run and every interleaving. `dafny verify dfyconfig.toml` checks all of it.

## How it is laid out

| module | what it holds |
|---|---|
| `Lists`, `Wire`, `Transactions`, `Merkle`, `Blocks` | bytes, serialisation, the flat-array Merkle computation, headers, proof of work, block generation and validation |
| `Utxo`, `BlockPanics`, `Supply`, `BlockOrder`, `Validation` | the index with spent flags and eager deletion against a plain fold, the value it holds, independence of order, the checks on transactions and blocks |
| `Ledger`, `Invariants`, `MapOrder`, `Replay` | the node as a state machine (receive, mine, admit, poll), what every run keeps, independence of the order of the pending table, and replay of the log |
| `Acknowledgements` | which steps change the status of a request, and what the clerk is answered |
| `Crashes`, `Scenarios` | exactly when the node panics, and runs that end where the code falls short |
| `Node` | the class `DRNode`, whose methods update the fields in place and are proved to take exactly the steps of `Ledger` |
| `Interleaving`, `Concurrency`, `Replies` | any number of handlers over `mu`, `bcmu`, `utxoMu` and `peermu`, one lock operation or one transaction at a time |
| `Gossip`, `Flood` | push gossip of peer lists, and flooding of a transaction |
| `Spending`, `Holdings` | who can spend an output and how often, over a whole chain; what each address holds and how requests and mining move it |
| `Clerk`, `ClerkAccepted`, `Client` | coin selection and signing, acceptance of what the clerk builds, index, scores and threads |

Hashing, signature verification, the difficulty and the founders' addresses are fields of
a `Protocol` value that every definition takes as a parameter. Nothing is assumed of them
except the length of digests; a result that needs more says so ("or here is a collision").
A run-time panic of the Go program is a value (`Verdict.Panic`, `Outcome.Crash`, `None`),
so the theorems say when it is reached. uint32 arithmetic is written out with `Wrap`.

## What the code turns out not to do

- Side chains and orphans are never stored, so a block that does not extend the tip is
  dropped and the chain is never reorganised (`NeverReorganises`). The comment at
  src/node/miner.go:158-161 speaks of an identical block tree with side chains; the code
  keeps none.
- A block that passes every check can crash the node. Transactions are checked against the
  index before the block and not against each other (src/node/miner.go:848), so two posts
  made from the same output both pass, and entering the second meets an entry that is gone.
  `MineCrashesExactly` and `ReceiveCrashesExactly` give the exact condition for every block, and
  `PostsCanCrash` a run that ends that way: three posts by one founder crash the miner and
  every node that is sent its block.
- Replay does not always reproduce the chain it was sent. A clerk may send a transaction of
  type COINBASE that spends an output; the miner puts it into a block that every validator
  refuses. `ReplayCanFail` builds such a run in two steps, and `ReplayReproducesExactly`
  says that replay works if and only if no such block was mined.
- The value check adds the fee on the input side (src/node/miner.go:805), so an accepted
  transaction may create one unit (`TransferCanCreateFee`); the miner's reward counts a fee
  as well. This is why the bound on the supply has two fees per transaction;
  `SupplyReachesBound` is a run that reaches it.
- Repeated inputs and overflowing output sums are not looked for. The bound on the supply
  therefore holds with the value of both on top (`SupplyIsBounded`, for every run), and
  either can be forged: `RepeatedInputForges`, `OverflowForges`, and the run
  `SupplyCanExceed`, which issues 100 more than the chain may.
- The same post can be on a chain twice, for instance in a block that carries it twice and
  spends from an entry with other outputs. The page then shows it, and all that hangs from
  it, as often as `FrontPageShows` says.
- `Post` and `Comment` take the first output whatever it holds. A comment in the code says
  any output will do; `SayIsAcceptedExactly` gives the exact condition, and an output of
  value zero fails it.

The runs named here exist in every protocol in which a founder's key signs, the blocks
concerned can be mined and the few transactions concerned have different hashes.

## Model

| member | source | states |
|---|---|---|
| `Wire.PackIntRoundTrip` | src/node/block.go:28-32 | the four little-endian bytes of a word determine the word |
| `Transactions.PackTxInBuffer` | src/node/transaction.go:42-50 | copying the four fields into a zeroed buffer gives their concatenation, zeros at the end for an over-long hash, with all slices in range |
| `Transactions.PackTxOutInBuffer` | src/node/transaction.go:61-66 | likewise for an output |
| `Transactions.PackTxInNoSigInBuffer` | src/node/transaction.go:52-59 | likewise for an input without its signature |
| `Transactions.HashTransaction` | src/node/transaction.go:77-89 | the two append loops hash exactly the type, packed inputs, packed outputs, parent and content |
| `Transactions.HashTransactionNoSig` | src/node/transaction.go:94-109 | the loops refuse exactly the malformed transactions and hash every field of any other but the signatures |
| `Transactions.HashNoSigIgnoresSigs` | src/node/transaction.go:94-109 | what is signed is the same before and after the signatures are written into the inputs |
| `Transactions.SignatureCovers` | src/node/transaction.go:94-109 | what is signed covers everything else: two well-formed transactions of the same shape with the same signature-free hash have the same type, outpoints, keys, outputs, parent and content, or the very bytes that were hashed collide |
| `Transactions.HashCovers` | src/node/transaction.go:77-89 | two well-formed transactions of the same shape with the same hash are equal, signatures included, or their very bytes collide |
| `Transactions.ShapesMatter` | src/node/transaction.go:106-107 | the shape is needed: moving a byte from the parent to the content changes no hash |
| `Merkle.AndPredecessor` | src/node/merkle.go:15-17 | for every n from one, `n & (n-1)` is zero if and only if n is a power of two |
| `Merkle.NextPowerOfTwo` | src/node/merkle.go:13-22 | the width is a power of two, at least n and less than 2n, hence the least one not below n |
| `Merkle.FillParents` | src/node/merkle.go:76-98 | the single pass stays in range, leaves the leaves alone and makes slot width+m the parent of slots 2m and 2m+1, for every m |
| `Merkle.TreeAbove` | src/node/merkle.go:76-98 | dropping the lowest level of a filled array leaves a filled array of half the width over the next row, its nils again a suffix |
| `Merkle.TreeHoldsRoot` | src/node/merkle.go:56-63 | the last slot of a filled array holds the root of the level-by-level definition |
| `Merkle.BuildMerkleTreeStore` | src/node/merkle.go:64-101 | for every non-empty list of hashable transactions the flat computation returns the root defined level by level, with the last element of an odd row duplicated (protocol/protocol.md:8) |
| `Merkle.RootBinding` | src/node/merkle.go:27-34 | two rows of equal length with the same root are equal, or two different 64-byte branches hashed on the way to that root, one of each tree, have the same hash |
| `Merkle.MerkleBinding` | src/node/merkle.go:64-101 | two transaction lists of equal length with the same root have pointwise equal hashes, or two different branches of their own two trees collide |
| `Merkle.OddRowDuplicated` | src/node/merkle.go:85-89 | equal length is needed: repeating the last element of an odd row does not change the root |
| `Blocks.Pack` | src/node/block.go:35-44 | the buffer written field by field is the 80-byte header |
| `Blocks.HeaderSlices` | src/node/block.go:35-44 | the version, parent hash, Merkle root, timestamp, difficulty and nonce stand at offsets 0, 4, 36, 68, 72 and 76 |
| `Blocks.HeaderInjective` | src/node/block.go:35-44 | equal headers come from equal parent hash, Merkle root, timestamp, difficulty and nonce |
| `Blocks.ProofOfWork` | src/node/block.go:105-120 | patching the nonce in the buffer ends at the least working nonce, and the hash found is the hash of the finished block packed afresh |
| `Blocks.GenerateBlock` | src/node/block.go:175-203 | the block carries the given transactions and the reward, commits to them by its root, meets its difficulty, and has the least working nonce |
| `Blocks.GenerateGenesisBlock` | src/node/block.go:126-170 | produces a block that meets the definition of the genesis block |
| `Blocks.GenesisUnique` | src/node/block.go:126-170 | any two nodes generate the same genesis block |
| `Blocks.GenesisRejected` | src/node/block.go:83-85 | no node accepts the genesis block from the network |
| `Blocks.ValidateBlockPanicsExactly` | src/node/block.go:212-237 | the stand-alone check panics if and only if the difficulty is right and either the block hash is shorter than it, or the hash is right and some transaction cannot be hashed |
| `Blocks.MinerAgreesWithValidator` | src/node/block.go:212-259 | a generated block passes `ValidateBlock` if and only if none of the given transactions is of type COINBASE, and never makes it panic |
| `Blocks.TipFixesHistory` | src/node/block.go:229-234 | two linked chains of validated blocks from the genesis with equal tip hash have equal length and equal headers everywhere, or a header of one and a different header of the other have the same hash, or some block hash of theirs is all zeros |
| `Blocks.SameHeadersSameTransactions` | src/node/block.go:236-240 | blocks with equal headers and equally many transactions commit to the same transaction hashes, or branches of their own two Merkle trees collide |
| `Utxo.SpendRefines` | src/node/miner.go:509-532 | marking an output spent and dropping an exhausted entry removes exactly that outpoint from the unspent view and keeps no fully spent entry |
| `Utxo.ApplyTxsRefines` | src/node/miner.go:508-544 | the index after any list of transactions has the unspent view of the fold "remove what is spent, then add the outputs", and keeps no fully spent entry |
| `Utxo.PanicExactly` | src/node/miner.go:514-531 | for inputs spent in a row that all passed the unspent check, the panic is reached if and only if some input comes after every unspent output of its transaction was used up |
| `BlockPanics.ApplyIsOps` | src/node/miner.go:508-544 | entering transactions, on the index and on the plain fold, is doing their single spendings and filings in order |
| `BlockPanics.BlockPanicsExactly` | src/node/miner.go:316-323 | entering a whole block whose inputs are unspent before it panics if and only if some input names an output number that has not been filed again since its transaction last had no unspent output, whatever the block files and however often |
| `Utxo.PlainBlockPanics` | src/node/miner.go:316-323 | when no transaction of the block but the last files under a hash that is spent from, it panics if and only if some input comes after every unspent output of its transaction was used up by the block |
| `BlockPanics.OverspentPlainly` | src/node/miner.go:316-323 | in that case the two conditions agree |
| `Utxo.DistinctBlockSucceeds` | src/node/miner.go:527-531 | transactions whose inputs are unspent before the block and pairwise distinct across it never reach the panic |
| `Supply.SupplyBound` | src/node/miner.go:508-544 | supply after plus value taken in is at most supply before plus value paid out plus the value of repeated inputs, fresh outpoints or not |
| `Supply.SumFoldTx` | src/node/miner.go:508-544 | what one transaction does to the supply, exactly: inputs leave, repeated ones once, and outputs come, less the coins they overwrite |
| `Supply.BalancedSupply` | src/node/miner.go:508-544 | transactions that pay exactly the fee lower the supply by exactly their fees and the coins they overwrite |
| `Supply.InputsWithinSupply` | src/node/miner.go:776-800 | distinct inputs are never worth more than the whole supply |
| `BlockOrder.OrderIrrelevant` | src/node/miner.go:680-697 | every permutation of independent transactions with distinct hashes folds to the same view |
| `BlockOrder.IndexOrderIrrelevant` | src/node/miner.go:733-738 | on the index itself every permutation runs without a panic and leaves the same unspent view |
| `MapOrder.MineAnyOrder` | src/node/miner.go:676-740 | two passes of the miner over the same state, in any two orders of the pending table, both commit and leave the same pending table, seen hashes and unspent view, given distinct inputs and fresh outpoints |
| `Ledger.CollectMeaning` | src/node/miner.go:680-697 | the selection loop panics if and only if some pending transaction panics the check; otherwise it marks exactly those that fail and selects exactly those that pass, once each |
| `Ledger.CollectAnyOrder` | src/node/miner.go:680-697 | two orders of the map give the same marks and permuted selections |
| `Validation.FindTxIsFirst` | src/node/miner.go:854-863 | the lookup fails if and only if no transaction has the hash, and otherwise returns the first that has it |
| `Validation.AcceptedTxValue` | src/node/miner.go:776-807 | an accepted transaction spends unspent outputs only, and the 32 bits of its output sum are at most what it takes in plus the fee; wrap-around on the input side cannot help it |
| `Validation.TransferPassesExactly` | src/node/miner.go:776-807 | a transaction of a type without rules of its own whose inputs pass is accepted if and only if its output sum is at most its input sum plus the fee, modulo 2^32; below 2^32 that is the comparison of the true sums |
| `Validation.TransferCanCreateFee` | src/node/miner.go:805-807 | a transfer that pays out one unit more than it takes in is accepted, enters the index and raises the supply by that unit |
| `Validation.NoWrapBelowSupply` | src/node/miner.go:776-807 | while the supply fits 32 bits, the sum of distinct inputs never wraps; with room for the fee and the output sum, the comparison made is the comparison of the true sums |
| `Validation.RepeatedInputForges` | src/node/miner.go:778-800 | a transfer that names one output twice, while its entry has another, is accepted, enters the index without a panic and raises the supply by the whole value of the output and the fee |
| `Validation.OverflowForges` | src/node/miner.go:801-807 | a transfer whose outputs add up to 2^32 is accepted and raises the supply by 2^32 less what it takes in |
| `Validation.ScanPanicsExactly` | src/node/miner.go:778-800 | the scan of the inputs panics if and only if some input names an entry of the index but no output of it, after inputs that all pass |
| `Validation.AcceptedTxParent` | src/node/miner.go:815-823 | an accepted comment or upvote names a post or comment on the chain |
| `Validation.AcceptsExactly` | src/node/miner.go:767-825 | the node accepts exactly the transactions with inputs and outputs that spend unspent outputs under their owners' signatures, whose output sum is at most the input sum and the fee in 32 bits, that pay content and change back to the signer, and that name a parent exactly when they must, its author being paid by an upvote |
| `Validation.AcceptsBlockExactly` | src/node/block.go:212-259 | both checks accept exactly the blocks that are sealed, can be hashed, consist of individually valid transactions, none of type COINBASE, and end in one input-less, parent-less, content-less reward of the right value |
| `Validation.CheckEachMeaning` | src/node/miner.go:832-852 | the block's loop accepts if and only if each transaction passes on its own |
| `Validation.CheckEachPanicsExactly` | src/node/miner.go:832-852 | the loop panics if and only if some transaction does and every one before it passes |
| `Validation.AcceptedSettles` | src/node/miner.go:832-852 | a block that passes both checks has individually valid ordinary transactions and, last, one input-less reward of exactly fees plus mining reward |
| `Validation.MinerAgreesWithReceiver` | src/node/miner.go:832-852 | a block built from individually valid transactions, none of type COINBASE, passes `validateBlockTxs` at a node with the same chain and index |
| `Validation.BlockSupplyBound` | src/node/miner.go:776-807 | any accepted block of n ordinary transactions raises the supply by at most TX_COINBASE + 2·n·TX_FEE plus the value of its repeated inputs and the overflow of its output sums |
| `Validation.PlainSupplyBound` | src/node/miner.go:776-807 | with distinct inputs and no output wrap it raises the supply by at most TX_COINBASE + 2·n·TX_FEE |
| `Validation.BlockSupplyExact` | src/node/miner.go:844-846 | if its transactions pay exactly the fee, a block raises the supply by exactly TX_COINBASE less the coins it overwrites |
| `Invariants.ReceiveKeepsInv` | src/node/miner.go:287-327 | receiving any block keeps the invariant and only extends the chain, or the node panics; no third outcome is possible |
| `Invariants.AsideIsDropped` | src/node/miner.go:329-402 | with no side chains or orphans stored, a block that does not extend the tip changes nothing and the reorganisation's guard is false |
| `Invariants.DistinctBlockIsSafe` | src/node/miner.go:312-326 | a received block that passes both checks and has distinct inputs never panics and, if it extends the tip, is appended |
| `Invariants.MineKeepsInv` | src/node/miner.go:672-745 | a pass of the miner keeps the invariant and appends exactly the mined block, or panics |
| `Invariants.DistinctMineIsSafe` | src/node/miner.go:712-741 | a mined block with distinct inputs is committed without a panic |
| `Invariants.RunKeepsInv` | src/node/miner.go:33-69 | every state of every run satisfies the invariant on chain, index, pending table, seen hashes and side chains |
| `Invariants.UtxoIsDerived` | src/node/utxodb.go:17-23 | in every state of every run the unspent view of the index is the fold over the chain, and no fully spent entry is kept |
| `Invariants.ChainOnlyGrows` | src/node/miner.go:305-312 | between any two states of a run the chain only gains blocks at its end |
| `Invariants.NeverReorganises` | src/node/miner.go:329-456 | in every state of every run both side-chain lists are empty, the chain is linked by hashes, and no block whatever leads to a tree edit or a reorganisation |
| `Invariants.AcknowledgedStays` | src/node/miner.go:637-645 | a success seen by the waiting loop means that the transaction's hash is on the chain, then and in every later state |
| `Acknowledgements.ReceiveEffect` | src/node/miner.go:298-327 | a received block is logged, and either changes nothing else or is appended and turns exactly the pending transactions it carries into successes |
| `Acknowledgements.MineEffect` | src/node/miner.go:676-740 | a pass of the miner turns exactly the pending transactions that pass the check into successes and puts exactly those into the block, and marks exactly those that fail as invalid |
| `Acknowledgements.AdmitEffect` | src/node/miner.go:594-624 | a request is taken on if and only if it is well-formed and its hash is new; then it is recorded as seen and pending, and nothing else changes |
| `Acknowledgements.PollEffect` | src/node/miner.go:637-653 | a look answers true for a success, false for an invalid transaction and otherwise not at all, and an answer is remembered |
| `Acknowledgements.StatusStep` | src/node/miner.go:71-76 | every step changes the status of a pending transaction in one of three ways only: a block with it makes it a success, a failed check makes it invalid, an answer makes it handled |
| `Acknowledgements.EntryIsAnswered` | src/node/miner.go:639-645 | in every run, once a mined or received block carries a pending transaction, the first look at it afterwards answers true |
| `Acknowledgements.FailureIsAnswered` | src/node/miner.go:646-652 | once a pass of the miner rejects it, the first look afterwards answers false, unless a block with it arrived in between |
| `Acknowledgements.AnsweredOnce` | src/node/miner.go:641-648 | after an answer no look answers again, until a block carries the transaction once more |
| `Acknowledgements.FalseIsJustified` | src/node/miner.go:686-691 | an answer of false means that some earlier pass of the miner found the transaction to fail the check |
| `Invariants.SupplyIsBounded` | src/node/miner.go:776-807 | no chain ever holds more than 1000 plus the rewards plus two fees per ordinary transaction, but for the value of repeated inputs and overflows |
| `Invariants.SupplyIsExact` | src/node/block.go:64-72 | when every transaction pays exactly the fee, the supply after k blocks plus the value of the coins overwritten is exactly 1000 + 100·k |
| `Invariants.RunSupply` | src/node/block.go:140-143 | the bound for every state of every run, and the bound without excess when inputs are distinct and output sums fit 32 bits |
| `Invariants.RunSupplyExact` | src/node/block.go:64-72 | the equality for every state of every run with balanced transactions, and 1000 + 100·k when all outpoints were fresh |
| `Invariants.ParentIsEarlier` | src/node/miner.go:815-823 | every comment or upvote on a grown chain names a post or comment in a strictly earlier block |
| `Invariants.ContentHasAuthor` | src/node/transaction.go:126-136 | every post and comment on a grown chain has exactly one output |
| `Invariants.BlocksAreWellShaped` | src/node/transaction.go:111-124 | every ordinary transaction on a grown chain has addresses of 20 bytes, hashes of 32, and a parent exactly when it is a comment or an upvote; every reward has no inputs, parent or content and the right value |
| `Invariants.CheckTxPanicsExactly` | src/node/miner.go:778-825 | on a grown chain the transaction check panics if and only if the transaction has outputs and some input names an entry of the index but no output of it, after inputs that all pass |
| `Crashes.CheckBlockPanicsExactly` | src/node/miner.go:832-852 | the check of a block panics if and only if, after transactions that all pass, one dereferences a missing reward output, a missing first input or a missing output number |
| `Crashes.ReceiveCrashesExactly` | src/node/miner.go:287-327 | receiving a block crashes the node if and only if the block cannot be hashed, or it extends the tip and a transaction of it is unguarded, or it extends the tip, passes every check and spends a lost output number |
| `Crashes.NewIsNotRefilled` | src/node/miner.go:534-543 | a block whose ordinary transactions all have hashes new to the chain files nothing under a hash it spends from |
| `Crashes.NewBlockPanics` | src/node/miner.go:316-323 | for such a block the crash condition is the plain one on the index before it |
| `Crashes.CollectCrashesExactly` | src/node/miner.go:680-697 | the miner crashes while selecting if and only if some pending transaction has a dangling input |
| `Crashes.MineCrashesExactly` | src/node/miner.go:712-741 | the miner crashes while committing if and only if the selected transactions together spend a lost output number |
| `Crashes.OrderDecides` | src/node/miner.go:514-531 | with repeated inputs the order of spending decides whether the panic is reached |
| `Scenarios.TwoPostsCrash` | src/node/miner.go:680-741 | in any state with nothing else pending, two posts made from the last output of a transaction crash the miner, and its block passes every check and crashes every node with the same chain and index |
| `Scenarios.PostsCanCrash` | src/node/miner.go:848-849 | a run from the genesis to such a crash, by three posts of one founder |
| `Scenarios.SupplyReachesBound` | src/node/miner.go:805-807 | a run whose supply is exactly the bound |
| `Scenarios.SupplyCanExceed` | src/node/miner.go:778-800 | a run whose supply exceeds the bound by 100, by naming an output twice |
| `Spending.EveryInputIsSigned` | src/node/miner.go:778-800 | every input of every transaction on a grown chain names an output unspent before its block and carries a valid signature under a key that hashes to the address the output pays |
| `Spending.OnlyOwnersSpend` | src/node/miner.go:787-790 | over any stretch of a chain an output leaves the unspent view only by such a signed input in one of the blocks between |
| `Spending.RunOnlyOwnersSpend` | src/node/miner.go:767-800 | the same between any two states of any run |
| `Spending.SpentStaysSpent` | src/node/miner.go:509-544 | an output that some block spends is unspent later only if, from that block on, a transaction with its hash was entered again |
| `Spending.NoDoubleSpend` | src/node/miner.go:779-798 | two blocks of a grown chain spend the same output only if a transaction with its hash was entered between them |
| `Spending.EachOutputSpentOnce` | src/node/miner.go:779-798 | an output of a transaction whose hash occurs in one block only is spent by at most one block |
| `Spending.AuthorsSign` | src/node/transaction.go:127-136 | the address a post or comment on a grown chain pays, its author, is the owner of the coin its first input spends under a valid signature |
| `Spending.UpvotesPayAuthors` | src/node/miner.go:815-823 | an upvote on a grown chain pays first the author of the earlier post or comment it names, and second the voter who signed it |
| `Holdings.HoldingsMove` | src/node/miner.go:508-544 | conservation address by address: each address loses what the inputs take from it and gains what the outputs pay it, and no more |
| `Holdings.OthersAreSafe` | src/node/miner.go:787-790 | an accepted transaction whose keys hash to other addresses takes nothing from an address |
| `Holdings.PaymentMoves` | src/clerk/clerk.go:209-218 | a payment has the type and parent it was given, raises the destination's holdings by its value, costs the payer that and the fee, and leaves everyone else alone |
| `Holdings.SayingCosts` | src/clerk/clerk.go:257-272 | a post or comment carries the given parent and content, costs its author exactly the fee and leaves everyone else alone |
| `Holdings.MinerIsPaid` | src/node/block.go:64-72 | a mined block pays its miner, and nobody else, the fees and the reward on top of what its transactions do |
| `Replay.MinedIsReceivable` | src/node/miner.go:680-745 | a node in the miner's state takes the miner's block and ends with the same chain and index |
| `Replay.MinedIsValidExactly` | src/node/miner.go:680-728 | the block a node mines is valid to others if and only if it carries no pending transaction of type COINBASE |
| `Replay.BootReplays` | src/node/miner.go:549-555 | the genesis entry at the head of a log is rejected on replay and does no harm |
| `Replay.ReplayReproduces` | src/node/miner.go:275-283 | for every run without such blocks, replaying the log from a fresh bootstrap gives the same chain and index, whatever rejected, early or duplicate blocks the log has |
| `Replay.ReplayReproducesExactly` | src/node/miner.go:275-303 | replay reproduces chain and index if and only if no block mined before that point carries a pending transaction of type COINBASE |
| `Scenarios.ReplayCanFail` | src/node/miner.go:680-697 | in any protocol where a founder signs and the block can be mined, a run of two steps whose log does not reproduce its chain |
| `Scenarios.RequestIsAcknowledged` | src/node/miner.go:592-645 | a run in which a request is taken on, mined and answered with success |
| `Node.DRNode.constructor` | src/node/miner.go:549-564 | a fresh node is in the boot state of the state machine |
| `Node.DRNode.SpendOne` | src/node/miner.go:509-532 | one turn of the input loop: the output is marked, an exhausted entry deleted, a missing entry or number panics |
| `Node.DRNode.UpdateUtxoDb` | src/node/miner.go:508-544 | the two loops over the mutable index do what the refinement theorems are about, and report the panic exactly when it is reached |
| `Node.DRNode.FindTxInBlockChain` | src/node/miner.go:854-863 | the nested loops return the first transaction on the chain with the hash |
| `Node.DRNode.CheckTxIn` | src/node/miner.go:778-800 | an input passes exactly when its output is present and unspent, the signature verifies and the key is the one paid; a missing output number panics |
| `Node.DRNode.ValidateTransaction` | src/node/miner.go:767-825 | the method returns the verdict the acceptance theorems are about, on its own chain and index |
| `Node.DRNode.ValidateBlockTxs` | src/node/miner.go:832-852 | likewise for the transactions of a block |
| `Node.DRNode.PlaceBlockAside` | src/node/miner.go:329-402 | the scan for a block's place ends as the state machine says |
| `Node.DRNode.SendBlock` | src/node/miner.go:287-456 | the new chain, index, pending table and log are those of the step `Receive`, or the panic it predicts |
| `Node.DRNode.EnterTxs` | src/node/miner.go:315-325 | marking and applying in one loop equals applying all and marking all; what marking means is `Acknowledgements.ReceiveEffect` |
| `Node.DRNode.Replay` | src/node/miner.go:275-283 | replaying a received log is receiving its blocks in order, each logged again |
| `Node.DRNode.CollectPending` | src/node/miner.go:676-697 | whatever order the map yields, every pending transaction is looked at once and selected or marked invalid |
| `Node.DRNode.MineOnce` | src/node/miner.go:672-745 | a pass of the miner is a mining step of the state machine, for some order of the pending table |
| `Node.DRNode.EnterMined` | src/node/miner.go:732-740 | the mined transactions, then the reward, are entered and exactly the selected ones marked successful |
| `Node.DRNode.AppendTx` | src/node/miner.go:594-624 | a malformed or repeated transaction is refused with nothing changed; any other is recorded as seen and pending |
| `Node.DRNode.PollStatus` | src/node/miner.go:637-653 | the reply and the new status are those of the state machine; what they mean is `Acknowledgements.PollEffect` |
| `Node.DRNode.MergePeers` | src/node/miner.go:567-590 | the nested loops compute the merge of peer lists |
| `Concurrency.EveryInterleaving` | src/node/miner.go:38-41 | in every state of every interleaving locks are exclusive and whoever holds `mu` has taken the ledger a definite way from the last committed one |
| `Concurrency.InterleavingsAreRuns` | src/node/miner.go:293-325 | whatever the interleaving, the ledger as of the last release of `mu` is the end of a sequential run, and it is the shared ledger whenever `mu` is free |
| `Concurrency.InterleavingIsOneRun` | src/node/miner.go:293-325 | all the ledgers one interleaving ever commits lie, in order, on one single sequential run |
| `Concurrency.TipStaysPut` | src/node/miner.go:700-715 | between the miner's two sections under `bcmu` the tip cannot move: its second check always succeeds |
| `Concurrency.ReadersSeeWholeBlocks` | src/node/utxodb.go:61-67 | every `GetUtxo` reads the unspent view of a whole-block prefix: the full chain, or all of it but the last block |
| `Concurrency.AcknowledgementIsDurable` | src/node/miner.go:637-652 | if `AppendTx` replied Success, the hash is on the node's chain at that moment and in every later state, under all interleavings |
| `Replies.EntryIsAcknowledged` | src/node/miner.go:637-645 | in every interleaving, once a block with the transaction is entered, and until somebody was told, the handler that looks at it goes on to reply true |
| `Replies.FalseRepliesAreJustified` | src/node/miner.go:596-609 | in every interleaving a reply of false means that the request was malformed or repeated, or that its transaction had failed the check against a committed ledger |
| `Replies.ViewsAreWholeBlocks` | src/node/utxodb.go:61-67 | the index that `GetUtxo` answers from, handed out of its lock, is that of a whole-block prefix of the chain |
| `Replies.LogsComeFromRuns` | src/node/miner.go:458-463 | the log that `GetBlockLog` sends is, in every interleaving, the log of a ledger that a sequential run reaches, so the results on replay hold of it |
| `Replies.ChainsAreCommitted` | src/node/miner.go:465-475 | the chain that `GetBlockchain` sends had been committed, and the page can be rendered for it |
| `Concurrency.LocksAreOrdered` | src/node/miner.go:38-41 | every handler takes its locks in the declared order, and `peermu` alone |
| `Concurrency.SomeoneCanRun` | src/node/miner.go:38-41 | behind any waiting handler, at the end of the chain of holders, there is one that waits for nothing that is held |
| `Concurrency.NoDeadlock` | src/node/miner.go:672-745 | for any number of handlers, every reachable state with an unfinished one has an enabled step, by it or by a handler it waits for |
| `Gossip.MergeMeaning` | src/node/miner.go:567-590 | merging keeps the known list as a prefix, adds exactly the heard ports that answer and are not our own, and introduces no duplicate and no self-entry |
| `Gossip.NewsIsMerged` | src/node/miner.go:202-213 | what arrives, the sender of a push included, is merged into the receiver's list and into no other |
| `Gossip.KnowledgeGrows` | src/node/miner.go:202-213 | over every run every peer list only grows and stays free of duplicates and self-entries |
| `Gossip.FinitelyManyChanges` | src/node/miner.go:489-501 | however long a run is, at most n·n of its steps change any of the n lists |
| `Gossip.ComponentsAreCliques` | src/node/miner.go:489-501 | in a stable state where dials succeed every weakly connected component is fully connected |
| `Gossip.StableStays` | src/node/miner.go:567-590 | once a state is stable no later state of the run has other lists, whatever is delivered, delayed or lost, until a clerk brings news |
| `Gossip.QuietRoundIsStable` | src/node/miner.go:489-501 | a round in which everybody is heard by all its peers and no list changes leaves a stable state |
| `Gossip.PushesMakeARound` | src/node/miner.go:489-501 | when every node's timer fires and all it pushes arrives, that is a round |
| `Gossip.RoundExists` | src/node/miner.go:489-501 | from any state there is such a round |
| `Gossip.GossipConverges` | src/node/miner.go:489-501 | after more than n·n rounds, for n nodes, all who are connected by acquaintance in either direction know each other, and no list changes again |
| `Flood.FloodIsBounded` | src/node/miner.go:602-635 | every node admits a transaction at most once, and the requests ever made are at most the clerks' plus the sum of peer-list lengths |
| `Flood.FloodCovers` | src/node/miner.go:627-635 | with reliable delivery, at quiescence every node reachable from one that a clerk asked has admitted the transaction |
| `Clerk.GetUnspentTxs` | src/node/utxodb.go:31-46 | the nested loops list each unspent output of the owner exactly once, with its value, and nothing else |
| `Clerk.SelectCoins` | src/clerk/clerk.go:193-203 | the loop takes a prefix of the wallet and its sum in 32 bits; no shorter prefix exceeds the need, and the one taken does, unless it is the whole wallet |
| `Clerk.ChosenIsLeast` | src/clerk/clerk.go:196-203 | a payment takes coins from the front until they exceed the value and the fee, and not one more |
| `Clerk.TakeEnough` | src/clerk/clerk.go:196-203 | without wrap-around the selection stops before the end of the wallet only with more than it needs |
| `Clerk.SignTx` | src/clerk/clerk.go:126-143 | every input gets the signature of the signature-free hash; a malformed transaction is left as it was |
| `Clerk.Transfer` | src/clerk/clerk.go:182-218 | what is built from the answer of the node, and when nothing is |
| `Clerk.Upvote` | src/clerk/clerk.go:359-391 | likewise, with the fixed amount and a parent |
| `Clerk.Say` | src/clerk/clerk.go:257-272 | likewise for a post or a comment, from the first output |
| `ClerkAccepted.TransferIsAccepted` | src/clerk/clerk.go:193-217 | the clerk gives up for lack of funds if and only if the whole balance is too small; otherwise the node accepts the transaction, its inputs are distinct and inputs equal outputs plus the fee |
| `ClerkAccepted.UpvoteIsAccepted` | src/clerk/clerk.go:365-390 | the same for an upvote of content whose author is paid |
| `ClerkAccepted.SayIsAcceptedExactly` | src/clerk/clerk.go:297-325 | a post, a comment or any other self-payment is accepted if and only if its one output covers the fee, adding the fee does not wrap, and a comment's parent is content on the chain; then it pays exactly the fee |
| `Client.GrownChainIsThreaded` | src/node/miner.go:815-823 | on every chain the node grows each comment or upvote comes after a post or comment with the hash it names |
| `Client.ChildRanksLater` | src/client/client.go:116-120 | what the renderer descends to is first seen later in the list than what it came from, so its recursion ends, even when content is repeated |
| `Client.GrownChainRenders` | src/client/client.go:108-121 | every chain the node grows can be rendered to the end, unless two contents of that chain with different parents or types have the same hash |
| `Client.FrontPageIsPage` | src/client/client.go:100-121 | the page is laid out as threads: it starts its threads with the posts, every comment hangs directly from a line with what it comments on, every line has all its comments, and lines that hang from the same place are in the order of the chain |
| `Client.FrontPageFlows` | src/client/client.go:100-121 | the page shows each post once for itself, and each comment once for every time it shows something the comment names |
| `Client.FrontPageShows` | src/client/client.go:100-121 | repeated content or not, each position is shown as often as the list alone says: a post once, a comment as often as all copies of its parent together |
| `Client.FrontPageShowsAllOnce` | src/client/client.go:100-121 | with distinct content hashes the recursive renderer visits every post and comment exactly once and nothing else |
| `Client.IndexAndScore` | src/client/client.go:82-98 | every transaction is filed under its abbreviation, content with its author, every upvoted parent is found, and each score is the number of upvotes |
| `Client.ScoresCountUpvotes` | src/client/client.go:93-98 | the score of a hash is the number of positions with an upvote that names it |
| `Client.RenderFrontPage` | src/client/client.go:68-106 | the whole page of any grown chain: index, scores, the lines with their indents laid out as threads, and every position shown as often as the list says; with distinct content hashes exactly once |
| `Client.RunChainIsGrown` | src/node/miner.go:305-312 | every chain of every run is a grown one, so the results on pages and threads hold of it |
| `Client.IndexedContentCanBeUpvoted` | src/client/client.go:83-91 | hash and address of an indexed post or comment are a parent and a destination that the node's check of an upvote accepts |

## Left out

- src/labrpc, a simulated network that the node does not use.
- RPC dialling, listeners, timers, sleeping and `Kill`: delivery, loss, clocks and which dials succeed are nondeterministic choices or parameters.
- scrypt, ECDSA and base64: uninterpreted fields of `Protocol`; a node's own address is taken as already decoded to 20 bytes.
- The body of the reorganisation and the edits of side-chain trees: `TreeEdit` and `Reorganise` stand for them and are proved unreachable.
- The floating-point logarithm in `nextPowerOfTwo`: modelled as the integer floor of the logarithm.
- `numPending`: whether enough transactions are pending is an arbitrary choice, since the counter drifts from the table; the runs of `Scenarios` mine one or two transactions at a time.
- Blocks.ProofOfWork: requires that some nonce works, because the Go loop does not end otherwise; `GenerateBlock` and `GenerateGenesisBlock` inherit this.
- Node.DRNode.MineOnce: requires that a nonce works for the block this pass leads to, whichever order the map yields. The miner as a state machine in `Interleaving` has no such condition and may search forever.
- Transactions.HashCovers: is about transactions of the same shape, since fields are joined without their lengths (`ShapesMatter`); transactions are identified by hash.
- MapOrder.MineAnyOrder: takes distinct inputs and fresh outpoints as hypotheses; without the first the order matters, as `OrderDecides` shows.
- Holdings.HoldingsMove: takes distinct inputs and fresh outpoints as hypotheses, since the code checks neither and two rewards can share one entry.
- Spending.NoDoubleSpend: is about two different blocks; within one block repeated inputs are not refused, as said above.
- Replay.ReplayReproduces: is about a node that started without peers; a node that joined holds every replayed block twice in its log, as `Node.DRNode.Replay` states.
- Concurrency.ReadersSeeWholeBlocks: the step of a block's transactions is one transaction, not one memory access; the miner's read of the list of connections without `peermu` is not modelled.
- Concurrency.NoDeadlock: is about locks; it does not say that a handler that can move is ever scheduled, and a run ends when a handler panics.
- Gossip.GossipConverges: supposes that rounds happen (`RoundExists` says that they can), that dials between nodes succeed in them and that clerks bring no news; timers are not modelled.
- Gossip.KnowledgeGrows: gossip replies are not merged, because the channel for them is never created.
- Flood.FloodCovers: peer lists are fixed while one transaction floods.
- Clerk.SignTx: a failing signature call is not modelled, and the clerk's retries over servers are left out.
- Client.RenderFrontPage: supposes that no two contents of the chain with the same hash have different parents or types; such a collision could make the recursion of the source run for ever.
- Client.IndexAndScore: abbreviations of six bytes are assumed to tell the hashes of the chain apart; printing is left out.
- UTXO entries are values in nested maps, so aliasing of entry pointers is not represented.
- src/client/client2.go (a near copy of the client), src/clerk/bad_clerk.go (malformed transactions for tests), src/util (key pairs) and all command handling have no logic of their own.
