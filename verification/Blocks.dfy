/** Blocks: packing, mining and validating (src/node/block.go). */
module Blocks {
  import opened Wire
  import opened Transactions
  import opened Merkle

  datatype Block = Block(
    prevBlock: Bytes,
    merkleRoot: Bytes,
    timestamp: U32,
    nonce: U32,
    bits: U32,
    blockHash: Bytes,
    transactions: seq<Transaction>)

  const NONCE_INDEX := 76

  // ---------------------------------------------------------------- header

  /** Everything in the header but the nonce. */
  function HeaderPrefix(b: Block): (h: Bytes)
    ensures |h| == NONCE_INDEX
  {
    [1, 0, 0, 0] + Fit(b.prevBlock, HASH_NUM_BYTES) + Fit(b.merkleRoot, HASH_NUM_BYTES)
    + PackInt(b.timestamp) + PackInt(b.bits)
  }

  /** The 80 bytes that are hashed. */
  function Header(b: Block): (h: Bytes)
    ensures |h| == DATA_NUM_BYTES
  {
    HeaderPrefix(b) + PackInt(b.nonce)
  }

  method Pack(b: Block) returns (data: array<Byte>)
    ensures fresh(data) && data[..] == Header(b)
  {
    data := new Byte[DATA_NUM_BYTES](_ => 0);
    assert data[..] == [] + Zeros(DATA_NUM_BYTES);
    var head := Append(data, [], [1, 0, 0, 0]);
    assert head == [1, 0, 0, 0];
    head := Append(data, head, Fit(b.prevBlock, HASH_NUM_BYTES));
    head := Append(data, head, Fit(b.merkleRoot, HASH_NUM_BYTES));
    head := Append(data, head, PackInt(b.timestamp));
    head := Append(data, head, PackInt(b.bits));
    head := Append(data, head, PackInt(b.nonce));
  }

  /** Hash fields of the length the node writes. */
  predicate Sized(b: Block) {
    |b.prevBlock| == HASH_NUM_BYTES && |b.merkleRoot| == HASH_NUM_BYTES
  }

  /** The header determines every field it was packed from. */
  lemma HeaderInjective(a: Block, b: Block)
    requires Sized(a) && Sized(b) && Header(a) == Header(b)
    ensures a.prevBlock == b.prevBlock && a.merkleRoot == b.merkleRoot
    ensures a.timestamp == b.timestamp && a.bits == b.bits && a.nonce == b.nonce
  {
    HeaderSlices(a);
    HeaderSlices(b);
    PackIntRoundTrip(a.timestamp);
    PackIntRoundTrip(b.timestamp);
    PackIntRoundTrip(a.bits);
    PackIntRoundTrip(b.bits);
    PackIntRoundTrip(a.nonce);
    PackIntRoundTrip(b.nonce);
  }

  lemma HeaderSlices(b: Block)
    requires Sized(b)
    ensures Header(b)[..4] == [1, 0, 0, 0]
    ensures Header(b)[4..36] == b.prevBlock && Header(b)[36..68] == b.merkleRoot
    ensures Header(b)[68..72] == PackInt(b.timestamp) && Header(b)[72..76] == PackInt(b.bits)
    ensures Header(b)[76..] == PackInt(b.nonce)
  {
  }

  // ---------------------------------------------------------------- proof of work

  predicate LeadingZeros(h: Bytes, n: nat)
    requires n <= |h|
  {
    h[..n] == Zeros(n)
  }

  predicate Works(p: Protocol, b: Block, nonce: U32)
    requires b.bits <= HASH_NUM_BYTES
  {
    LeadingZeros(p.hash(Header(b.(nonce := nonce))), b.bits)
  }

  ghost predicate LeastWorking(p: Protocol, b: Block, nonce: U32)
    requires b.bits <= HASH_NUM_BYTES
  {
    Works(p, b, nonce) && forall m: U32 | m < nonce :: !Works(p, b, m)
  }

  /** Patches the nonce in the packed buffer until the hash has enough leading zeros.
      When no nonce works the Go loop never ends; that is the precondition. */
  method ProofOfWork(p: Protocol, b: Block) returns (r: Block)
    requires b.bits <= HASH_NUM_BYTES
    requires exists n: U32 :: Works(p, b, n)
    ensures r == b.(nonce := r.nonce, blockHash := p.hash(Header(r)))
    ensures LeastWorking(p, b, r.nonce)
  {
    ghost var n: U32 :| Works(p, b, n);
    var data := Pack(b);
    assert data[..NONCE_INDEX] == HeaderPrefix(b);
    var nonce: U32 := 0;
    while true
      invariant nonce <= n
      invariant forall m: U32 | m < nonce :: !Works(p, b, m)
      invariant data[..NONCE_INDEX] == HeaderPrefix(b)
      decreases n - nonce
    {
      Copy(data, NONCE_INDEX, PackInt(nonce));
      assert data[..] == Header(b.(nonce := nonce));
      assert data[..NONCE_INDEX] == HeaderPrefix(b);
      var hash := p.hash(data[..]);
      if hash[..b.bits] == Zeros(b.bits) {
        r := b.(nonce := nonce, blockHash := hash);
        return;
      }
      assert !Works(p, b, nonce);
      nonce := nonce + 1;
    }
  }

  // ---------------------------------------------------------------- producing

  function MakeCoinbaseTx(n: nat, pkHash: Bytes): Transaction {
    Transaction(COINBASE, [], [TxOut(CoinbaseValue(n), pkHash)], [], [])
  }

  /** The reward of a block with `n` ordinary transactions, in uint32. */
  function CoinbaseValue(n: nat): U32 {
    Wrap(n * TX_FEE + TX_COINBASE)
  }

  /** A header that commits to its transactions and meets its own difficulty. */
  ghost predicate Sealed(p: Protocol, b: Block) {
    && b.transactions != []
    && b.bits == p.difficulty
    && b.merkleRoot == MerkleRoot(p, b.transactions)
    && b.blockHash == p.hash(Header(b))
    && LeadingZeros(b.blockHash, b.bits)
  }

  /** What `GenerateBlock` returns, for some clock reading. */
  ghost predicate Generated(p: Protocol, prev: Bytes, txs: seq<Transaction>, pkHash: Bytes, b: Block) {
    && b.prevBlock == prev
    && b.transactions == txs + [MakeCoinbaseTx(|txs|, pkHash)]
    && Sealed(p, b)
    && LeastWorking(p, b, b.nonce)
  }

  /** The block before its nonce is found. */
  function Template(p: Protocol, prev: Bytes, txs: seq<Transaction>, now: U32): Block
    requires txs != []
  {
    Block(prev, MerkleRoot(p, txs), now, 0, p.difficulty, [], txs)
  }

  method GenerateBlock(p: Protocol, prev: Bytes, txs: seq<Transaction>, pkHash: Bytes, now: U32) returns (b: Block)
    requires forall tx | tx in txs :: Hashable(tx)
    requires |pkHash| >= PKHASH_NUM_BYTES
    requires exists n: U32 :: Works(p, Template(p, prev, txs + [MakeCoinbaseTx(|txs|, pkHash)], now), n)
    ensures Generated(p, prev, txs, pkHash, b) && b.timestamp == now
  {
    var all := txs + [MakeCoinbaseTx(|txs|, pkHash)];
    var root := BuildMerkleTreeStore(p, all);
    ghost var n: U32 :| Works(p, Template(p, prev, all, now), n);
    var t := Block(prev, root, now, 0, p.difficulty, [], all);
    assert Works(p, t, n);
    b := ProofOfWork(p, t);
    SameHeaderWork(p, t, b);
  }

  /** The search ignores the fields it fills in. */
  lemma SameHeaderWork(p: Protocol, t: Block, b: Block)
    requires t.bits <= HASH_NUM_BYTES
    requires b == t.(nonce := b.nonce, blockHash := b.blockHash, transactions := b.transactions)
    ensures forall n: U32 :: Works(p, t, n) <==> Works(p, b, n)
  {
    assert HeaderPrefix(t) == HeaderPrefix(b);
    forall n: U32
      ensures Works(p, t, n) <==> Works(p, b, n)
    {
      assert HeaderPrefix(t.(nonce := n)) == HeaderPrefix(b.(nonce := n));
    }
  }

  // ---------------------------------------------------------------- genesis

  const GENESIS_TIME: U32 := 1494688622

  function GenesisTx(p: Protocol): Transaction {
    Transaction(COINBASE, [], seq(10, k requires 0 <= k < 10 => TxOut(100, p.founders[k])), [], [])
  }

  ghost predicate IsGenesis(p: Protocol, b: Block) {
    && b.prevBlock == Zeros(HASH_NUM_BYTES)
    && b.timestamp == GENESIS_TIME
    && b.transactions == [GenesisTx(p)]
    && Sealed(p, b)
    && LeastWorking(p, b, b.nonce)
  }

  method GenerateGenesisBlock(p: Protocol) returns (b: Block)
    requires exists n: U32 :: Works(p, Template(p, Zeros(HASH_NUM_BYTES), [GenesisTx(p)], GENESIS_TIME), n)
    ensures IsGenesis(p, b)
  {
    var txs := [GenesisTx(p)];
    var root := BuildMerkleTreeStore(p, txs);
    ghost var n: U32 :| Works(p, Template(p, Zeros(HASH_NUM_BYTES), txs, GENESIS_TIME), n);
    var t := Block(Zeros(HASH_NUM_BYTES), root, GENESIS_TIME, 0, p.difficulty, [], txs);
    assert Works(p, t, n);
    b := ProofOfWork(p, t);
    SameHeaderWork(p, t, b);
  }

  /** Every node starts from the same block. */
  lemma GenesisUnique(p: Protocol, a: Block, b: Block)
    requires IsGenesis(p, a) && IsGenesis(p, b)
    ensures a == b
  {
    SameHeaderWork(p, a, b);
    assert Works(p, a, b.nonce) && Works(p, b, a.nonce);
    assert a.nonce == b.nonce;
  }

  // ---------------------------------------------------------------- validating

  function VerifyCoinbaseTx(tx: Transaction): Verdict {
    if tx.kind != COINBASE || tx.txIns != [] || |tx.txOuts| != 1 || tx.parent != [] || tx.content != [] then Reject
    else Accept
  }

  function ValidateBlock(p: Protocol, b: Block): Verdict {
    if b.transactions == [] then Reject
    else if b.bits != p.difficulty then Reject
    else if |b.blockHash| < b.bits then Panic
    else if b.blockHash[..b.bits] != Zeros(b.bits) then Reject
    else if b.blockHash != p.hash(Header(b)) then Reject
    else if exists tx | tx in b.transactions :: !Hashable(tx) then Panic
    else if b.merkleRoot != MerkleRoot(p, b.transactions) then Reject
    else if VerifyCoinbaseTx(b.transactions[|b.transactions| - 1]) != Accept then Reject
    else if exists k | 0 <= k < |b.transactions| - 1 :: b.transactions[k].kind == COINBASE then Reject
    else Accept
  }

  /** The right difficulty, and a block hash too short to be compared with it, or the right
      hash over a transaction whose own hash cannot be computed. */
  predicate Unhashable(p: Protocol, b: Block) {
    && b.transactions != [] && b.bits == p.difficulty
    && (|b.blockHash| < b.bits
        || (LeadingZeros(b.blockHash, b.bits) && b.blockHash == p.hash(Header(b))
            && exists tx | tx in b.transactions :: !Hashable(tx)))
  }

  lemma ValidateBlockPanicsExactly(p: Protocol, b: Block)
    ensures ValidateBlock(p, b) == Panic <==> Unhashable(p, b)
  {
    hide Header, Hashable, VerifyCoinbaseTx;
  }

  /** A block the miner makes passes the validator exactly when none of the transactions
      it was given is of type COINBASE. */
  lemma MinerAgreesWithValidator(p: Protocol, prev: Bytes, txs: seq<Transaction>, pkHash: Bytes, b: Block)
    requires Generated(p, prev, txs, pkHash, b)
    requires forall tx | tx in txs :: Hashable(tx)
    requires |pkHash| >= PKHASH_NUM_BYTES
    ensures ValidateBlock(p, b) == Accept <==> forall tx | tx in txs :: tx.kind != COINBASE
    ensures ValidateBlock(p, b) != Panic
  {
    var last := MakeCoinbaseTx(|txs|, pkHash);
    assert b.transactions[|b.transactions| - 1] == last;
    forall tx | tx in b.transactions
      ensures Hashable(tx)
    {
      assert tx in txs || tx == last;
    }
    assert forall k | 0 <= k < |txs| :: b.transactions[k] == txs[k];
  }

  /** The genesis block pays ten addresses, so no node accepts it from the network. */
  lemma GenesisRejected(p: Protocol, g: Block)
    requires IsGenesis(p, g)
    ensures ValidateBlock(p, g) == Reject
  {
    assert g.transactions[0] == GenesisTx(p);
    assert |GenesisTx(p).txOuts| == 10;
    assert Hashable(GenesisTx(p));
  }

  lemma AcceptedIsSealed(p: Protocol, b: Block)
    requires ValidateBlock(p, b) == Accept
    ensures Sealed(p, b) && forall tx | tx in b.transactions :: Hashable(tx)
  {
  }

  // ---------------------------------------------------------------- chains of blocks

  ghost predicate Linked(chain: seq<Block>) {
    forall k | 1 <= k < |chain| :: chain[k].prevBlock == chain[k - 1].blockHash
  }

  /** A chain grown from the genesis block by sealed blocks. */
  ghost predicate SealedChain(p: Protocol, chain: seq<Block>) {
    && chain != []
    && IsGenesis(p, chain[0])
    && (forall b | b in chain :: Sealed(p, b))
    && Linked(chain)
  }

  ghost predicate HasZeroHash(chain: seq<Block>) {
    exists b | b in chain :: b.blockHash == Zeros(HASH_NUM_BYTES)
  }

  ghost predicate SameHeaders(a: seq<Block>, b: seq<Block>) {
    && |a| == |b|
    && forall k | 0 <= k < |a| :: Header(a[k]) == Header(b[k])
  }

  /** A block of one chain and a block of the other whose different headers have the same
      hash. */
  ghost predicate HeadersCollide(p: Protocol, a: seq<Block>, b: seq<Block>) {
    exists j, k :: 0 <= j < |a| && 0 <= k < |b| && Header(a[j]) != Header(b[k]) &&
      p.hash(Header(a[j])) == p.hash(Header(b[k]))
  }

  lemma SealedSized(p: Protocol, chain: seq<Block>, k: nat)
    requires SealedChain(p, chain) && k < |chain|
    ensures Sized(chain[k]) && |chain[k].blockHash| == HASH_NUM_BYTES
  {
    if k > 0 {
      assert Sealed(p, chain[k - 1]);
    }
    assert Sealed(p, chain[k]);
  }

  lemma ChainPrefix(p: Protocol, chain: seq<Block>, n: nat)
    requires SealedChain(p, chain) && 0 < n <= |chain|
    ensures SealedChain(p, chain[..n])
  {
  }

  /** The tip's hash fixes the whole history: equal tips mean equal length and equal
      headers throughout, or two of their own headers collide, or a block hash is all zeros. */
  lemma {:induction false} TipFixesHistory(p: Protocol, a: seq<Block>, b: seq<Block>)
    requires SealedChain(p, a) && SealedChain(p, b)
    requires a[|a| - 1].blockHash == b[|b| - 1].blockHash
    ensures SameHeaders(a, b) || HeadersCollide(p, a, b) || HasZeroHash(a) || HasZeroHash(b)
    decreases |a|
  {
    var m, n := |a| - 1, |b| - 1;
    TipHeaders(p, a, b);
    if HeadersCollide(p, a, b) {
    } else if m == 0 && n == 0 {
    } else if m == 0 {
      assert b[n - 1].blockHash == Zeros(HASH_NUM_BYTES);
    } else if n == 0 {
      assert a[m - 1].blockHash == Zeros(HASH_NUM_BYTES);
    } else {
      ChainPrefix(p, a, m);
      ChainPrefix(p, b, n);
      TipFixesHistory(p, a[..m], b[..n]);
      ExtendHistory(p, a, b);
    }
  }

  /** Equal tip hashes give equal tip headers, hence equal parents. */
  lemma TipHeaders(p: Protocol, a: seq<Block>, b: seq<Block>)
    requires SealedChain(p, a) && SealedChain(p, b)
    requires a[|a| - 1].blockHash == b[|b| - 1].blockHash
    ensures HeadersCollide(p, a, b) || (Header(a[|a| - 1]) == Header(b[|b| - 1]) &&
      a[|a| - 1].prevBlock == b[|b| - 1].prevBlock)
  {
    var x, y := a[|a| - 1], b[|b| - 1];
    SealedSized(p, a, |a| - 1);
    SealedSized(p, b, |b| - 1);
    assert Sealed(p, x) && Sealed(p, y);
    if Header(x) == Header(y) {
      HeaderInjective(x, y);
    } else {
      assert p.hash(Header(x)) == p.hash(Header(y));
    }
  }

  lemma ExtendHistory(p: Protocol, a: seq<Block>, b: seq<Block>)
    requires |a| > 1 && |b| > 1
    requires SameHeaders(a[..|a| - 1], b[..|b| - 1]) || HeadersCollide(p, a[..|a| - 1], b[..|b| - 1]) ||
      HasZeroHash(a[..|a| - 1]) || HasZeroHash(b[..|b| - 1])
    requires Header(a[|a| - 1]) == Header(b[|b| - 1])
    ensures SameHeaders(a, b) || HeadersCollide(p, a, b) || HasZeroHash(a) || HasZeroHash(b)
  {
    if SameHeaders(a[..|a| - 1], b[..|b| - 1]) {
      forall k | 0 <= k < |a|
        ensures Header(a[k]) == Header(b[k])
      {
        if k < |a| - 1 {
          assert a[..|a| - 1][k] == a[k] && b[..|b| - 1][k] == b[k];
        }
      }
    }
  }

  /** Equal headers commit to the same transactions, block by block. */
  lemma SameHeadersSameTransactions(p: Protocol, a: seq<Block>, b: seq<Block>, k: nat)
    requires SealedChain(p, a) && SealedChain(p, b) && SameHeaders(a, b)
    requires k < |a| && |a[k].transactions| == |b[k].transactions|
    ensures TxHashes(p, a[k].transactions) == TxHashes(p, b[k].transactions) ||
      BranchesCollide(p, TxHashes(p, a[k].transactions), TxHashes(p, b[k].transactions))
  {
    SealedSized(p, a, k);
    SealedSized(p, b, k);
    HeaderInjective(a[k], b[k]);
    assert Sealed(p, a[k]) && Sealed(p, b[k]);
    MerkleBinding(p, a[k].transactions, b[k].transactions);
  }
}
