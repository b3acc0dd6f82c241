/** Runs that show where the node falls short, in any protocol in which the few blocks
    concerned can be mined and a founder can sign: a log that does not replay, a supply past
    its bound, and two honest posts that crash the miner and every node it tells. */
module Scenarios {
  import opened Lists
  import opened Wire
  import opened Transactions
  import opened Blocks
  import opened Utxo
  import opened Supply
  import opened BlockOrder
  import opened Validation
  import opened Ledger
  import opened Invariants
  import opened BlockPanics
  import opened Crashes
  import opened Acknowledgements
  import opened Replay
  import opened Clerk
  import opened ClerkAccepted

  // ---------------------------------------------------------------- mining in a lemma

  /** At some time some nonce works for these transactions on this parent. */
  ghost predicate Minable(p: Protocol, prev: Bytes, txs: seq<Transaction>, me: Address) {
    exists now: U32, n: U32 :: Works(p, Template(p, prev, txs + [MakeCoinbaseTx(|txs|, me)], now), n)
  }

  lemma {:induction false} LeastFrom(p: Protocol, t: Block, from: U32, n: U32) returns (m: U32)
    requires t.bits <= HASH_NUM_BYTES && from <= n && Works(p, t, n) && forall k: U32 | k < from :: !Works(p, t, k)
    ensures LeastWorking(p, t, m)
    decreases n - from
  {
    hide Works;
    if Works(p, t, from) {
      m := from;
    } else {
      m := LeastFrom(p, t, from + 1, n);
    }
  }

  lemma MineBlock(p: Protocol, prev: Bytes, txs: seq<Transaction>, me: Address) returns (b: Block)
    requires Minable(p, prev, txs, me)
    ensures Generated(p, prev, txs, me, b)
  {
    var all := txs + [MakeCoinbaseTx(|txs|, me)];
    var now: U32, n: U32 :| Works(p, Template(p, prev, all, now), n);
    var t := Template(p, prev, all, now);
    var m := LeastFrom(p, t, 0, n);
    b := t.(nonce := m, blockHash := p.hash(Header(t.(nonce := m))));
    assert Header(b) == Header(t.(nonce := m));
    SameHeaderWork(p, t, b);
  }

  /** A pass of the miner whose selection is known. */
  lemma MineThese(p: Protocol, me: Address, s: State, order: seq<Bytes>, keys: seq<Bytes>, txs: seq<Transaction>)
      returns (b: Block, r: Outcome)
    requires IsOrder(order, s.pending) && (forall h | h in keys :: h in s.pending) && txs == TxsOf(s.pending, keys)
    requires Collect(p, AllTxs(s.chain), s.entries, s.pending, order) == Batch(keys, s.pending)
    requires Minable(p, PrevHash(s.chain), txs, me)
    ensures Generated(p, PrevHash(s.chain), txs, me, b) && Mines(p, me, s, order, b, r)
    ensures r == Commit(p, s, keys, b)
  {
    hide Collect, IsOrder, Generated, Commit, Minable, TxsOf;
    b := MineBlock(p, PrevHash(s.chain), txs, me);
    r := Commit(p, s, keys, b);
  }

  // ---------------------------------------------------------------- the first block

  /** A founder's key, and the output of the genesis block that pays it. */
  ghost predicate Founder(p: Protocol, keys: Keys, f: nat) {
    f < 10 && SignaturesVerify(p, keys) && Owner(p, keys) == p.founders[f]
  }

  function FounderCoin(p: Protocol, f: nat): UnspentTx
    requires f < 10
  {
    UnspentTx(TxHash(p, GenesisTx(p)), f, 100)
  }

  /** The genesis view: ten coins of one transaction. */
  lemma BootView(p: Protocol, s: State, f: nat)
    requires Boot(p, s) && f < 10
    ensures Inv(p, s) && Sum(ViewOf(p, s.chain)) == 1000 && AllTxs(s.chain) == [GenesisTx(p)]
    ensures var v := ViewOf(p, s.chain);
      && Agrees(s.entries, v) && Compact(s.entries)
      && (forall o | o in v :: o.txHash == TxHash(p, GenesisTx(p)))
      && Where(FounderCoin(p, f)) in v && v[Where(FounderCoin(p, f))] == TxOut(100, p.founders[f])
  {
    hide IsGenesis, TxHash;
    BootInv(p, s);
    assert s.chain == [s.chain[0]];
    BootTxs(p, s.chain[0]);
    GenesisSupply(p, s.chain[0]);
    GenesisView(p, f);
  }

  lemma GenesisView(p: Protocol, f: nat)
    requires f < 10
    ensures var v := FoldTxs(p, map[], [GenesisTx(p)]);
      && (forall o | o in v :: o.txHash == TxHash(p, GenesisTx(p)))
      && Where(FounderCoin(p, f)) in v && v[Where(FounderCoin(p, f))] == TxOut(100, p.founders[f])
  {
    hide TxHash;
    var tx, none: View := GenesisTx(p), map[];
    assert none - SpentBy(tx.txIns) == none;
    assert [tx][..0] == [];
    FoldOutsKeys(TxHash(p, tx), tx.txOuts);
  }

  lemma FounderOwns(p: Protocol, s: State, keys: Keys, f: nat)
    requires Boot(p, s) && Founder(p, keys, f)
    ensures Coins(s.entries, Owner(p, keys), [FounderCoin(p, f)])
  {
    hide Boot, Inv, ViewOf, TxHash, SignaturesVerify;
    BootView(p, s, f);
    var u := FounderCoin(p, f);
    assert Unspent(s.entries, Where(u)) && Coin(s.entries, Where(u)) == TxOut(100, p.founders[f]);
  }

  /** A clerk sends an acceptable transaction to a fresh node, which mines it. */
  lemma OneBlock(p: Protocol, me: Address, s0: State, tx: Transaction) returns (s1: State, b: Block, s2: State)
    requires Boot(p, s0) && ValidComponents(tx) && CheckTx(p, AllTxs(s0.chain), s0.entries, tx) == Accept
    requires ApplyTx(p, s0.entries, tx).Some? && Minable(p, PrevHash(s0.chain), [tx], me)
    ensures Run(p, me, [s0, s1, s2], [Admitted(tx, 0), Mined([TxHash(p, tx)], b)])
    ensures Generated(p, PrevHash(s0.chain), [tx], me, b) && s2.chain == s0.chain + [b]
    ensures s2.seen == {TxHash(p, tx)} && s2.pending == map[TxHash(p, tx) := TxNode(tx, 0, Success, TxHash(p, tx))]
  {
    hide CheckTx, ApplyTxs, ApplyTx, Generated, Minable, TxHash, IsGenesis, ValidComponents, Mines, Collect, IsOrder,
      Commit, TxsOf, Inv;
    var h := TxHash(p, tx);
    s1 := Admit(p, s0, tx, 0).0;
    assert s1.pending == map[h := TxNode(tx, 0, Pending, h)];
    CollectSingle(p, AllTxs(s0.chain), s0.entries, h, s1.pending[h]);
    TxsOfOne(s1.pending, h);
    var r;
    b, r := MineThese(p, me, s1, [h], [h], [tx]);
    BootInv(p, s0);
    OneBlockApplies(p, me, s0, s1, tx, b);
    CommitsOne(p, s1, h, b);
    s2 := r.state;
    assert Step(p, me, s0, Admitted(tx, 0), s1) && Step(p, me, s1, Mined([h], b), s2);
  }

  lemma TxsOfOne(m: map<Bytes, TxNode>, h: Bytes)
    requires h in m
    ensures TxsOf(m, [h]) == [m[h].tx]
  {
  }

  lemma CommitsOne(p: Protocol, s: State, h: Bytes, b: Block)
    requires h in s.pending && Extends(s.chain, b) && ApplyTxs(p, s.entries, b.transactions).Some?
    ensures var r := Commit(p, s, [h], b);
      && r.Next? && r.state.chain == s.chain + [b] && r.state.seen == s.seen
      && r.state.pending == s.pending[h := s.pending[h].(status := Success)]
  {
    hide ApplyTxs;
  }

  lemma CollectSingle(p: Protocol, past: seq<Transaction>, e: Entries, h: Bytes, n: TxNode)
    requires n.status == Pending && CheckTx(p, past, e, n.tx) == Accept
    ensures IsOrder([h], map[h := n]) && Collect(p, past, e, map[h := n], [h]) == Batch([h], map[h := n])
  {
    hide CheckTx;
    assert [h][..0] == [];
  }

  lemma OneBlockApplies(p: Protocol, me: Address, s0: State, s1: State, tx: Transaction, b: Block)
    requires Inv(p, s0) && s1.chain == s0.chain && s1.entries == s0.entries && ApplyTx(p, s0.entries, tx).Some?
    requires Generated(p, PrevHash(s0.chain), [tx], me, b)
    ensures Extends(s1.chain, b) && ApplyTxs(p, s1.entries, b.transactions).Some?
  {
    hide Agrees, History, PendingInv, Sealed, LeastWorking, ApplyTx;
    ReadTipExtends(p, s0.chain, b);
    var reward := MakeCoinbaseTx(1, me);
    assert [tx][..0] == [] && b.transactions == [tx, reward] && [tx, reward][..1] == [tx];
    assert ApplyTxs(p, s0.entries, [tx]) == ApplyTx(p, s0.entries, tx);
    RewardApplies(p, ApplyTx(p, s0.entries, tx).value, me);
  }

  lemma RewardApplies(p: Protocol, e: Entries, me: Address)
    ensures ApplyTx(p, e, MakeCoinbaseTx(1, me)).Some?
  {
  }

  /** Requests are acknowledged: the first look after that block answers true. */
  lemma RequestIsAcknowledged(p: Protocol, me: Address, s0: State, tx: Transaction)
      returns (tr: seq<State>, evs: seq<Event>)
    requires Boot(p, s0) && ValidComponents(tx) && CheckTx(p, AllTxs(s0.chain), s0.entries, tx) == Accept
    requires ApplyTx(p, s0.entries, tx).Some? && Minable(p, PrevHash(s0.chain), [tx], me)
    ensures Run(p, me, tr, evs) && |tr| == 4 && tr[0] == s0 && Admit(p, s0, tx, 0) == (tr[1], true)
    ensures evs[2] == Polled(TxHash(p, tx)) && TxHash(p, tx) in tr[2].pending
    ensures Poll(tr[2], TxHash(p, tx)) == (tr[3], Some(true))
  {
    hide Boot, ValidComponents, CheckTx, ApplyTx, Minable, Mines, TxHash, Poll, Admit, Generated;
    var h := TxHash(p, tx);
    var s1, b, s2 := OneBlock(p, me, s0, tx);
    var evs0 := [Admitted(tx, 0), Mined([h], b)];
    assert Step(p, me, [s0, s1, s2][0], evs0[0], [s0, s1, s2][1]);
    assert Step(p, me, [s0, s1, s2][1], evs0[1], [s0, s1, s2][2]);
    BootSeesNothing(p, s0);
    AdmitEffect(p, s0, tx, 0);
    PollEffect(s2, h);
    var s3 := Poll(s2, h).0;
    tr, evs := [s0, s1, s2, s3], evs0 + [Polled(h)];
    assert Step(p, me, s2, Polled(h), s3);
  }

  lemma BootSeesNothing(p: Protocol, s: State)
    requires Boot(p, s)
    ensures s.seen == {}
  {
  }

  // ---------------------------------------------------------------- a log that does not replay

  /** A payment from a founder back to itself, labelled COINBASE. */
  function Mislabelled(p: Protocol, keys: Keys, f: nat): Transaction
    requires f < 10
  {
    SayTx(p, keys, FounderCoin(p, f), COINBASE, [], [])
  }

  /** The founder's self-payments pass the node's check and apply without a panic. */
  lemma SelfPaymentPasses(p: Protocol, s: State, keys: Keys, f: nat, kind: U32, content: Bytes)
    requires Boot(p, s) && Founder(p, keys, f) && kind != UPVOTE && kind != COMMENT
    ensures var tx := SayTx(p, keys, FounderCoin(p, f), kind, [], content);
      && ValidComponents(tx) && CheckTx(p, AllTxs(s.chain), s.entries, tx) == Accept
      && ApplyTx(p, s.entries, tx).Some?
  {
    hide Boot, ViewOf, Coins, Agrees, SignaturesVerify, CheckTx, SayTx, Compact, TxHash, SealedChain, History,
      PendingInv;
    BootView(p, s, f);
    FounderOwns(p, s, keys, f);
    var u := FounderCoin(p, f);
    SayIsAcceptedExactly(p, AllTxs(s.chain), s.entries, ViewOf(p, s.chain), keys, u, kind, [], content);
    var tx := SayTx(p, keys, u, kind, [], content);
    DistinctSpendsSucceed(s.entries, ViewOf(p, s.chain), tx.txIns);
    AcceptedIsWellFormed(p, AllTxs(s.chain), s.entries, tx);
  }

  lemma AcceptedIsWellFormed(p: Protocol, past: seq<Transaction>, e: Entries, tx: Transaction)
    requires CheckTx(p, past, e, tx) == Accept
    ensures ValidComponents(tx)
  {
    ScanEnds(p, e, tx, tx.txIns);
    assert tx.txIns[0] in tx.txIns;
  }

  /** Two steps make a log that does not reproduce its node's chain: a clerk sends a
      transaction labelled COINBASE that spends an output, and the node mines. */
  lemma ReplayCanFail(p: Protocol, me: Address, keys: Keys, f: nat, s0: State) returns (tr: seq<State>, evs: seq<Event>)
    requires Boot(p, s0) && Founder(p, keys, f) && Minable(p, PrevHash(s0.chain), [Mislabelled(p, keys, f)], me)
    ensures Run(p, me, tr, evs) && |tr| == 3 && tr[0] == s0
    ensures !(ReplayLog(p, s0, tr[2].log).Next? && SameLedger(tr[2], ReplayLog(p, s0, tr[2].log).state))
  {
    hide Boot, PlainlyMined, ReplayLog, SameLedger, Run, SayTx, CheckTx, ApplyTx, Minable;
    var tx := Mislabelled(p, keys, f);
    SelfPaymentPasses(p, s0, keys, f, COINBASE, []);
    var s1, b, s2 := OneBlock(p, me, s0, tx);
    tr, evs := [s0, s1, s2], [Admitted(tx, 0), Mined([TxHash(p, tx)], b)];
    SayKeepsKind(p, keys, FounderCoin(p, f), COINBASE, [], []);
    NotPlain(p, PrevHash(s0.chain), tx, me, b);
    NotReplayed(p, me, tr, evs, 1, 2, s0);
  }

  lemma SayKeepsKind(p: Protocol, keys: Keys, u: UnspentTx, kind: U32, parent: Bytes, content: Bytes)
    ensures SayTx(p, keys, u, kind, parent, content).kind == kind
  {
  }

  lemma NotPlain(p: Protocol, prev: Bytes, tx: Transaction, me: Address, b: Block)
    requires Generated(p, prev, [tx], me, b) && tx.kind == COINBASE
    ensures !PlainlyMined(b)
  {
    hide Sealed, LeastWorking;
    assert Ordinary(b) == [tx];
    assert tx in Ordinary(b);
  }

  // ---------------------------------------------------------------- a supply past its bound

  /** A founder pays itself `value` from its one coin, naming it as often as `us` does. */
  function Pays(p: Protocol, keys: Keys, us: seq<UnspentTx>, value: U32): Transaction {
    Signed(p, keys, Transaction(TRANSFER, InsOf(us, keys.pubKey), [TxOut(value, Owner(p, keys))], [], []))
  }

  lemma SignedInputPasses(p: Protocol, e: Entries, keys: Keys, u: UnspentTx, us: seq<UnspentTx>, value: U32)
    requires SignaturesVerify(p, keys) && Coins(e, Owner(p, keys), [u]) && (us == [u] || us == [u, u])
    ensures var tx := Pays(p, keys, us, value);
      && ValidComponents(tx) && tx.kind == TRANSFER && tx.parent == [] && tx.txOuts == [TxOut(value, Owner(p, keys))]
      && |tx.txIns| == |us| && (forall k | 0 <= k < |us| ::
        tx.txIns[k] == tx.txIns[0] && Spends(tx.txIns[k]) == Where(u))
      && CheckInput(p, e, tx, tx.txIns[0]) == Accept
  {
    hide CheckInput, Owned, Coin;
    var t := Transaction(TRANSFER, InsOf(us, keys.pubKey), [TxOut(value, Owner(p, keys))], [], []);
    assert [u][0] in [u];
    assert ValidComponents(t);
    var m := HashNoSig(p, t).value;
    var tx := Pays(p, keys, us, value);
    HashNoSigIgnoresSigs(p, t, tx.txIns);
    CoinAccepted(p, e, keys, u, tx, m);
  }

  /** The three transactions on the chain after one block have different hashes. */
  ghost predicate HashesDiffer(p: Protocol, tx: Transaction, me: Address) {
    && TxHash(p, tx) != TxHash(p, GenesisTx(p))
    && TxHash(p, MakeCoinbaseTx(1, me)) != TxHash(p, GenesisTx(p))
    && TxHash(p, MakeCoinbaseTx(1, me)) != TxHash(p, tx)
  }

  lemma OneBlockSupply(p: Protocol, me: Address, s0: State, tx: Transaction, b: Block)
    requires Boot(p, s0) && Generated(p, PrevHash(s0.chain), [tx], me, b) && HashesDiffer(p, tx, me)
    ensures Sum(ViewOf(p, s0.chain + [b])) == Sum(FoldTx(p, ViewOf(p, s0.chain), tx)) + TX_COINBASE + TX_FEE
    ensures MaxSupply(s0.chain + [b]) == 1000 + TX_COINBASE + 2 * TX_FEE
  {
    hide Boot, Inv, ViewOf, TxHash, Generated, Sum, Overwritten, Fresh, FoldTx, Agrees, Compact, HashesDiffer,
      MaxSupply;
    BootView(p, s0, 0);
    var v, reward := ViewOf(p, s0.chain), MakeCoinbaseTx(1, me);
    var cur := FoldTx(p, v, tx);
    ChainAfterOne(p, me, s0, tx, b);
    RewardIsFresh(p, v, tx, me);
    RewardAdds(p, cur, me);
  }

  /** The chain after one block of one transaction. */
  lemma ChainAfterOne(p: Protocol, me: Address, s0: State, tx: Transaction, b: Block)
    requires Boot(p, s0) && Generated(p, PrevHash(s0.chain), [tx], me, b)
    ensures ViewOf(p, s0.chain + [b]) == FoldTx(p, FoldTx(p, ViewOf(p, s0.chain), tx), MakeCoinbaseTx(1, me))
    ensures MaxSupply(s0.chain + [b]) == 1000 + TX_COINBASE + 2 * TX_FEE
  {
    hide IsGenesis, Sealed, LeastWorking, ViewOf, FoldTx;
    var chain := s0.chain + [b];
    assert chain[..1] == s0.chain && b.transactions == [tx, MakeCoinbaseTx(1, me)];
    ViewOfLast(p, chain);
    FoldPair(p, ViewOf(p, s0.chain), tx, MakeCoinbaseTx(1, me));
    assert Ordinary(b) == [tx];
  }

  lemma RewardAdds(p: Protocol, v: View, me: Address)
    requires Fresh(v, TxHash(p, MakeCoinbaseTx(1, me)), MakeCoinbaseTx(1, me).txOuts)
    ensures Sum(FoldTx(p, v, MakeCoinbaseTx(1, me))) == Sum(v) + TX_COINBASE + TX_FEE
  {
    hide TxHash, Fresh, Sum, Overwritten, FoldTx;
    var reward := MakeCoinbaseTx(1, me);
    NothingSpentBy();
    assert v - SpentBy(reward.txIns) == v;
    SumFoldTx(p, v, reward);
    FreshOverwritesNothing(v, TxHash(p, reward), reward.txOuts);
    TotalOutOfOne(reward.txOuts[0]);
  }

  lemma TotalOutOfOne(o: TxOut)
    ensures TotalOut([o]) == o.value
  {
    assert [o][..0] == [];
  }

  lemma FoldPair(p: Protocol, v: View, a: Transaction, b: Transaction)
    ensures FoldTxs(p, v, [a, b]) == FoldTx(p, FoldTx(p, v, a), b)
  {
    hide FoldTx;
    assert [a, b][..1] == [a] && [a][..0] == [];
    assert FoldTxs(p, v, [a]) == FoldTx(p, v, a);
  }

  lemma RewardIsFresh(p: Protocol, v: View, tx: Transaction, me: Address)
    requires HashesDiffer(p, tx, me) && forall o | o in v :: o.txHash == TxHash(p, GenesisTx(p))
    ensures Fresh(FoldTx(p, v, tx), TxHash(p, MakeCoinbaseTx(1, me)), MakeCoinbaseTx(1, me).txOuts)
  {
    hide TxHash;
    FoldOutsIsUnion(v - SpentBy(tx.txIns), TxHash(p, tx), tx.txOuts);
    NewKeys(TxHash(p, tx), tx.txOuts);
  }

  /** The bound is reached by one transfer that pays out a unit more than it takes in. */
  lemma SupplyReachesBound(p: Protocol, me: Address, keys: Keys, f: nat, s0: State)
      returns (tr: seq<State>, evs: seq<Event>)
    requires Boot(p, s0) && Founder(p, keys, f)
    requires var tx := Pays(p, keys, [FounderCoin(p, f)], 101);
      HashesDiffer(p, tx, me) && Minable(p, PrevHash(s0.chain), [tx], me)
    ensures Run(p, me, tr, evs) && |tr| == 3 && tr[0] == s0
    ensures Sum(ViewOf(p, tr[2].chain)) == MaxSupply(tr[2].chain)
  {
    hide Boot, Run, ViewOf, CheckTx, ApplyTx, Minable, Agrees, Compact, CheckInput, HashesDiffer, Coins, Pays, Sum,
      FoldTx, SignaturesVerify, MaxSupply, Inv, TxHash;
    var u, v := FounderCoin(p, f), ViewOf(p, s0.chain);
    var tx := Pays(p, keys, [u], 101);
    BootView(p, s0, f);
    FounderOwns(p, s0, keys, f);
    SignedInputPasses(p, s0.entries, keys, u, [u], 101);
    assert tx.txIns == [tx.txIns[0]];
    TotalOutOfOne(tx.txOuts[0]);
    FirstIsFresh(p, v, tx, me);
    TransferCanCreateFee(p, AllTxs(s0.chain), s0.entries, v, tx, tx.txIns[0]);
    var s1, b, s2 := OneBlock(p, me, s0, tx);
    OneBlockSupply(p, me, s0, tx, b);
    tr, evs := [s0, s1, s2], [Admitted(tx, 0), Mined([TxHash(p, tx)], b)];
  }

  lemma FirstIsFresh(p: Protocol, v: View, tx: Transaction, me: Address)
    requires HashesDiffer(p, tx, me) && (forall o | o in v :: o.txHash == TxHash(p, GenesisTx(p))) && |tx.txOuts| == 1
    ensures Fresh(v - SpentBy(tx.txIns), TxHash(p, tx), tx.txOuts)
  {
    hide TxHash;
  }

  /** The bound is broken by one transfer that names the same output twice. */
  lemma SupplyCanExceed(p: Protocol, me: Address, keys: Keys, f: nat, s0: State)
      returns (tr: seq<State>, evs: seq<Event>)
    requires Boot(p, s0) && Founder(p, keys, f)
    requires var tx := Pays(p, keys, [FounderCoin(p, f), FounderCoin(p, f)], 201);
      HashesDiffer(p, tx, me) && Minable(p, PrevHash(s0.chain), [tx], me)
    ensures Run(p, me, tr, evs) && |tr| == 3 && tr[0] == s0
    ensures Sum(ViewOf(p, tr[2].chain)) == MaxSupply(tr[2].chain) + 100
  {
    hide Boot, Run, ViewOf, CheckTx, ApplyTx, Minable, Agrees, Compact, CheckInput, HashesDiffer, Coins, Pays, Sum,
      FoldTx, SignaturesVerify, MaxSupply, Inv, TxHash;
    var u, v := FounderCoin(p, f), ViewOf(p, s0.chain);
    var tx, g: nat := Pays(p, keys, [u, u], 201), if f == 0 then 1 else 0;
    BootView(p, s0, f);
    BootView(p, s0, g);
    FounderOwns(p, s0, keys, f);
    SignedInputPasses(p, s0.entries, keys, u, [u, u], 201);
    var i := tx.txIns[0];
    assert tx.txIns[1] == i;
    assert tx.txIns == [i, i];
    TotalOutOfOne(tx.txOuts[0]);
    FirstIsFresh(p, v, tx, me);
    RepeatedInputForges(p, AllTxs(s0.chain), s0.entries, v, tx, i, Where(FounderCoin(p, g)));
    var s1, b, s2 := OneBlock(p, me, s0, tx);
    OneBlockSupply(p, me, s0, tx, b);
    tr, evs := [s0, s1, s2], [Admitted(tx, 0), Mined([TxHash(p, tx)], b)];
  }

  // ---------------------------------------------------------------- two posts that crash

  /** `u` is the only output of its transaction that is still unspent. */
  ghost predicate LastOf(e: Entries, u: UnspentTx) {
    forall o: OutPoint | Unspent(e, o) && o.txHash == u.txHash :: o == Where(u)
  }

  function Post(p: Protocol, keys: Keys, u: UnspentTx, content: Bytes): Transaction {
    SayTx(p, keys, u, POST, [], content)
  }

  /** Two new posts, made from the same coin before the node has seen either. */
  ghost predicate TwoPosts(p: Protocol, s: State, keys: Keys, u: UnspentTx, c1: Bytes, c2: Bytes) {
    var h1, h2 := TxHash(p, Post(p, keys, u, c1)), TxHash(p, Post(p, keys, u, c2));
    h1 != h2 && h1 !in s.seen && h2 !in s.seen && h1 != u.txHash && h2 != u.txHash
  }

  /** The state after the node has taken both. */
  function BothTaken(p: Protocol, s: State, keys: Keys, u: UnspentTx, c1: Bytes, c2: Bytes): State {
    Admit(p, Admit(p, s, Post(p, keys, u, c1), 0).0, Post(p, keys, u, c2), 0).0
  }

  /** The block with both posts passes every check on its own transactions. */
  lemma PostsPass(p: Protocol, s: State, keys: Keys, u: UnspentTx, content: Bytes)
    requires Inv(p, s) && SignaturesVerify(p, keys) && Coins(s.entries, Owner(p, keys), [u]) &&
      TX_FEE <= u.value < TWO32 - TX_FEE
    ensures var tx := Post(p, keys, u, content);
      && tx.kind == POST && ValidComponents(tx) && CheckTx(p, AllTxs(s.chain), s.entries, tx) == Accept
      && |tx.txIns| == 1 && Spends(tx.txIns[0]) == Where(u)
  {
    hide CheckTx, ViewOf, Coins, Agrees, SignaturesVerify, TxHash, SealedChain, History, PendingInv;
    SayIsAcceptedExactly(p, AllTxs(s.chain), s.entries, ViewOf(p, s.chain), keys, u, POST, [], content);
    AcceptedIsWellFormed(p, AllTxs(s.chain), s.entries, Post(p, keys, u, content));
  }

  lemma {:induction false} BothCollected(p: Protocol, past: seq<Transaction>, e: Entries, pending: map<Bytes, TxNode>,
      order: seq<Bytes>, h1: Bytes, h2: Bytes)
    requires NoRepeats(order + [h1, h2]) && h1 in pending && h2 in pending
    requires forall h | h in order :: h in pending && pending[h].status != Pending
    requires Judged(p, past, e, pending[h1], Accept) && Judged(p, past, e, pending[h2], Accept)
    ensures Collect(p, past, e, pending, order) == Batch([], pending)
    ensures Collect(p, past, e, pending, order + [h1, h2]) == Batch([h1, h2], pending)
  {
    hide CheckTx;
    NoneCollected(p, past, e, pending, order);
    var o1, o2 := order + [h1], order + [h1, h2];
    assert o1[..|order|] == order && o2[..|o1|] == o1;
    assert Collect(p, past, e, pending, o1) == Batch([] + [h1], pending);
    assert [] + [h1] + [h2] == [h1, h2];
  }

  lemma {:induction false} NoneCollected(p: Protocol, past: seq<Transaction>, e: Entries, pending: map<Bytes, TxNode>,
      order: seq<Bytes>)
    requires forall h | h in order :: h in pending && pending[h].status != Pending
    ensures Collect(p, past, e, pending, order) == Batch([], pending)
  {
    hide CheckTx;
    if order != [] {
      NoneCollected(p, past, e, pending, order[..|order| - 1]);
    }
  }

  /** A block of two transactions that spend the last output of an entry overspends. */
  lemma TwiceOverspends(e: Entries, u: UnspentTx, a: Transaction, c: Transaction, b: Block, me: Address)
    requires LastOf(e, u) && b.transactions == [a, c, MakeCoinbaseTx(2, me)]
    requires |a.txIns| == 1 && Spends(a.txIns[0]) == Where(u) && |c.txIns| == 1 && Spends(c.txIns[0]) == Where(u)
    ensures exists k | 0 <= k < |Inputs(b.transactions)| :: Exhausted(e, Inputs(b.transactions), k)
  {
    var ins := [a.txIns[0], c.txIns[0]];
    InputsOfTwo(b, a, c, me);
    assert ins[..1] == [a.txIns[0]];
    assert Spends(ins[0]) in SpentBy(ins[..1]);
    assert Exhausted(e, ins, 1);
  }

  lemma InputsOfTwo(b: Block, a: Transaction, c: Transaction, me: Address)
    requires b.transactions == [a, c, MakeCoinbaseTx(2, me)] && |a.txIns| == 1 && |c.txIns| == 1
    ensures Inputs(b.transactions) == [a.txIns[0], c.txIns[0]]
  {
    var txs := b.transactions;
    assert txs[..2] == [a, c] && [a, c][..1] == [a] && [a][..0] == [];
    assert Inputs([a]) == a.txIns && Inputs([a, c]) == a.txIns + c.txIns;
    assert a.txIns == [a.txIns[0]] && c.txIns == [c.txIns[0]];
  }

  /** Whenever a node has no other pending transaction, two posts that a clerk makes from
      the same last output of a transaction crash the miner, and the block it made crashes
      every node with the same ledger that is sent it, although it passes every check. */
  lemma TwoPostsCrash(p: Protocol, me: Address, s: State, keys: Keys, u: UnspentTx, c1: Bytes, c2: Bytes,
      idle: seq<Bytes>)
    returns (order: seq<Bytes>, b: Block)
    requires Inv(p, s) && SignaturesVerify(p, keys) && Coins(s.entries, Owner(p, keys), [u])
    requires TX_FEE <= u.value < TWO32 - TX_FEE && LastOf(s.entries, u) && TwoPosts(p, s, keys, u, c1, c2)
    requires IsOrder(idle, s.pending) && forall h | h in s.pending :: s.pending[h].status != Pending
    requires Minable(p, PrevHash(s.chain), [Post(p, keys, u, c1), Post(p, keys, u, c2)], me)
    ensures var t := BothTaken(p, s, keys, u, c1, c2);
      && Inv(p, t) && Mines(p, me, t, order, b, Crash)
      && ValidateBlock(p, b) == Accept && Extends(t.chain, b) && CheckExtension(p, t, b) == Accept
      && Receive(p, t, b) == Crash
      && forall other | Inv(p, other) && SameLedger(t, other) :: Receive(p, other, b) == Crash
  {
    hide Inv, Coins, LastOf, SameLedger, Minable, CheckTx, Post, TxHash, SignaturesVerify, ValidateBlock,
      CheckExtension, Receive, Mines, Overspent, Collect, IsOrder, Generated, BothTaken, ValidComponents;
    var a, c := Post(p, keys, u, c1), Post(p, keys, u, c2);
    var t := BothTaken(p, s, keys, u, c1, c2);
    PostsPass(p, s, keys, u, c1);
    PostsPass(p, s, keys, u, c2);
    order := BothPending(p, s, keys, u, c1, c2, idle);
    var r;
    b, r := MineThese(p, me, t, order, [TxHash(p, a), TxHash(p, c)], [a, c]);
    TwoPostsBlock(p, me, s, t, keys, u, a, c, b);
    MineCrashesExactly(p, me, t, order, b, r);
    ReceiveCrashesExactly(p, t, b);
    forall other | Inv(p, other) && SameLedger(t, other)
      ensures Receive(p, other, b) == Crash
    {
      CrashSpreads(p, t, other, b);
    }
  }

  lemma BothPending(p: Protocol, s: State, keys: Keys, u: UnspentTx, c1: Bytes, c2: Bytes, idle: seq<Bytes>)
      returns (order: seq<Bytes>)
    requires Inv(p, s) && TwoPosts(p, s, keys, u, c1, c2)
    requires IsOrder(idle, s.pending) && forall h | h in s.pending :: s.pending[h].status != Pending
    requires forall x | x == c1 || x == c2 ::
      ValidComponents(Post(p, keys, u, x)) && CheckTx(p, AllTxs(s.chain), s.entries, Post(p, keys, u, x)) == Accept
    ensures var t, h1, h2 := BothTaken(p, s, keys, u, c1, c2), TxHash(p, Post(p, keys, u, c1)),
      TxHash(p, Post(p, keys, u, c2));
      && Inv(p, t) && t.chain == s.chain && t.entries == s.entries
      && IsOrder(order, t.pending) && h1 in t.pending && h2 in t.pending
      && TxsOf(t.pending, [h1, h2]) == [Post(p, keys, u, c1), Post(p, keys, u, c2)]
      && Collect(p, AllTxs(t.chain), t.entries, t.pending, order) == Batch([h1, h2], t.pending)
  {
    hide CheckTx, Collect, Post, ChainInv, PendingInv, ValidComponents, TxHash;
    var a, c := Post(p, keys, u, c1), Post(p, keys, u, c2);
    var h1, h2 := TxHash(p, a), TxHash(p, c);
    AdmitKeepsInv(p, s, a, 0);
    AdmitKeepsInv(p, Admit(p, s, a, 0).0, c, 0);
    var t := BothTaken(p, s, keys, u, c1, c2);
    assert t.pending == s.pending[h1 := TxNode(a, 0, Pending, h1)][h2 := TxNode(c, 0, Pending, h2)];
    order := idle + [h1, h2];
    OrderGrows(s.pending, t.pending, idle, h1, h2);
    BothCollected(p, AllTxs(s.chain), s.entries, t.pending, idle, h1, h2);
  }

  lemma OrderGrows(m: map<Bytes, TxNode>, m': map<Bytes, TxNode>, order: seq<Bytes>, h1: Bytes, h2: Bytes)
    requires IsOrder(order, m) && h1 !in m && h2 !in m && h1 != h2 && m'.Keys == m.Keys + {h1, h2}
    ensures IsOrder(order + [h1, h2], m')
  {
    var next := order + [h1, h2];
    assert forall h :: h in next <==> h in order || h == h1 || h == h2;
    forall j, k | 0 <= j < k < |next| ensures next[j] != next[k] {
      assert j < |order| ==> next[j] in order;
      assert k < |order| ==> next[k] in order;
    }
  }

  lemma TwoPostsBlock(p: Protocol, me: Address, s: State, t: State, keys: Keys, u: UnspentTx, a: Transaction,
      c: Transaction, b: Block)
    requires Inv(p, t) && t.chain == s.chain && t.entries == s.entries && LastOf(s.entries, u)
    requires Generated(p, PrevHash(t.chain), [a, c], me, b)
    requires forall tx | tx == a || tx == c ::
      && tx.kind == POST && ValidComponents(tx) && CheckTx(p, AllTxs(s.chain), s.entries, tx) == Accept
      && |tx.txIns| == 1 && Spends(tx.txIns[0]) == Where(u) && TxHash(p, tx) != u.txHash
    ensures Overspent(p, ViewOf(p, t.chain), b.transactions)
    ensures ValidateBlock(p, b) == Accept && Extends(t.chain, b) && CheckExtension(p, t, b) == Accept
  {
    hide Inv, LastOf, CheckTx, ValidateBlock, CheckExtension, Sealed, LeastWorking, ValidComponents, TxHash, Overspent,
      Exhausted, ViewOf;
    assert b.transactions == [a, c, MakeCoinbaseTx(2, me)];
    InputsOfTwo(b, a, c, me);
    TwiceOverspends(t.entries, u, a, c, b, me);
    assert Ordinary(b) == [a, c];
    MinedPasses(p, me, t, [a, c], b);
    AcceptedOverspends(p, t, b);
  }

  lemma AcceptedOverspends(p: Protocol, s: State, b: Block)
    requires Inv(p, s) && ValidateBlock(p, b) == Accept && CheckExtension(p, s, b) == Accept
    requires NoneRefilled(p, b.transactions)
    requires exists k | 0 <= k < |Inputs(b.transactions)| :: Exhausted(s.entries, Inputs(b.transactions), k)
    ensures Overspent(p, ViewOf(p, s.chain), b.transactions)
  {
    hide ValidateBlock, CheckBlockTxs, SealedChain, History, Agrees, Compact, PendingInv, Settles, ViewOf, Overspent,
      NoneRefilled, Exhausted;
    AcceptedSettles(p, AllTxs(s.chain), s.entries, b);
    SettledSpendsUnspent(p, AllTxs(s.chain), s.entries, ViewOf(p, s.chain), b);
    OverspentPlainly(p, s.entries, ViewOf(p, s.chain), b.transactions);
  }

  /** Where one node crashes, so does every node with the same chain and index. */
  lemma CrashSpreads(p: Protocol, s: State, t: State, b: Block)
    requires Receive(p, s, b) == Crash && Inv(p, t) && SameLedger(s, t)
    ensures Receive(p, t, b) == Crash
  {
    hide Receive, Inv;
    ReceiveKeepsInv(p, t, b);
    if Receive(p, t, b).Next? {
      ReceiveSame(p, t, s, b);
    }
  }

  // ---------------------------------------------------------------- a reachable crash

  lemma FoldSingle(v: View, h: Bytes, o: TxOut)
    ensures FoldOuts(v, h, [o]) == v[OutPoint(h, 0) := o]
  {
    assert [o][..0] == [];
  }

  /** After the first block the post's own output is the only one of its transaction. */
  lemma AfterPost(p: Protocol, me: Address, s0: State, s2: State, keys: Keys, f: nat, content: Bytes, b: Block)
    requires Boot(p, s0) && Founder(p, keys, f) && Inv(p, s2) && s2.chain == s0.chain + [b]
    requires Generated(p, PrevHash(s0.chain), [Post(p, keys, FounderCoin(p, f), content)], me, b)
    requires HashesDiffer(p, Post(p, keys, FounderCoin(p, f), content), me)
    ensures var u := UnspentTx(TxHash(p, Post(p, keys, FounderCoin(p, f), content)), 0, 99);
      Coins(s2.entries, Owner(p, keys), [u]) && LastOf(s2.entries, u)
  {
    hide Boot, Inv, ViewOf, TxHash, Generated, SignaturesVerify, Post, FoldTx, Agrees, Compact, HashesDiffer, Coins,
      LastOf;
    BootView(p, s0, f);
    var tx, v := Post(p, keys, FounderCoin(p, f), content), ViewOf(p, s0.chain);
    ChainAfterOne(p, me, s0, tx, b);
    PostPays(p, keys, FounderCoin(p, f), content);
    ViewAfterOne(p, me, v, tx, TxOut(99, Owner(p, keys)));
    IndexAgrees(p, s2);
    LastCoin(s2.entries, ViewOf(p, s2.chain), UnspentTx(TxHash(p, tx), 0, 99), Owner(p, keys));
  }

  lemma IndexAgrees(p: Protocol, s: State)
    requires Inv(p, s)
    ensures Agrees(s.entries, ViewOf(p, s.chain))
  {
  }

  lemma PostPays(p: Protocol, keys: Keys, u: UnspentTx, content: Bytes)
    ensures Post(p, keys, u, content).txOuts == [TxOut(Wrap(u.value - TX_FEE), Owner(p, keys))]
  {
  }

  lemma ViewAfterOne(p: Protocol, me: Address, v: View, tx: Transaction, o: TxOut)
    requires HashesDiffer(p, tx, me) && tx.txOuts == [o] && forall q | q in v :: q.txHash == TxHash(p, GenesisTx(p))
    ensures var w, at := FoldTx(p, FoldTx(p, v, tx), MakeCoinbaseTx(1, me)), OutPoint(TxHash(p, tx), 0);
      at in w && w[at] == o && forall q | q in w && q.txHash == TxHash(p, tx) :: q == at
  {
    hide TxHash, SpentBy;
    var reward := MakeCoinbaseTx(1, me);
    FoldSingle(v - SpentBy(tx.txIns), TxHash(p, tx), o);
    FoldSingle(FoldTx(p, v, tx) - SpentBy(reward.txIns), TxHash(p, reward), reward.txOuts[0]);
    NothingSpentBy();
  }

  lemma NothingSpentBy()
    ensures SpentBy([]) == {}
  {
  }

  lemma LastCoin(e: Entries, v: View, u: UnspentTx, owner: Bytes)
    requires Agrees(e, v) && Where(u) in v && v[Where(u)] == TxOut(u.value, owner) && |u.txHash| == HASH_NUM_BYTES
    requires forall o | o in v && o.txHash == u.txHash :: o == Where(u)
    ensures Coins(e, owner, [u]) && LastOf(e, u)
  {
    assert Unspent(e, Where(u));
  }

  /** Three posts by one founder crash the node: one that is mined, then two that a clerk
      makes from its output.  The block that crashes the miner passes every check, and
      crashes whoever is sent it. */
  lemma PostsCanCrash(p: Protocol, me: Address, keys: Keys, f: nat, s0: State, c0: Bytes, c1: Bytes, c2: Bytes)
    returns (tr: seq<State>, evs: seq<Event>, order: seq<Bytes>, b: Block)
    requires Boot(p, s0) && Founder(p, keys, f)
    requires var first := Post(p, keys, FounderCoin(p, f), c0);
      var u := UnspentTx(TxHash(p, first), 0, 99);
      var h1, h2 := TxHash(p, Post(p, keys, u, c1)), TxHash(p, Post(p, keys, u, c2));
      && HashesDiffer(p, first, me) && h1 != h2 && h1 != TxHash(p, first) && h2 != TxHash(p, first)
      && Minable(p, PrevHash(s0.chain), [first], me)
      && forall b0 | Generated(p, PrevHash(s0.chain), [first], me, b0) ::
           Minable(p, PrevHash(s0.chain + [b0]), [Post(p, keys, u, c1), Post(p, keys, u, c2)], me)
    ensures Run(p, me, tr, evs) && |tr| == 5 && tr[0] == s0
    ensures Mines(p, me, tr[4], order, b, Crash)
    ensures ValidateBlock(p, b) == Accept && Extends(tr[4].chain, b) && CheckExtension(p, tr[4], b) == Accept
    ensures Receive(p, tr[4], b) == Crash
    ensures forall other | Inv(p, other) && SameLedger(tr[4], other) :: Receive(p, other, b) == Crash
  {
    hide Boot, SameLedger, Step, Post, HashesDiffer, Minable, Generated, Inv, Mines, ValidateBlock, CheckExtension,
      Receive, CheckTx, ApplyTx, Coins, LastOf, Extends, TxHash, SignaturesVerify, Admit;
    var first := Post(p, keys, FounderCoin(p, f), c0);
    var h := TxHash(p, first);
    var u := UnspentTx(h, 0, 99);
    FirstPostPasses(p, s0, keys, f, c0);
    var s1, b0, s2 := OneBlock(p, me, s0, first);
    var evs0 := [Admitted(first, 0), Mined([h], b0)];
    RunKeepsInv(p, me, [s0, s1, s2], evs0, 2);
    AfterPost(p, me, s0, s2, keys, f, c0, b0);
    OnlyKey(h, s2.pending[h]);
    order, b := TwoPostsCrash(p, me, s2, keys, u, c1, c2, [h]);
    var s3 := Admit(p, s2, Post(p, keys, u, c1), 0).0;
    var s4 := BothTaken(p, s2, keys, u, c1, c2);
    AdmitIsStep(p, me, s2, Post(p, keys, u, c1));
    AdmitIsStep(p, me, s3, Post(p, keys, u, c2));
    tr, evs := [s0, s1, s2, s3, s4], evs0 + [Admitted(Post(p, keys, u, c1), 0), Admitted(Post(p, keys, u, c2), 0)];
    assert Step(p, me, [s0, s1, s2][0], evs0[0], [s0, s1, s2][1]) &&
      Step(p, me, [s0, s1, s2][1], evs0[1], [s0, s1, s2][2]);
  }

  lemma FirstPostPasses(p: Protocol, s: State, keys: Keys, f: nat, content: Bytes)
    requires Boot(p, s) && Founder(p, keys, f)
    ensures var tx := Post(p, keys, FounderCoin(p, f), content);
      && ValidComponents(tx) && CheckTx(p, AllTxs(s.chain), s.entries, tx) == Accept && ApplyTx(p, s.entries, tx).Some?
  {
    hide Boot, Founder, CheckTx, ApplyTx, ValidComponents, SayTx;
    SelfPaymentPasses(p, s, keys, f, POST, content);
  }

  lemma OnlyKey(h: Bytes, n: TxNode)
    ensures IsOrder([h], map[h := n])
  {
  }

  lemma AdmitIsStep(p: Protocol, me: Address, s: State, tx: Transaction)
    ensures Step(p, me, s, Admitted(tx, 0), Admit(p, s, tx, 0).0)
  {
    hide Admit;
  }
}
