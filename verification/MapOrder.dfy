/** The miner's iteration over the pending table (src/node/miner.go): whatever order the
    map yields, the ledger it leaves is the same. */
module MapOrder {
  import opened Wire
  import opened Transactions
  import opened Blocks
  import opened Utxo
  import opened Supply
  import opened BlockOrder
  import opened Validation
  import opened Ledger
  import opened Invariants

  lemma {:induction false} TxsOfBag(m: map<Bytes, TxNode>, a: seq<Bytes>, b: seq<Bytes>)
    requires (forall h | h in a :: h in m) && (forall h | h in b :: h in m) && multiset(a) == multiset(b)
    ensures multiset(TxsOf(m, a)) == multiset(TxsOf(m, b))
    decreases |a|
  {
    hide TxsOf;
    if a == [] {
      assert |multiset(b)| == |b|;
    } else {
      var rest, last := a[..|a| - 1], a[|a| - 1];
      var u, w := TakeOut(a, b);
      assert forall h | h in u + w :: h in b;
      TxsOfBag(m, rest, u + w);
      TxsOfMoveLast(m, u, last, w);
      TxsOfMoveLast(m, rest, last, []);
      assert rest + [last] + [] == a && rest + [] == rest;
    }
  }

  lemma TxsOfMoveLast(m: map<Bytes, TxNode>, u: seq<Bytes>, h: Bytes, w: seq<Bytes>)
    requires h in m && (forall g | g in u + w :: g in m)
    ensures forall g | g in u + [h] + w :: g in m
    ensures multiset(TxsOf(m, u + [h] + w)) == multiset(TxsOf(m, u + w)) + multiset{m[h].tx}
  {
    assert forall g | g in u :: g in u + w;
    assert forall g | g in w :: g in u + w;
    var a, c := TxsOf(m, u), TxsOf(m, w);
    assert TxsOf(m, u + [h] + w) == a + [m[h].tx] + c;
    assert TxsOf(m, u + w) == a + c;
    BagOfThree(a, m[h].tx, c);
    assert m[h].tx in a + [m[h].tx] + c;
  }

  /** Two transactions of the pending table with the same hash are the same. */
  lemma PendingHashesDiffer(p: Protocol, chain: seq<Block>, pending: map<Bytes, TxNode>, keys: seq<Bytes>)
    requires PendingInv(p, chain, pending) && forall h | h in keys :: h in pending
    ensures DistinctHashes(p, TxsOf(pending, keys))
  {
    hide TxHash, OnChain;
  }

  /** Nothing that the transactions create exists already. */
  ghost predicate AllNew(p: Protocol, v: View, txs: seq<Transaction>) {
    forall tx | tx in txs :: New(p, tx).Keys !! v.Keys
  }

  /** Two lists of accepted transactions that are permutations of each other, each followed
      by the same reward, apply without a panic to the same unspent view. */
  lemma PermutedBlocks(p: Protocol, past: seq<Transaction>, e: Entries, v: View, a: seq<Transaction>,
      b: seq<Transaction>, reward: Transaction)
    requires Agrees(e, v) && Compact(e) && multiset(a) == multiset(b) && reward.txIns == []
    requires forall tx | tx in a :: CheckTx(p, past, e, tx) == Accept
    requires DistinctHashes(p, a) && AllNew(p, v, a) && DistinctInputs(Inputs(a))
    ensures ApplyTxs(p, e, a + [reward]).Some? && ApplyTxs(p, e, b + [reward]).Some?
    ensures FoldTxs(p, v, a + [reward]) == FoldTxs(p, v, b + [reward])
  {
    hide Agrees, Compact, DistinctHashes, DistinctInputs, FoldTxs, New, CheckTx;
    OrdinaryInputs(p, past, e, v, a);
    IndexOrderIrrelevant(p, e, v, a, b);
    OrderIrrelevant(p, v, a, b);
    FoldLast(p, v, a, reward);
    FoldLast(p, v, b, reward);
    ApplyReward(p, e, a, reward);
    ApplyReward(p, e, b, reward);
  }

  lemma ApplyReward(p: Protocol, e: Entries, txs: seq<Transaction>, reward: Transaction)
    requires ApplyTxs(p, e, txs).Some? && reward.txIns == []
    ensures ApplyTxs(p, e, txs + [reward]).Some?
  {
    assert (txs + [reward])[..|txs|] == txs;
  }

  /** Two passes of the miner over the same state, in any two orders of the pending table,
      both commit and leave the same pending table, seen hashes and unspent view. */
  lemma MineAnyOrder(p: Protocol, me: Address, s: State, o1: seq<Bytes>, b1: Block, r1: Outcome, o2: seq<Bytes>,
      b2: Block, r2: Outcome)
    requires Inv(p, s) && Mines(p, me, s, o1, b1, r1) && Mines(p, me, s, o2, b2, r2)
    requires Collect(p, AllTxs(s.chain), s.entries, s.pending, o1).Batch? && b1.transactions != []
    requires DistinctInputs(Inputs(Ordinary(b1))) && AllNew(p, ViewOf(p, s.chain), Ordinary(b1))
    ensures r1.Next? && r2.Next?
    ensures multiset(b1.transactions) == multiset(b2.transactions)
    ensures r1.state.pending == r2.state.pending && r1.state.seen == r2.state.seen
    ensures ViewOf(p, r1.state.chain) == ViewOf(p, r2.state.chain)
    ensures Agrees(r1.state.entries, ViewOf(p, r1.state.chain)) && Agrees(r2.state.entries, ViewOf(p, r1.state.chain))
  {
    hide CheckTx, Inv, Agrees, Compact, ApplyTxs, DistinctInputs, IsOrder, AllNew, FoldTxs, Collect, DistinctHashes,
      TxsOf, MarkKeys, Mines, ViewOf;
    var past := AllTxs(s.chain);
    var c1, c2 := Collect(p, past, s.entries, s.pending, o1), Collect(p, past, s.entries, s.pending, o2);
    BothOrders(p, me, s, o1, b1, r1, o2, b2, r2);
    CollectAnyOrder(p, past, s.entries, s.pending, o1, o2);
    MinedIs(p, me, s, o1, b1, r1);
    MinedIs(p, me, s, o2, b2, r2);
    var t1, t2 := TxsOf(c1.pending, c1.keys), TxsOf(c2.pending, c2.keys);
    TxsOfBag(c1.pending, c1.keys, c2.keys);
    SameCount(c1.keys, c2.keys);
    MarkSameKeys(c1.pending, c1.keys, c2.keys);
    var reward := MakeCoinbaseTx(|t1|, me);
    RewardIsFree(|t1|, me);
    LedgerOf(p, s);
    PermutedBlocks(p, past, s.entries, ViewOf(p, s.chain), t1, t2, reward);
    CommittedIs(p, me, s, o1, b1, r1);
    CommittedIs(p, me, s, o2, b2, r2);
  }

  lemma BothOrders(p: Protocol, me: Address, s: State, o1: seq<Bytes>, b1: Block, r1: Outcome, o2: seq<Bytes>,
      b2: Block, r2: Outcome)
    requires Mines(p, me, s, o1, b1, r1) && Mines(p, me, s, o2, b2, r2)
    ensures IsOrder(o1, s.pending) && IsOrder(o2, s.pending)
  {
  }

  lemma LedgerOf(p: Protocol, s: State)
    requires Inv(p, s)
    ensures Agrees(s.entries, ViewOf(p, s.chain)) && Compact(s.entries)
  {
  }

  /** The transactions of a mined block: the selected ones, then the reward. */
  lemma MinedIs(p: Protocol, me: Address, s: State, o: seq<Bytes>, b: Block, r: Outcome)
    requires Inv(p, s) && Mines(p, me, s, o, b, r)
    requires Collect(p, AllTxs(s.chain), s.entries, s.pending, o).Batch?
    ensures var c := Collect(p, AllTxs(s.chain), s.entries, s.pending, o);
      && (forall h | h in c.keys :: h in c.pending)
      && b.transactions == TxsOf(c.pending, c.keys) + [MakeCoinbaseTx(|c.keys|, me)]
      && Ordinary(b) == TxsOf(c.pending, c.keys) && DistinctHashes(p, Ordinary(b))
      && forall tx | tx in Ordinary(b) :: CheckTx(p, AllTxs(s.chain), s.entries, tx) == Accept
  {
    hide CheckTx, ChainInv, Sealed, LeastWorking, DistinctHashes, Collect, PendingInv, IsOrder, TxsOf, Commit,
      MakeCoinbaseTx;
    var c := Collect(p, AllTxs(s.chain), s.entries, s.pending, o);
    CollectedPending(p, s, o);
    PendingHashesDiffer(p, s.chain, c.pending, c.keys);
    assert Ordinary(b) == TxsOf(c.pending, c.keys);
  }

  /** A mined block that applies is committed. */
  lemma CommittedIs(p: Protocol, me: Address, s: State, o: seq<Bytes>, b: Block, r: Outcome)
    requires Inv(p, s) && Mines(p, me, s, o, b, r) && ApplyTxs(p, s.entries, b.transactions).Some?
    requires Collect(p, AllTxs(s.chain), s.entries, s.pending, o).Batch?
    ensures var c := Collect(p, AllTxs(s.chain), s.entries, s.pending, o);
      && (forall h | h in c.keys :: h in c.pending)
      && r.Next? && r.state.seen == s.seen && r.state.pending == MarkKeys(c.pending, c.keys)
      && ViewOf(p, r.state.chain) == FoldTxs(p, ViewOf(p, s.chain), b.transactions)
      && Agrees(r.state.entries, ViewOf(p, r.state.chain))
  {
    hide CheckTx, Sealed, LeastWorking, Collect, PendingInv, IsOrder, TxsOf, MarkKeys, ApplyTxs, FoldTxs, Agrees,
      Compact, History, SealedChain, MakeCoinbaseTx, ViewOf;
    ReadTipExtends(p, s.chain, b);
    MineKeepsInv(p, me, s, o, b, r);
    ViewOfLast(p, s.chain + [b]);
    assert (s.chain + [b])[..|s.chain|] == s.chain;
  }

  lemma SameCount(a: seq<Bytes>, b: seq<Bytes>)
    requires multiset(a) == multiset(b)
    ensures |a| == |b|
  {
    assert |multiset(a)| == |a| && |multiset(b)| == |b|;
  }

  lemma RewardIsFree(n: nat, me: Address)
    ensures MakeCoinbaseTx(n, me).txIns == []
  {
  }

  lemma MarkSameKeys(m: map<Bytes, TxNode>, a: seq<Bytes>, b: seq<Bytes>)
    requires (forall h | h in a :: h in m) && (forall h | h in b :: h in m) && multiset(a) == multiset(b)
    ensures MarkKeys(m, a) == MarkKeys(m, b)
  {
    assert forall h :: h in a <==> h in multiset(a);
    assert forall h :: h in b <==> h in multiset(b);
  }
}
