/** When the node panics: the exact conditions, on the block or the pending table and the
    index before the step (src/node/miner.go). */
module Crashes {
  import opened Wire
  import opened Transactions
  import opened Blocks
  import opened Utxo
  import opened BlockPanics
  import opened Validation
  import opened Ledger
  import opened Invariants
  import opened Spending

  // ---------------------------------------------------------------- one transaction of a block

  /** The check of a block's transaction dereferences something that is not there: the
      output of a reward, the first input of a post, comment or upvote with the right
      number of outputs, or an output number that the index does not have. */
  ghost predicate Unguarded(p: Protocol, e: Entries, tx: Transaction) {
    if tx.kind == COINBASE then tx.txOuts == []
    else if tx.txIns == [] then (IsContent(tx) && |tx.txOuts| == 1) || (tx.kind == UPVOTE && |tx.txOuts| == 2)
    else ValidateStructure(p, tx) == Accept && tx.txOuts != [] && Dangling(p, e, tx, tx.txIns)
  }

  lemma CheckOnePanicsExactly(p: Protocol, chain: seq<Block>, e: Entries, n: nat, tx: Transaction)
    requires Grown(p, chain)
    ensures CheckOne(p, AllTxs(chain), e, n, tx) == Panic <==> Unguarded(p, e, tx)
  {
    hide Grown, CheckTx, Dangling;
    CheckTxPanicsExactly(p, chain, e, tx);
    if tx.txIns == [] {
      NothingDangles(p, e, tx);
    }
  }

  /** Transaction `k` of the block is unguarded and every one before it passes. */
  ghost predicate UnguardedAt(p: Protocol, past: seq<Transaction>, e: Entries, b: Block, k: nat)
    requires k < |b.transactions|
  {
    && (forall tx | tx in b.transactions[..k] :: CheckOne(p, past, e, |b.transactions|, tx) == Accept)
    && Unguarded(p, e, b.transactions[k])
  }

  lemma CheckBlockPanicsExactly(p: Protocol, chain: seq<Block>, e: Entries, b: Block)
    requires Grown(p, chain)
    ensures CheckBlockTxs(p, AllTxs(chain), e, b) == Panic <==>
            exists k | 0 <= k < |b.transactions| :: UnguardedAt(p, AllTxs(chain), e, b, k)
  {
    hide Grown, CheckOne, Unguarded;
    var txs, n := b.transactions, |b.transactions|;
    CheckEachPanicsExactly(p, AllTxs(chain), e, n, txs);
    forall k | 0 <= k < n
      ensures UnguardedAt(p, AllTxs(chain), e, b, k) <==> FirstToPanic(p, AllTxs(chain), e, n, txs, k)
    {
      CheckOnePanicsExactly(p, chain, e, n, txs[k]);
    }
  }

  // ---------------------------------------------------------------- receiving

  lemma SettledPanicsExactly(p: Protocol, past: seq<Transaction>, e: Entries, v: View, b: Block)
    requires Agrees(e, v) && Compact(e) && Settles(p, past, e, b)
    ensures ApplyTxs(p, e, b.transactions).None? <==> Overspent(p, v, b.transactions)
  {
    hide ApplyTxs, Overspent, CheckTx, Compact;
    SettledSpendsUnspent(p, past, e, v, b);
    BlockPanicsExactly(p, e, v, b.transactions);
  }

  lemma SettledSpendsUnspent(p: Protocol, past: seq<Transaction>, e: Entries, v: View, b: Block)
    requires Agrees(e, v) && Settles(p, past, e, b)
    ensures forall i | i in Inputs(b.transactions) :: Unspent(e, Spends(i))
  {
    hide CheckTx;
    RewardHasNoInputs(b);
    OrdinaryInputs(p, past, e, v, Ordinary(b));
    forall i | i in Inputs(b.transactions)
      ensures Unspent(e, Spends(i))
    {
      assert Spends(i) in v;
    }
  }

  /** One of the block's transactions is unguarded, or they all pass and overspend. */
  ghost predicate PanicsInside(p: Protocol, s: State, b: Block) {
    || (exists k | 0 <= k < |b.transactions| :: UnguardedAt(p, AllTxs(s.chain), s.entries, b, k))
    || (CheckExtension(p, s, b) == Accept && Overspent(p, ViewOf(p, s.chain), b.transactions))
  }

  /** A received block panics the node exactly when the stand-alone check cannot hash it,
      or it extends the chain and one of its transactions is unguarded, or it passes every
      check and spends a lost output number. */
  lemma ReceiveCrashesExactly(p: Protocol, s: State, b: Block)
    requires Inv(p, s)
    ensures Receive(p, s, b) == Crash <==>
      || Unhashable(p, b)
      || (ValidateBlock(p, b) == Accept && Extends(s.chain, b) && PanicsInside(p, s, b))
  {
    hide ValidateBlock, CheckBlockTxs, ApplyTxs, Unhashable, UnguardedAt, Overspent, PlaceAside, History, ViewOf,
      Agrees, Compact, Settles, SealedChain, PendingInv, MarkSuccess;
    ValidateBlockPanicsExactly(p, b);
    ReceiveKeepsInv(p, s, b);
    InvIsGrown(p, s);
    CheckBlockPanicsExactly(p, s.chain, s.entries, b);
    if ValidateBlock(p, b) == Accept {
      if !Extends(s.chain, b) {
        AsideIsDropped(p, s.(log := s.log + [b]), b);
      } else if CheckExtension(p, s, b) == Accept {
        AcceptedSettles(p, AllTxs(s.chain), s.entries, b);
        SettledPanicsExactly(p, AllTxs(s.chain), s.entries, ViewOf(p, s.chain), b);
      }
    }
  }

  lemma InvIsGrown(p: Protocol, s: State)
    requires Inv(p, s)
    ensures Grown(p, s.chain)
  {
  }

  /** A block whose ordinary transactions are all new to the chain panics exactly when it
      plainly overspends the index before it. */
  lemma NewBlockPanics(p: Protocol, s: State, b: Block)
    requires Inv(p, s) && Settles(p, AllTxs(s.chain), s.entries, b)
    requires forall tx | tx in Ordinary(b) :: !OnChain(p, s.chain, TxHash(p, tx))
    ensures Overspent(p, ViewOf(p, s.chain), b.transactions) <==>
            exists k | 0 <= k < |Inputs(b.transactions)| :: Exhausted(s.entries, Inputs(b.transactions), k)
  {
    hide SealedChain, History, Agrees, Compact, PendingInv, Settles, ViewOf, OnChain, Overspent, NoneRefilled,
      Exhausted;
    NewIsNotRefilled(p, s, b);
    SettledSpendsUnspent(p, AllTxs(s.chain), s.entries, ViewOf(p, s.chain), b);
    OverspentPlainly(p, s.entries, ViewOf(p, s.chain), b.transactions);
  }

  /** Blocks that are new to the chain file nothing under a hash they spend from. */
  lemma NewIsNotRefilled(p: Protocol, s: State, b: Block)
    requires Inv(p, s) && Settles(p, AllTxs(s.chain), s.entries, b)
    requires forall tx | tx in Ordinary(b) :: !OnChain(p, s.chain, TxHash(p, tx))
    ensures NoneRefilled(p, b.transactions)
  {
    hide SealedChain, History, Agrees, Compact, PendingInv, CheckTx, ViewOf, TxHash, OnChain;
    RewardHasNoInputs(b);
    OrdinaryInputs(p, AllTxs(s.chain), s.entries, ViewOf(p, s.chain), Ordinary(b));
    forall i | i in Inputs(b.transactions)
      ensures OnChain(p, s.chain, i.prevTxHash)
    {
      SpentIsOnChain(p, s.chain, Spends(i));
    }
    forall k | 0 <= k < |b.transactions| - 1
      ensures TxHash(p, b.transactions[k]) !in SpentFrom(Inputs(b.transactions))
    {
      assert b.transactions[k] == Ordinary(b)[k];
    }
  }

  lemma SpentIsOnChain(p: Protocol, chain: seq<Block>, o: OutPoint)
    requires o in ViewOf(p, chain)
    ensures OnChain(p, chain, o.txHash)
  {
    hide ViewOf, TxHash;
    assert chain[..|chain|] == chain;
    SpentWasMade(p, chain, |chain|, o);
    var m :| 0 <= m < |chain| && HashIn(p, chain[m].transactions, o.txHash);
    var tx :| tx in chain[m].transactions && TxHash(p, tx) == o.txHash;
    AllTxsMember(chain, tx);
  }

  // ---------------------------------------------------------------- mining

  /** The selection loop panics exactly when some pending transaction has a dangling input. */
  lemma CollectCrashesExactly(p: Protocol, s: State, order: seq<Bytes>)
    requires Inv(p, s) && IsOrder(order, s.pending)
    ensures Collect(p, AllTxs(s.chain), s.entries, s.pending, order).BatchCrash? <==>
            exists h :: h in s.pending && s.pending[h].status == Pending && s.pending[h].tx.txOuts != []
              && Dangling(p, s.entries, s.pending[h].tx, s.pending[h].tx.txIns)
  {
    hide Inv, Collect, Dangling, CheckTx, Marked, Selects;
    InvIsGrown(p, s);
    CollectMeaning(p, AllTxs(s.chain), s.entries, s.pending, order);
    forall h | h in s.pending
      ensures CheckTx(p, AllTxs(s.chain), s.entries, s.pending[h].tx) == Panic <==>
              s.pending[h].tx.txOuts != [] && Dangling(p, s.entries, s.pending[h].tx, s.pending[h].tx.txIns)
    {
      CheckTxPanicsExactly(p, s.chain, s.entries, s.pending[h].tx);
    }
  }

  /** A pass of the miner that gets as far as a block panics exactly when that block spends
      a lost output number: two pending transactions that pass on their own may do so
      together. */
  lemma MineCrashesExactly(p: Protocol, me: Address, s: State, order: seq<Bytes>, b: Block, r: Outcome)
    requires Inv(p, s) && Mines(p, me, s, order, b, r)
    requires Collect(p, AllTxs(s.chain), s.entries, s.pending, order).Batch?
    ensures r == Crash <==> Overspent(p, ViewOf(p, s.chain), b.transactions)
  {
    hide CheckTx, Sealed, Settles, Agrees, Compact, PendingInv, ApplyTxs, History, SealedChain, LeastWorking,
      Overspent, MarkKeys, IsOrder;
    var c := Collect(p, AllTxs(s.chain), s.entries, s.pending, order);
    var txs := TxsOf(c.pending, c.keys);
    CollectedPending(p, s, order);
    ReadTipExtends(p, s.chain, b);
    GeneratedSettles(p, AllTxs(s.chain), s.entries, PrevHash(s.chain), txs, me, b);
    SettledPanicsExactly(p, AllTxs(s.chain), s.entries, ViewOf(p, s.chain), b);
  }

  /** The order of the inputs, hence that of the pending table, decides: of an entry with
      two unspent outputs, the first may be spent twice before the second, not after it. */
  lemma OrderDecides(e: Entries, v: View, i: TxIn, j: TxIn)
    requires Agrees(e, v) && Compact(e) && Spends(i) in v && Spends(j) in v
    requires i.prevTxHash == j.prevTxHash && Spends(i) != Spends(j)
    requires forall o | o in v && o.txHash == i.prevTxHash :: o == Spends(i) || o == Spends(j)
    ensures SpendAll(e, [i, i, j]).Some? && SpendAll(e, [i, j, i]).None?
  {
    var good, bad := [i, i, j], [i, j, i];
    PanicExactly(e, v, good);
    PanicExactly(e, v, bad);
    assert bad[..2] == [i, j] && Spends(bad[0]) in SpentBy(bad[..2]) && Spends(bad[1]) in SpentBy(bad[..2]);
    assert Exhausted(e, bad, 2);
    assert Unspent(e, Spends(j));
    forall k | 0 <= k < 3
      ensures !Exhausted(e, good, k)
    {
      assert Spends(j) !in SpentBy(good[..k]);
    }
  }
}
