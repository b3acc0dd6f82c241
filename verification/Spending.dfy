/** Who can spend an output, and how often: what the checks on inputs amount to over a
    whole chain (`validateTransaction` and `updateUtxoDb` in src/node/miner.go). */
module Spending {
  import opened Wire
  import opened Transactions
  import opened Blocks
  import opened Utxo
  import opened Supply
  import opened BlockOrder
  import opened Validation
  import opened Ledger
  import opened Invariants

  // ---------------------------------------------------------------- signatures

  /** Every input of every transaction on a grown chain is signed by the owner, as of the
      block before, of the output it spends. */
  lemma EveryInputIsSigned(p: Protocol, chain: seq<Block>, k: nat, tx: Transaction, i: TxIn)
    requires Grown(p, chain) && k < |chain| && tx in chain[k].transactions && i in tx.txIns
    ensures Signs(p, ViewOf(p, chain[..k]), tx, i, Spends(i))
  {
    hide Signs, CheckInput, Agrees, ViewOf;
    assert k != 0;
    assert History(p, chain, k);
    var v, b := ViewOf(p, chain[..k]), chain[k];
    var e: Entries :| Agrees(e, v) && Settles(p, AllTxs(chain[..k]), e, b);
    assert b.transactions == Ordinary(b) + [Reward(b)];
    assert tx in Ordinary(b);
    ScanEnds(p, e, tx, tx.txIns);
    InputSignsExactly(p, e, v, tx, i);
  }

  /** Some transaction in block `j` spends `o` with the owner's signature. */
  ghost predicate SpentInBlock(p: Protocol, chain: seq<Block>, j: nat, o: OutPoint)
    requires j < |chain|
  {
    exists tx, i :: tx in chain[j].transactions && Signs(p, ViewOf(p, chain[..j]), tx, i, o)
  }

  lemma SpentInPrefix(p: Protocol, chain: seq<Block>, n: nat, j: nat, o: OutPoint)
    requires j < n <= |chain| && SpentInBlock(p, chain[..n], j, o)
    ensures SpentInBlock(p, chain, j, o)
  {
    hide Signs, ViewOf;
    assert chain[..n][..j] == chain[..j];
  }

  /** An output leaves the unspent view only by a transaction that names it and is signed
      with a key that hashes to the address it pays. */
  lemma {:induction false} OnlyOwnersSpend(p: Protocol, chain: seq<Block>, k: nat, o: OutPoint)
    requires Grown(p, chain) && 0 < k <= |chain|
    requires o in ViewOf(p, chain[..k]) && o !in ViewOf(p, chain)
    ensures exists j | k <= j < |chain| :: SpentInBlock(p, chain, j, o)
    decreases |chain|
  {
    hide Grown, SpentInBlock, ViewOf;
    assert chain[..|chain|] == chain;
    assert k < |chain|;
    var n := |chain| - 1;
    if o in ViewOf(p, chain[..n]) {
      LastBlockSpends(p, chain, o);
    } else {
      GrownPrefix(p, chain);
      assert chain[..n][..k] == chain[..k];
      OnlyOwnersSpend(p, chain[..n], k, o);
      var j :| k <= j < n && SpentInBlock(p, chain[..n], j, o);
      SpentInPrefix(p, chain, n, j, o);
    }
  }

  lemma LastBlockSpends(p: Protocol, chain: seq<Block>, o: OutPoint)
    requires Grown(p, chain) && o in ViewOf(p, chain[..|chain| - 1]) && o !in ViewOf(p, chain)
    ensures SpentInBlock(p, chain, |chain| - 1, o)
  {
    var n := |chain| - 1;
    var txs := chain[n].transactions;
    hide Grown, ViewOf, Signs;
    ViewOfLast(p, chain);
    if o !in SpentBy(Inputs(txs)) {
      FoldKeepsOthers(p, ViewOf(p, chain[..n]), txs, o);
    }
    var i :| i in Inputs(txs) && Spends(i) == o;
    InputsMember(txs, i);
    var tx :| tx in txs && i in tx.txIns;
    EveryInputIsSigned(p, chain, n, tx, i);
  }

  /** The same between any two states of any run. */
  lemma RunOnlyOwnersSpend(p: Protocol, me: Address, tr: seq<State>, evs: seq<Event>, j: nat, k: nat, o: OutPoint)
    requires Run(p, me, tr, evs) && j <= k < |tr|
    requires o in ViewOf(p, tr[j].chain) && o !in ViewOf(p, tr[k].chain)
    ensures exists m | |tr[j].chain| <= m < |tr[k].chain| :: SpentInBlock(p, tr[k].chain, m, o)
  {
    hide Run, SpentInBlock, ViewOf, History, Agrees, Sealed;
    ChainOnlyGrows(p, me, tr, evs, j, k);
    RunKeepsInv(p, me, tr, evs, j);
    RunKeepsInv(p, me, tr, evs, k);
    assert tr[k].chain[..|tr[j].chain|] == tr[j].chain;
    OnlyOwnersSpend(p, tr[k].chain, |tr[j].chain|, o);
  }

  // ---------------------------------------------------------------- authors

  lemma AcceptedContent(p: Protocol, past: seq<Transaction>, e: Entries, tx: Transaction)
    requires CheckTx(p, past, e, tx) == Accept && IsContent(tx)
    ensures |tx.txOuts| == 1 && tx.txIns != [] && tx.txOuts[0].pubKeyHash == p.pkHash(tx.txIns[0].pubKey)
  {
    hide ScanInputs, CheckParent;
  }

  /** The author shown for a post or comment is the one who signed it: its only output
      pays the address whose coin its first input spends under that address's signature. */
  lemma AuthorsSign(p: Protocol, chain: seq<Block>, k: nat, tx: Transaction)
    requires Grown(p, chain) && k < |chain| && tx in chain[k].transactions && IsContent(tx)
    ensures |tx.txOuts| == 1 && tx.txIns != []
    ensures Signs(p, ViewOf(p, chain[..k]), tx, tx.txIns[0], Spends(tx.txIns[0]))
    ensures tx.txOuts[0].pubKeyHash == ViewOf(p, chain[..k])[Spends(tx.txIns[0])].pubKeyHash
  {
    hide Grown, ViewOf, CheckTx, AllTxs, HashNoSig;
    BlockTxs(p, chain, k, tx);
    var e: Entries :| CheckTx(p, AllTxs(chain[..k]), e, tx) == Accept;
    AcceptedContent(p, AllTxs(chain[..k]), e, tx);
    EveryInputIsSigned(p, chain, k, tx, tx.txIns[0]);
  }

  /** The transaction that an upvote names is a post or comment of `past`, and its author
      is the one paid. */
  ghost predicate PaysAuthor(p: Protocol, past: seq<Transaction>, tx: Transaction)
    requires tx.txOuts != []
  {
    exists parent :: parent in past && TxHash(p, parent) == tx.parent && IsContent(parent)
      && parent.txOuts != [] && tx.txOuts[0].pubKeyHash == parent.txOuts[0].pubKeyHash
  }

  lemma AcceptedUpvote(p: Protocol, past: seq<Transaction>, e: Entries, tx: Transaction)
    requires CheckTx(p, past, e, tx) == Accept && tx.kind == UPVOTE
    ensures |tx.txOuts| == 2 && tx.txIns != [] && tx.txOuts[1].pubKeyHash == p.pkHash(tx.txIns[0].pubKey)
    ensures PaysAuthor(p, past, tx)
  {
    hide ScanInputs, FindTx, TxHash;
    FindTxIsFirst(p, past, tx.parent);
    assert FindTx(p, past, tx.parent).value in past;
  }

  /** An upvote on the chain pays the author of the post or comment it names, found in a
      strictly earlier block, and returns the rest to the voter who signed it. */
  lemma UpvotesPayAuthors(p: Protocol, chain: seq<Block>, k: nat, tx: Transaction)
    requires Grown(p, chain) && k < |chain| && tx in chain[k].transactions && tx.kind == UPVOTE
    ensures |tx.txOuts| == 2 && tx.txIns != [] && PaysAuthor(p, AllTxs(chain[..k]), tx)
    ensures Signs(p, ViewOf(p, chain[..k]), tx, tx.txIns[0], Spends(tx.txIns[0]))
    ensures tx.txOuts[1].pubKeyHash == ViewOf(p, chain[..k])[Spends(tx.txIns[0])].pubKeyHash
  {
    hide Grown, ViewOf, CheckTx, AllTxs, HashNoSig, PaysAuthor;
    BlockTxs(p, chain, k, tx);
    var e: Entries :| CheckTx(p, AllTxs(chain[..k]), e, tx) == Accept;
    AcceptedUpvote(p, AllTxs(chain[..k]), e, tx);
    EveryInputIsSigned(p, chain, k, tx, tx.txIns[0]);
  }

  // ---------------------------------------------------------------- double spends

  /** What is spendable after some transactions was spendable before and not spent by any
      of them, or one of them has the hash it is filed under. */
  lemma {:induction false} WhereFrom(p: Protocol, v: View, txs: seq<Transaction>, o: OutPoint)
    requires o in FoldTxs(p, v, txs)
    ensures (o in v && o !in SpentBy(Inputs(txs))) || HashIn(p, txs, o.txHash)
  {
    hide TxHash;
    if txs == [] {
      assert Inputs(txs) == [];
    } else {
      var rest, last := txs[..|txs| - 1], txs[|txs| - 1];
      assert txs == rest + [last];
      SpentBySplit(txs);
      FoldOutsIsUnion(FoldTxs(p, v, rest) - SpentBy(last.txIns), TxHash(p, last), last.txOuts);
      NewKeys(TxHash(p, last), last.txOuts);
      if o.txHash != TxHash(p, last) {
        WhereFrom(p, v, rest, o);
      }
    }
  }

  ghost predicate HashIn(p: Protocol, txs: seq<Transaction>, h: Bytes) {
    exists tx :: tx in txs && TxHash(p, tx) == h
  }

  /** An output that block `j` spends is spendable later only if, from that block on, a
      transaction with its hash was entered again. */
  lemma {:induction false} SpentStaysSpent(p: Protocol, chain: seq<Block>, j: nat, k: nat, o: OutPoint)
    requires j < k <= |chain|
    requires o in SpentBy(Inputs(chain[j].transactions)) && o in ViewOf(p, chain[..k])
    ensures exists m | j <= m < k :: HashIn(p, chain[m].transactions, o.txHash)
    decreases k
  {
    hide HashIn, ViewOf, SpentBy;
    ViewOfLast(p, chain[..k]);
    assert chain[..k][..k - 1] == chain[..k - 1] && Tip(chain[..k]) == chain[k - 1];
    WhereFrom(p, ViewOf(p, chain[..k - 1]), chain[k - 1].transactions, o);
    if !HashIn(p, chain[k - 1].transactions, o.txHash) {
      SpentStaysSpent(p, chain, j, k - 1, o);
    }
  }

  /** No double spend: two blocks of a grown chain spend the same output only if a
      transaction with the same hash was entered in between. */
  lemma NoDoubleSpend(p: Protocol, chain: seq<Block>, j: nat, k: nat, o: OutPoint)
    requires Grown(p, chain) && j < k < |chain|
    requires o in SpentBy(Inputs(chain[j].transactions)) && o in SpentBy(Inputs(chain[k].transactions))
    ensures exists m | j <= m < k :: HashIn(p, chain[m].transactions, o.txHash)
  {
    hide Grown, ViewOf;
    SpendableBefore(p, chain, k, o);
    SpentStaysSpent(p, chain, j, k, o);
  }

  /** An output is made before it is spent: its hash is that of a transaction in a strictly
      earlier block. */
  lemma {:induction false} SpentWasMade(p: Protocol, chain: seq<Block>, k: nat, o: OutPoint)
    requires k <= |chain| && o in ViewOf(p, chain[..k])
    ensures exists m | 0 <= m < k :: HashIn(p, chain[m].transactions, o.txHash)
    decreases k
  {
    hide HashIn, SpentBy;
    assert k > 0;
    ViewOfLast(p, chain[..k]);
    assert chain[..k][..k - 1] == chain[..k - 1] && Tip(chain[..k]) == chain[k - 1];
    WhereFrom(p, ViewOf(p, chain[..k - 1]), chain[k - 1].transactions, o);
    if !HashIn(p, chain[k - 1].transactions, o.txHash) {
      SpentWasMade(p, chain, k - 1, o);
    }
  }

  /** At most one block has a transaction with this hash. */
  ghost predicate HashOnce(p: Protocol, chain: seq<Block>, h: Bytes) {
    forall j, k | 0 <= j < k < |chain| :: !HashIn(p, chain[j].transactions, h) || !HashIn(p, chain[k].transactions, h)
  }

  /** An output of a transaction whose hash occurs in one block only is spent by at most
      one block. */
  lemma EachOutputSpentOnce(p: Protocol, chain: seq<Block>, j: nat, k: nat, o: OutPoint)
    requires Grown(p, chain) && HashOnce(p, chain, o.txHash) && j < k < |chain|
    ensures o !in SpentBy(Inputs(chain[j].transactions)) || o !in SpentBy(Inputs(chain[k].transactions))
  {
    hide Grown, HashIn, ViewOf;
    if o in SpentBy(Inputs(chain[j].transactions)) && o in SpentBy(Inputs(chain[k].transactions)) {
      NoDoubleSpend(p, chain, j, k, o);
      SpendableBefore(p, chain, j, o);
      SpentWasMade(p, chain, j, o);
    }
  }

  lemma SpendableBefore(p: Protocol, chain: seq<Block>, k: nat, o: OutPoint)
    requires Grown(p, chain) && k < |chain| && o in SpentBy(Inputs(chain[k].transactions))
    ensures o in ViewOf(p, chain[..k])
  {
    hide Grown, ViewOf;
    var txs := chain[k].transactions;
    var i :| i in Inputs(txs) && Spends(i) == o;
    InputsMember(txs, i);
    var tx :| tx in txs && i in tx.txIns;
    EveryInputIsSigned(p, chain, k, tx, i);
  }
}
