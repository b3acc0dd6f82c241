/** The checks a node makes on transactions and on the transactions of a block, against
    its chain and its UTXO index (`validateTransaction`, `validateBlockTxs` and
    `findTxInBlockChain` in src/node/miner.go). */
module Validation {
  import opened Wire
  import opened Transactions
  import opened Merkle
  import opened Blocks
  import opened Utxo
  import opened Supply

  // ---------------------------------------------------------------- looking up a parent

  /** All transactions of a chain, in order. */
  function AllTxs(chain: seq<Block>): seq<Transaction> {
    if chain == [] then [] else AllTxs(chain[..|chain| - 1]) + chain[|chain| - 1].transactions
  }

  lemma AllTxsLast(chain: seq<Block>, b: Block)
    ensures AllTxs(chain + [b]) == AllTxs(chain) + b.transactions
  {
    assert (chain + [b])[..|chain|] == chain;
  }

  /** The first transaction with the given hash. */
  function FindTx(p: Protocol, txs: seq<Transaction>, h: Bytes): Option<Transaction> {
    if txs == [] then None
    else
      var found := FindTx(p, txs[..|txs| - 1], h);
      if found.Some? then found
      else if TxHash(p, txs[|txs| - 1]) == h then Some(txs[|txs| - 1])
      else None
  }

  lemma {:induction false} FindTxIsFirst(p: Protocol, txs: seq<Transaction>, h: Bytes)
    ensures FindTx(p, txs, h).None? <==> forall tx | tx in txs :: TxHash(p, tx) != h
    ensures FindTx(p, txs, h).Some? ==> exists k | 0 <= k < |txs| ::
              txs[k] == FindTx(p, txs, h).value && TxHash(p, txs[k]) == h && FindTx(p, txs[..k], h).None?
  {
    if txs != [] {
      var n := |txs| - 1;
      FindTxIsFirst(p, txs[..n], h);
      assert txs == txs[..n] + [txs[n]];
      if FindTx(p, txs[..n], h).Some? {
        var k :| 0 <= k < n && txs[..n][k] == FindTx(p, txs, h).value && TxHash(p, txs[..n][k]) == h &&
          FindTx(p, txs[..n][..k], h).None?;
        assert txs[..n][..k] == txs[..k];
      }
    }
  }

  // ---------------------------------------------------------------- one transaction

  /** The value of the inputs in uint32, or why the scan of the inputs stopped. */
  datatype Scan = Total(sum: U32) | Stop(verdict: Verdict)

  function CheckInput(p: Protocol, e: Entries, tx: Transaction, i: TxIn): Verdict {
    var h, k := i.prevTxHash, i.prevTxOutIndex;
    if h !in e then Reject
    else if k !in e[h] then Panic
    else if e[h][k].spent then Reject
    else
      match HashNoSig(p, tx)
      case None => Reject
      case Some(m) =>
        if !p.verify(i.sig, m, i.pubKey) then Reject
        else if e[h][k].pubKeyHash != p.pkHash(i.pubKey) then Reject
        else Accept
  }

  function ScanInputs(p: Protocol, e: Entries, tx: Transaction, ins: seq<TxIn>): (r: Scan)
    ensures r != Stop(Accept)
  {
    if ins == [] then Total(0)
    else
      var last := ins[|ins| - 1];
      match ScanInputs(p, e, tx, ins[..|ins| - 1])
      case Stop(v) => Stop(v)
      case Total(s) =>
        var v := CheckInput(p, e, tx, last);
        if v == Accept then Total(Wrap(s + e[last.prevTxHash][last.prevTxOutIndex].value)) else Stop(v)
  }

  function OutputSum(outs: seq<TxOut>): U32 {
    if outs == [] then 0 else Wrap(OutputSum(outs[..|outs| - 1]) + outs[|outs| - 1].value)
  }

  function CheckParent(p: Protocol, past: seq<Transaction>, tx: Transaction): Verdict
    requires tx.txOuts != []
  {
    if tx.kind != COMMENT && tx.kind != UPVOTE then Accept
    else
      match FindTx(p, past, tx.parent)
      case None => Reject
      case Some(parent) =>
        if parent.kind != POST && parent.kind != COMMENT then Reject
        else if tx.kind != UPVOTE then Accept
        else if parent.txOuts == [] then Panic
        else if tx.txOuts[0].pubKeyHash != parent.txOuts[0].pubKeyHash then Reject
        else Accept
  }

  /** `validateTransaction` against the transactions `past` of the chain and the index `e`. */
  function CheckTx(p: Protocol, past: seq<Transaction>, e: Entries, tx: Transaction): Verdict {
    if tx.txIns == [] || tx.txOuts == [] then Reject
    else
      match ScanInputs(p, e, tx, tx.txIns)
      case Stop(v) => v
      case Total(s) =>
        if Wrap(s + TX_FEE) < OutputSum(tx.txOuts) then Reject
        else if ValidateStructure(p, tx) != Accept then ValidateStructure(p, tx)
        else CheckParent(p, past, tx)
  }

  lemma {:induction false} ScanMeansUnspent(p: Protocol, e: Entries, v: View, tx: Transaction, ins: seq<TxIn>)
    requires Agrees(e, v) && ScanInputs(p, e, tx, ins).Total?
    ensures forall i | i in ins :: Spends(i) in v
    ensures ScanInputs(p, e, tx, ins).sum == Wrap(TotalIn(v, ins))
  {
    if ins != [] {
      var rest, last := ins[..|ins| - 1], ins[|ins| - 1];
      ScanMeansUnspent(p, e, v, tx, rest);
      assert Unspent(e, Spends(last));
      assert ins == rest + [last];
      WrapSum(TotalIn(v, rest), v[Spends(last)].value);
    }
  }

  lemma WrapSum(a: int, b: int)
    ensures Wrap(Wrap(a) + b) == Wrap(a + b)
  {
    var q, r := a / TWO32, a % TWO32;
    assert a + b == r + b + q * TWO32;
    WrapShift(r + b, q);
  }

  lemma {:induction false} WrapShift(a: int, q: int)
    ensures Wrap(a + q * TWO32) == Wrap(a)
    decreases if q < 0 then -q else q
  {
    if q > 0 {
      WrapShift(a, q - 1);
      assert a + q * TWO32 == (a + (q - 1) * TWO32) + TWO32;
    } else if q < 0 {
      WrapShift(a, q + 1);
      assert a + q * TWO32 == (a + (q + 1) * TWO32) - TWO32;
    }
  }

  lemma {:induction false} OutputSumWraps(outs: seq<TxOut>)
    ensures OutputSum(outs) == Wrap(TotalOut(outs))
  {
    if outs != [] {
      OutputSumWraps(outs[..|outs| - 1]);
      WrapSum(TotalOut(outs[..|outs| - 1]), outs[|outs| - 1].value);
    }
  }

  /** An accepted transaction spends existing outputs only, and what the 32 bits of its
      output sum show is at most what it takes in and the fee.  Wrap-around of the input
      sum, or of adding the fee to it, can only make the check stricter. */
  lemma AcceptedTxValue(p: Protocol, past: seq<Transaction>, e: Entries, v: View, tx: Transaction)
    requires Agrees(e, v) && CheckTx(p, past, e, tx) == Accept
    ensures forall i | i in tx.txIns :: Spends(i) in v
    ensures Wrap(TotalOut(tx.txOuts)) <= TotalIn(v, tx.txIns) + TX_FEE
  {
    hide Agrees, ValidateStructure, CheckParent, Unspent, ScanInputs, OutputSum, TotalOut, TotalIn;
    ScanMeansUnspent(p, e, v, tx, tx.txIns);
    OutputSumWraps(tx.txOuts);
    WrapSum(TotalIn(v, tx.txIns), TX_FEE);
    WrapShrinks(TotalIn(v, tx.txIns) + TX_FEE);
  }

  /** The input names output `o` of the view, and its transaction is signed with a key that
      hashes to the address the output pays. */
  ghost predicate Signs(p: Protocol, v: View, tx: Transaction, i: TxIn, o: OutPoint) {
    && i in tx.txIns && Spends(i) == o && o in v
    && HashNoSig(p, tx).Some? && p.verify(i.sig, HashNoSig(p, tx).value, i.pubKey)
    && p.pkHash(i.pubKey) == v[o].pubKeyHash
  }

  lemma InputSignsExactly(p: Protocol, e: Entries, v: View, tx: Transaction, i: TxIn)
    requires Agrees(e, v) && i in tx.txIns
    ensures CheckInput(p, e, tx, i) == Accept <==> Signs(p, v, tx, i, Spends(i))
  {
    hide HashNoSig;
    if Spends(i) in v {
      assert Unspent(e, Spends(i)) && v[Spends(i)] == Coin(e, Spends(i));
    }
    assert Unspent(e, Spends(i)) ==> Spends(i) in v;
  }

  /** The rules for the outputs of a transaction: content is paid back to the author, an
      upvote pays its author's change second. */
  predicate PaysBack(p: Protocol, tx: Transaction)
    requires tx.txIns != []
  {
    && (tx.kind == POST || tx.kind == COMMENT ==>
          |tx.txOuts| == 1 && tx.txOuts[0].pubKeyHash == p.pkHash(tx.txIns[0].pubKey))
    && (tx.kind == UPVOTE ==>
          |tx.txOuts| == 2 && tx.txOuts[1].pubKeyHash == p.pkHash(tx.txIns[0].pubKey))
  }

  /** The rules for the parent: comments and upvotes name content of the chain, an upvote
      pays the author of the first such transaction; nothing else names anything. */
  ghost predicate NamesContent(p: Protocol, past: seq<Transaction>, tx: Transaction)
    requires tx.txOuts != []
  {
    if tx.kind != COMMENT && tx.kind != UPVOTE then tx.parent == []
    else exists k ::
      && 0 <= k < |past| && TxHash(p, past[k]) == tx.parent
      && (forall j | 0 <= j < k :: TxHash(p, past[j]) != tx.parent)
      && (past[k].kind == POST || past[k].kind == COMMENT)
      && (tx.kind == UPVOTE ==> past[k].txOuts != [] && tx.txOuts[0].pubKeyHash == past[k].txOuts[0].pubKeyHash)
  }

  /** The node accepts exactly the transactions that spend unspent outputs under their
      owners' signatures, whose output sum is at most the input sum and the fee in 32 bits,
      and that keep the rules for outputs and parent. */
  lemma AcceptsExactly(p: Protocol, past: seq<Transaction>, e: Entries, v: View, tx: Transaction)
    requires Agrees(e, v)
    ensures CheckTx(p, past, e, tx) == Accept <==>
      && tx.txIns != [] && tx.txOuts != []
      && (forall i | i in tx.txIns :: Signs(p, v, tx, i, Spends(i)))
      && Wrap(TotalOut(tx.txOuts)) <= Wrap(TotalIn(v, tx.txIns) + TX_FEE)
      && PaysBack(p, tx) && NamesContent(p, past, tx)
  {
    hide Agrees, Signs, CheckInput, ScanInputs, OutputSum, TotalOut, TotalIn, NamesContent, CheckParent, Wrap, Unspent;
    forall i | i in tx.txIns
      ensures CheckInput(p, e, tx, i) == Accept <==> Signs(p, v, tx, i, Spends(i))
    {
      InputSignsExactly(p, e, v, tx, i);
    }
    ScanEnds(p, e, tx, tx.txIns);
    if tx.txIns != [] && tx.txOuts != [] && ScanInputs(p, e, tx, tx.txIns).Total? {
      ScanMeansUnspent(p, e, v, tx, tx.txIns);
      OutputSumWraps(tx.txOuts);
      WrapSum(TotalIn(v, tx.txIns), TX_FEE);
      NamesContentExactly(p, past, tx);
    }
    SignsMeansUnspent(p, v, tx);
  }

  lemma SignsMeansUnspent(p: Protocol, v: View, tx: Transaction)
    ensures forall i | Signs(p, v, tx, i, Spends(i)) :: Spends(i) in v
  {
  }

  lemma NamesContentExactly(p: Protocol, past: seq<Transaction>, tx: Transaction)
    requires tx.txOuts != []
    ensures NamesContent(p, past, tx) <==>
            (tx.parent != [] <==> tx.kind == COMMENT || tx.kind == UPVOTE) && CheckParent(p, past, tx) == Accept
  {
    hide TxHash, FindTx;
    FindTxIsFirst(p, past, tx.parent);
    if FindTx(p, past, tx.parent).Some? {
      var k :| 0 <= k < |past| && past[k] == FindTx(p, past, tx.parent).value && TxHash(p, past[k]) == tx.parent
        && FindTx(p, past[..k], tx.parent).None?;
      FindTxIsFirst(p, past[..k], tx.parent);
      forall j | 0 <= j < k
        ensures TxHash(p, past[j]) != tx.parent
      {
        assert past[..k][j] == past[j];
      }
      forall m | 0 <= m < |past| && TxHash(p, past[m]) == tx.parent &&
        forall j | 0 <= j < m :: TxHash(p, past[j]) != tx.parent
        ensures m == k
      {
      }
    }
  }

  /** For a transfer, or any type the node has no rules for, whose inputs all pass, the
      check is exactly the comparison of the sums in 32 bits, with the fee on the side of
      the inputs. */
  lemma TransferPassesExactly(p: Protocol, past: seq<Transaction>, e: Entries, v: View, tx: Transaction)
    requires Agrees(e, v) && (forall i | i in tx.txIns :: CheckInput(p, e, tx, i) == Accept)
    requires (tx.kind < POST || tx.kind > UPVOTE) && tx.parent == [] && tx.txIns != [] && tx.txOuts != []
    ensures forall i | i in tx.txIns :: Spends(i) in v
    ensures CheckTx(p, past, e, tx) == Accept <==> Wrap(TotalOut(tx.txOuts)) <= Wrap(TotalIn(v, tx.txIns) + TX_FEE)
    ensures TotalIn(v, tx.txIns) + TX_FEE < TWO32 && TotalOut(tx.txOuts) < TWO32 ==>
            (CheckTx(p, past, e, tx) == Accept <==> TotalOut(tx.txOuts) <= TotalIn(v, tx.txIns) + TX_FEE)
  {
    hide Agrees, CheckInput, Unspent, ScanInputs, OutputSum, TotalOut, TotalIn;
    ScanEnds(p, e, tx, tx.txIns);
    ScanMeansUnspent(p, e, v, tx, tx.txIns);
    OutputSumWraps(tx.txOuts);
    WrapSum(TotalIn(v, tx.txIns), TX_FEE);
  }

  lemma WrapShrinks(n: nat)
    ensures Wrap(n) <= n
  {
  }

  /** While the whole supply fits 32 bits distinct inputs do not wrap; with room for the fee,
      and an output sum that fits as well, the comparison the node makes is the comparison
      of the true sums. */
  lemma NoWrapBelowSupply(p: Protocol, e: Entries, v: View, tx: Transaction)
    requires Agrees(e, v) && ScanInputs(p, e, tx, tx.txIns).Total?
    requires DistinctInputs(tx.txIns) && Sum(v) < TWO32
    ensures forall i | i in tx.txIns :: Spends(i) in v
    ensures ScanInputs(p, e, tx, tx.txIns).sum == TotalIn(v, tx.txIns)
    ensures Sum(v) + TX_FEE < TWO32 && TotalOut(tx.txOuts) < TWO32 ==>
            (Wrap(ScanInputs(p, e, tx, tx.txIns).sum + TX_FEE) < OutputSum(tx.txOuts) <==>
             TotalIn(v, tx.txIns) + TX_FEE < TotalOut(tx.txOuts))
  {
    hide Agrees, Unspent, DistinctInputs, ScanInputs, OutputSum, Sum, TotalOut, TotalIn;
    ScanMeansUnspent(p, e, v, tx, tx.txIns);
    InputsWithinSupply(v, tx.txIns);
    OutputSumWraps(tx.txOuts);
    WrapSmall(TotalIn(v, tx.txIns));
  }

  lemma WrapSmall(n: nat)
    requires n < TWO32
    ensures Wrap(n) == n
  {
  }

  /** The fee can be forged: a transfer may pay out one unit more than it takes in, and the
      supply rises by that unit. */
  lemma TransferCanCreateFee(p: Protocol, past: seq<Transaction>, e: Entries, v: View, tx: Transaction, i: TxIn)
    requires Agrees(e, v) && Compact(e) && CheckInput(p, e, tx, i) == Accept
    requires tx.kind == TRANSFER && tx.parent == [] && tx.txIns == [i] && tx.txOuts != []
    requires Fresh(v - SpentBy(tx.txIns), TxHash(p, tx), tx.txOuts)
    ensures Spends(i) in v
    ensures TotalOut(tx.txOuts) == v[Spends(i)].value + TX_FEE < TWO32 ==>
            && CheckTx(p, past, e, tx) == Accept && ApplyTx(p, e, tx).Some?
            && Sum(FoldTx(p, v, tx)) == Sum(v) + TX_FEE
  {
    hide Agrees, Compact, CheckInput, CheckTx, Fresh, FoldTx, TxHash;
    TransferPassesExactly(p, past, e, v, tx);
    assert tx.txIns[..0] == [];
    DistinctSpendsSucceed(e, v, tx.txIns);
    SumFoldTx(p, v, tx);
    DistinctRepeatNothing(v, tx.txIns);
    FreshOverwritesNothing(v - SpentBy(tx.txIns), TxHash(p, tx), tx.txOuts);
  }

  /** Output sums that fit 32 bits are needed: outputs that add up to exactly 2^32 look like
      nothing to the check, and are all paid out. */
  lemma OverflowForges(p: Protocol, past: seq<Transaction>, e: Entries, v: View, tx: Transaction, i: TxIn)
    requires Agrees(e, v) && Compact(e) && CheckInput(p, e, tx, i) == Accept
    requires tx.kind == TRANSFER && tx.parent == [] && tx.txIns == [i] && TotalOut(tx.txOuts) == TWO32
    requires Fresh(v - SpentBy(tx.txIns), TxHash(p, tx), tx.txOuts)
    ensures CheckTx(p, past, e, tx) == Accept && ApplyTx(p, e, tx).Some?
    ensures Spends(i) in v && Sum(FoldTx(p, v, tx)) + v[Spends(i)].value == Sum(v) + TWO32
  {
    assert tx.txOuts != [];
    hide Agrees, Compact, CheckInput, CheckTx, Fresh, FoldTx, TxHash, TotalOut;
    TransferPassesExactly(p, past, e, v, tx);
    assert tx.txIns[..0] == [];
    DistinctSpendsSucceed(e, v, tx.txIns);
    SumFoldTx(p, v, tx);
    DistinctRepeatNothing(v, tx.txIns);
    FreshOverwritesNothing(v - SpentBy(tx.txIns), TxHash(p, tx), tx.txOuts);
  }

  /** Distinct inputs are needed: an output named twice is added up twice and given up once.
      If its transaction has another unspent output, nothing panics, and the whole value of
      the output can be paid out on top of the fee. */
  lemma RepeatedInputForges(p: Protocol, past: seq<Transaction>, e: Entries, v: View, tx: Transaction, i: TxIn,
      other: OutPoint)
    requires Agrees(e, v) && Compact(e) && CheckInput(p, e, tx, i) == Accept
    requires other in v && other.txHash == i.prevTxHash && other != Spends(i)
    requires tx.kind == TRANSFER && tx.parent == [] && tx.txIns == [i, i] && tx.txOuts != []
    requires Fresh(v - SpentBy(tx.txIns), TxHash(p, tx), tx.txOuts)
    ensures Spends(i) in v
    ensures TotalOut(tx.txOuts) == 2 * v[Spends(i)].value + TX_FEE < TWO32 ==>
            && CheckTx(p, past, e, tx) == Accept && ApplyTx(p, e, tx).Some?
            && Sum(FoldTx(p, v, tx)) == Sum(v) + v[Spends(i)].value + TX_FEE
  {
    hide Agrees, Compact, CheckInput, CheckTx, Fresh, FoldTx, TxHash;
    TransferPassesExactly(p, past, e, v, tx);
    RepeatedOnce(v, tx.txIns, i);
    RepeatedDoesNotPanic(e, v, tx.txIns, i, other);
    SumFoldTx(p, v, tx);
    FreshOverwritesNothing(v - SpentBy(tx.txIns), TxHash(p, tx), tx.txOuts);
  }

  lemma RepeatedOnce(v: View, ins: seq<TxIn>, i: TxIn)
    requires ins == [i, i] && Spends(i) in v
    ensures TotalIn(v, ins) == 2 * v[Spends(i)].value && Repeats(v, ins) == v[Spends(i)].value
  {
    assert ins[..1] == [i] && [i][..0] == [];
    assert SpentBy([i]) == {Spends(i)} && SpentBy([]) == {};
    assert Repeats(v, [i]) == 0 && TotalIn(v, [i]) == v[Spends(i)].value;
  }

  lemma RepeatedDoesNotPanic(e: Entries, v: View, ins: seq<TxIn>, i: TxIn, other: OutPoint)
    requires Agrees(e, v) && Compact(e) && ins == [i, i] && Spends(i) in v
    requires other in v && other.txHash == i.prevTxHash && other != Spends(i)
    ensures SpendAll(e, ins).Some?
  {
    PanicExactly(e, v, ins);
    assert Unspent(e, other);
    forall k | 0 <= k < |ins|
      ensures !Exhausted(e, ins, k)
    {
      assert other !in SpentBy(ins[..k]);
    }
  }

  /** Some input names an entry of the index but no output of it, and every input before it
      passes. */
  ghost predicate Dangling(p: Protocol, e: Entries, tx: Transaction, ins: seq<TxIn>) {
    exists k :: 0 <= k < |ins| && DanglesAt(p, e, tx, ins, k)
  }

  ghost predicate DanglesAt(p: Protocol, e: Entries, tx: Transaction, ins: seq<TxIn>, k: nat)
    requires k < |ins|
  {
    && (forall j | 0 <= j < k :: CheckInput(p, e, tx, ins[j]) == Accept)
    && ins[k].prevTxHash in e && ins[k].prevTxOutIndex !in e[ins[k].prevTxHash]
  }

  lemma {:induction false} ScanEnds(p: Protocol, e: Entries, tx: Transaction, ins: seq<TxIn>)
    ensures ScanInputs(p, e, tx, ins).Total? <==> forall i | i in ins :: CheckInput(p, e, tx, i) == Accept
  {
    hide CheckInput;
    if ins != [] {
      ScanEnds(p, e, tx, ins[..|ins| - 1]);
      assert ins == ins[..|ins| - 1] + [ins[|ins| - 1]];
    }
  }

  /** The scan of the inputs panics exactly on a dangling input. */
  lemma {:induction false} ScanPanicsExactly(p: Protocol, e: Entries, tx: Transaction, ins: seq<TxIn>)
    ensures ScanInputs(p, e, tx, ins) == Stop(Panic) <==> Dangling(p, e, tx, ins)
  {
    hide CheckInput, DanglesAt;
    if ins != [] {
      var n := |ins| - 1;
      var rest := ins[..n];
      ScanPanicsExactly(p, e, tx, rest);
      ScanEnds(p, e, tx, rest);
      DanglesLater(p, e, tx, ins);
    }
  }

  lemma DanglesLater(p: Protocol, e: Entries, tx: Transaction, ins: seq<TxIn>)
    requires ins != []
    ensures var rest, last := ins[..|ins| - 1], ins[|ins| - 1];
      Dangling(p, e, tx, ins) <==>
        Dangling(p, e, tx, rest) || ((forall i | i in rest :: CheckInput(p, e, tx, i) == Accept) &&
          CheckInput(p, e, tx, last) == Panic)
  {
    var n := |ins| - 1;
    var rest := ins[..n];
    forall k | 0 <= k < n
      ensures DanglesAt(p, e, tx, ins, k) <==> DanglesAt(p, e, tx, rest, k)
    {
      assert forall j | 0 <= j <= k :: rest[j] == ins[j];
    }
    assert DanglesAt(p, e, tx, ins, n) <==>
      (forall i | i in rest :: CheckInput(p, e, tx, i) == Accept) && CheckInput(p, e, tx, ins[n]) == Panic;
  }

  /** A comment or an upvote is accepted only under a post or comment already on the chain. */
  lemma AcceptedTxParent(p: Protocol, past: seq<Transaction>, e: Entries, tx: Transaction)
    requires CheckTx(p, past, e, tx) == Accept && (tx.kind == COMMENT || tx.kind == UPVOTE)
    ensures exists k | 0 <= k < |past| ::
          TxHash(p, past[k]) == tx.parent && (past[k].kind == POST || past[k].kind == COMMENT)
  {
    FindTxIsFirst(p, past, tx.parent);
  }

  // ---------------------------------------------------------------- the transactions of a block

  /** The body of `validateBlockTxs`' loop, for a block of `n` transactions. */
  function CheckOne(p: Protocol, past: seq<Transaction>, e: Entries, n: nat, tx: Transaction): Verdict {
    if tx.kind != COINBASE then
      if ValidateStructure(p, tx) != Accept then ValidateStructure(p, tx) else CheckTx(p, past, e, tx)
    else if tx.txOuts == [] then Panic
    else if tx.txOuts[0].value != Wrap((n - 1) * TX_FEE + TX_COINBASE) then Reject
    else Accept
  }

  function CheckEach(p: Protocol, past: seq<Transaction>, e: Entries, n: nat, txs: seq<Transaction>): Verdict {
    if txs == [] then Accept
    else
      var v := CheckEach(p, past, e, n, txs[..|txs| - 1]);
      if v != Accept then v else CheckOne(p, past, e, n, txs[|txs| - 1])
  }

  function CheckBlockTxs(p: Protocol, past: seq<Transaction>, e: Entries, b: Block): Verdict {
    CheckEach(p, past, e, |b.transactions|, b.transactions)
  }

  lemma {:induction false} CheckEachMeaning(p: Protocol, past: seq<Transaction>, e: Entries, n: nat,
      txs: seq<Transaction>)
    ensures CheckEach(p, past, e, n, txs) == Accept <==> forall tx | tx in txs :: CheckOne(p, past, e, n, tx) == Accept
  {
    if txs != [] {
      CheckEachMeaning(p, past, e, n, txs[..|txs| - 1]);
      assert txs == txs[..|txs| - 1] + [txs[|txs| - 1]];
    }
  }

  /** The loop panics exactly when some transaction does and every one before it passes. */
  lemma {:induction false} CheckEachPanicsExactly(p: Protocol, past: seq<Transaction>, e: Entries, n: nat,
      txs: seq<Transaction>)
    ensures CheckEach(p, past, e, n, txs) == Panic <==>
            exists k | 0 <= k < |txs| :: FirstToPanic(p, past, e, n, txs, k)
  {
    hide CheckOne;
    if txs != [] {
      var m := |txs| - 1;
      CheckEachPanicsExactly(p, past, e, n, txs[..m]);
      CheckEachMeaning(p, past, e, n, txs[..m]);
      forall k | 0 <= k < m
        ensures FirstToPanic(p, past, e, n, txs, k) <==> FirstToPanic(p, past, e, n, txs[..m], k)
      {
        assert txs[..m][..k] == txs[..k];
      }
      assert FirstToPanic(p, past, e, n, txs, m) <==>
        CheckEach(p, past, e, n, txs[..m]) == Accept && CheckOne(p, past, e, n, txs[m]) == Panic;
    }
  }

  ghost predicate FirstToPanic(p: Protocol, past: seq<Transaction>, e: Entries, n: nat, txs: seq<Transaction>, k: nat)
    requires k < |txs|
  {
    && (forall tx | tx in txs[..k] :: CheckOne(p, past, e, n, tx) == Accept)
    && CheckOne(p, past, e, n, txs[k]) == Panic
  }

  /** The ordinary transactions of a block: all but the last. */
  function Ordinary(b: Block): seq<Transaction>
    requires b.transactions != []
  {
    b.transactions[..|b.transactions| - 1]
  }

  function Reward(b: Block): Transaction
    requires b.transactions != []
  {
    b.transactions[|b.transactions| - 1]
  }

  /** What holds of every block that joins the chain, received or mined: the ordinary
      transactions are individually valid, the last one is the reward. */
  ghost predicate Settles(p: Protocol, past: seq<Transaction>, e: Entries, b: Block) {
    && b.transactions != []
    && (forall tx | tx in Ordinary(b) :: CheckTx(p, past, e, tx) == Accept)
    && Reward(b).kind == COINBASE
    && Reward(b).txIns == []
    && |Reward(b).txOuts| == 1
    && Reward(b).txOuts[0].value == CoinbaseValue(|Ordinary(b)|)
    && Reward(b).parent == [] && Reward(b).content == []
  }

  lemma AcceptedSettles(p: Protocol, past: seq<Transaction>, e: Entries, b: Block)
    requires ValidateBlock(p, b) == Accept && CheckBlockTxs(p, past, e, b) == Accept
    ensures Settles(p, past, e, b)
  {
    CheckEachMeaning(p, past, e, |b.transactions|, b.transactions);
    forall tx | tx in Ordinary(b)
      ensures CheckTx(p, past, e, tx) == Accept
    {
      var k :| 0 <= k < |b.transactions| - 1 && b.transactions[k] == tx;
      assert CheckOne(p, past, e, |b.transactions|, tx) == Accept;
    }
    assert Reward(b) in b.transactions;
    assert CheckOne(p, past, e, |b.transactions|, Reward(b)) == Accept;
  }

  /** What a reward must look like. */
  predicate IsReward(tx: Transaction, n: nat) {
    && tx.kind == COINBASE && tx.txIns == [] && tx.parent == [] && tx.content == []
    && |tx.txOuts| == 1 && tx.txOuts[0].value == (n * TX_FEE + TX_COINBASE) % TWO32
  }

  /** The node accepts exactly the blocks that are sealed, can be hashed, consist of
      individually valid transactions, none of type COINBASE, and end in the one right
      reward. */
  lemma AcceptsBlockExactly(p: Protocol, past: seq<Transaction>, e: Entries, b: Block)
    ensures ValidateBlock(p, b) == Accept && CheckBlockTxs(p, past, e, b) == Accept <==>
      && Sealed(p, b) && (forall tx | tx in b.transactions :: Hashable(tx))
      && (forall tx | tx in Ordinary(b) :: tx.kind != COINBASE && CheckTx(p, past, e, tx) == Accept)
      && IsReward(Reward(b), |Ordinary(b)|)
  {
    hide Header, Hashable, MerkleRoot;
    var n := |b.transactions|;
    CheckEachMeaning(p, past, e, n, b.transactions);
    if b.transactions != [] {
      assert b.transactions == Ordinary(b) + [Reward(b)];
      forall tx | tx in Ordinary(b) && tx.kind != COINBASE
        ensures CheckOne(p, past, e, n, tx) == Accept <==> CheckTx(p, past, e, tx) == Accept
      {
        AcceptedKeepsStructure(p, past, e, tx);
      }
      assert forall k | 0 <= k < n - 1 :: b.transactions[k] == Ordinary(b)[k];
    }
  }

  lemma AcceptedKeepsStructure(p: Protocol, past: seq<Transaction>, e: Entries, tx: Transaction)
    ensures CheckTx(p, past, e, tx) == Accept ==> ValidateStructure(p, tx) == Accept
  {
    hide ScanInputs, CheckParent, ValidateStructure;
  }

  lemma GeneratedSettles(p: Protocol, past: seq<Transaction>, e: Entries, prev: Bytes, txs: seq<Transaction>,
      pkHash: Bytes, b: Block)
    requires Generated(p, prev, txs, pkHash, b)
    requires forall tx | tx in txs :: CheckTx(p, past, e, tx) == Accept
    ensures Sealed(p, b) && Settles(p, past, e, b) && Ordinary(b) == txs
  {
    hide Sealed, CheckTx, LeastWorking;
    assert Ordinary(b) == txs;
  }

  /** A block built from individually validated transactions, none of them of type
      COINBASE, also passes the receiver's check at a node in the same state. */
  lemma MinerAgreesWithReceiver(p: Protocol, past: seq<Transaction>, e: Entries, prev: Bytes, txs: seq<Transaction>,
      pkHash: Bytes, b: Block)
    requires Generated(p, prev, txs, pkHash, b)
    requires forall tx | tx in txs :: CheckTx(p, past, e, tx) == Accept && tx.kind != COINBASE
    ensures CheckBlockTxs(p, past, e, b) == Accept
  {
    var n := |b.transactions|;
    forall tx | tx in b.transactions
      ensures CheckOne(p, past, e, n, tx) == Accept
    {
      if tx !in txs {
        assert tx == MakeCoinbaseTx(|txs|, pkHash);
      }
    }
    CheckEachMeaning(p, past, e, n, b.transactions);
  }

  // ---------------------------------------------------------------- supply, block by block

  lemma {:induction false} OrdinaryValue(p: Protocol, past: seq<Transaction>, e: Entries, v: View,
      txs: seq<Transaction>)
    requires Agrees(e, v)
    requires forall tx | tx in txs :: CheckTx(p, past, e, tx) == Accept
    ensures forall i | i in Inputs(txs) :: Spends(i) in v
    ensures TotalOuts(txs) <= TotalIn(v, Inputs(txs)) + |txs| * TX_FEE + Overflow(txs)
  {
    hide CheckTx, Agrees, TotalOut, Wrap;
    if txs != [] {
      var rest, last := txs[..|txs| - 1], txs[|txs| - 1];
      OrdinaryValue(p, past, e, v, rest);
      AcceptedTxValue(p, past, e, v, last);
      TotalInConcat(v, Inputs(rest), last.txIns);
    }
  }

  lemma RewardHasNoInputs(b: Block)
    requires b.transactions != [] && Reward(b).txIns == []
    ensures Inputs(b.transactions) == Inputs(Ordinary(b))
    ensures TotalOuts(b.transactions) == TotalOuts(Ordinary(b)) + TotalOut(Reward(b).txOuts)
  {
  }

  /** A block with `n` ordinary transactions raises the supply by at most the reward, twice
      the fees, the value of its repeated inputs and the overflow of its output sums. */
  lemma BlockSupplyBound(p: Protocol, past: seq<Transaction>, e: Entries, v: View, b: Block)
    requires Agrees(e, v) && Settles(p, past, e, b)
    ensures Sum(FoldTxs(p, v, b.transactions))
         <= Sum(v) + TX_COINBASE + 2 * |Ordinary(b)| * TX_FEE
            + Repeats(v, Inputs(b.transactions)) + Overflow(b.transactions)
  {
    hide Agrees, CheckTx, Repeats, Sum, FoldTxs, Inputs;
    OrdinaryValue(p, past, e, v, Ordinary(b));
    RewardHasNoInputs(b);
    SupplyBound(p, v, b.transactions);
    assert Reward(b).txOuts[..0] == [];
    assert TotalOut(Reward(b).txOuts) == CoinbaseValue(|Ordinary(b)|);
    WrapShrinks(|Ordinary(b)| * TX_FEE + TX_COINBASE);
  }

  /** With distinct inputs, and output sums that fit 32 bits, nothing comes on top. */
  lemma PlainSupplyBound(p: Protocol, past: seq<Transaction>, e: Entries, v: View, b: Block)
    requires Agrees(e, v) && Settles(p, past, e, b)
    requires DistinctInputs(Inputs(b.transactions))
    requires forall tx | tx in b.transactions :: TotalOut(tx.txOuts) < TWO32
    ensures Sum(FoldTxs(p, v, b.transactions)) <= Sum(v) + TX_COINBASE + 2 * |Ordinary(b)| * TX_FEE
  {
    hide Settles, Agrees, Repeats, Overflow, DistinctInputs, TotalOut;
    BlockSupplyBound(p, past, e, v, b);
    DistinctRepeatNothing(v, Inputs(b.transactions));
    NoOverflow(b.transactions);
  }

  /** Transactions that pay exactly the fee, and a reward that fits 32 bits. */
  ghost predicate BalancedBlock(p: Protocol, v: View, b: Block)
    requires b.transactions != []
  {
    Balanced(p, v, Ordinary(b)) && |Ordinary(b)| * TX_FEE + TX_COINBASE < TWO32
  }

  /** Then every block adds exactly the mining reward, less the coins it replaces. */
  lemma BlockSupplyExact(p: Protocol, past: seq<Transaction>, e: Entries, v: View, b: Block)
    requires Settles(p, past, e, b) && BalancedBlock(p, v, b)
    ensures Sum(FoldTxs(p, v, b.transactions)) + Lost(p, v, b.transactions) == Sum(v) + TX_COINBASE
  {
    hide CheckTx, Balanced, Overwritten, Lost, FoldTxs, Sum;
    var cur, r := FoldTxs(p, v, Ordinary(b)), Reward(b);
    BalancedSupply(p, v, Ordinary(b));
    assert b.transactions == Ordinary(b) + [r];
    LostLast(p, v, Ordinary(b), r);
    FoldLast(p, v, Ordinary(b), r);
    SumFoldTx(p, cur, r);
    assert r.txOuts[..0] == [];
    assert TotalOut(r.txOuts) == CoinbaseValue(|Ordinary(b)|);
    WrapSmall(|Ordinary(b)| * TX_FEE + TX_COINBASE);
  }

  /** A settled block with distinct inputs is applied without a panic. */
  lemma SettledBlockApplies(p: Protocol, past: seq<Transaction>, e: Entries, v: View, b: Block)
    requires Agrees(e, v) && Compact(e) && Settles(p, past, e, b)
    requires DistinctInputs(Inputs(b.transactions))
    ensures ApplyTxs(p, e, b.transactions).Some?
  {
    RewardHasNoInputs(b);
    OrdinaryInputs(p, past, e, v, Ordinary(b));
    DistinctBlockSucceeds(p, e, v, b.transactions);
  }

  lemma {:induction false} OrdinaryInputs(p: Protocol, past: seq<Transaction>, e: Entries, v: View,
      txs: seq<Transaction>)
    requires Agrees(e, v)
    requires forall tx | tx in txs :: CheckTx(p, past, e, tx) == Accept
    ensures forall i | i in Inputs(txs) :: Spends(i) in v
  {
    if txs != [] {
      OrdinaryInputs(p, past, e, v, txs[..|txs| - 1]);
      AcceptedTxValue(p, past, e, v, txs[|txs| - 1]);
    }
  }
}
