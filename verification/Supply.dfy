/** Total value: what a list of transactions can add to, or take from, the sum of all
    unspent outputs. */
module Supply {
  import opened Wire
  import opened Transactions
  import opened Utxo

  // ---------------------------------------------------------------- sums over a view

  ghost function Sum(v: View): nat
    decreases |v|
  {
    if v == map[] then 0
    else
      var o :| o in v;
      v[o].value + Sum(v - {o})
  }

  /** The order in which a view is summed does not matter. */
  lemma {:induction false} SumRemove(v: View, o: OutPoint)
    requires o in v
    ensures Sum(v) == v[o].value + Sum(v - {o})
    decreases |v|
  {
    var c :| c in v && Sum(v) == v[c].value + Sum(v - {c});
    if c != o {
      SumRemove(v - {c}, o);
      SumRemove(v - {o}, c);
      assert v - {c} - {o} == v - {o} - {c};
    }
  }

  /** Writing a coin adds its value and takes away that of the coin it replaces. */
  lemma SumWrite(v: View, o: OutPoint, c: TxOut)
    ensures Sum(v[o := c]) + (if o in v then v[o].value else 0) == Sum(v) + c.value
  {
    SumRemove(v[o := c], o);
    if o in v {
      SumRemove(v, o);
      assert v[o := c] - {o} == v - {o};
    } else {
      assert v[o := c] - {o} == v;
    }
  }

  ghost predicate Within(a: View, b: View) {
    forall o | o in a :: o in b && a[o] == b[o]
  }

  lemma {:induction false} SumWithin(a: View, b: View)
    requires Within(a, b)
    ensures Sum(a) <= Sum(b)
    decreases |a|
  {
    if a != map[] {
      var o :| o in a;
      SumRemove(a, o);
      SumRemove(b, o);
      SumWithin(a - {o}, b - {o});
    }
  }

  lemma {:induction false} SumUnion(a: View, b: View)
    ensures Sum(a + b) <= Sum(a) + Sum(b)
    decreases |b|
  {
    if b == map[] {
      assert a + b == a;
    } else {
      var o :| o in b;
      SumRemove(b, o);
      SumUnion(a, b - {o});
      SumWrite(a + (b - {o}), o, b[o]);
      UnionLast(a, b, o);
    }
  }

  lemma UnionLast(a: View, b: View, o: OutPoint)
    requires o in b
    ensures a + b == (a + (b - {o}))[o := b[o]]
  {
  }

  // ---------------------------------------------------------------- totals

  function TotalOut(outs: seq<TxOut>): nat {
    if outs == [] then 0 else TotalOut(outs[..|outs| - 1]) + outs[|outs| - 1].value
  }

  function TotalIn(v: View, ins: seq<TxIn>): nat
    requires forall i | i in ins :: Spends(i) in v
  {
    if ins == [] then 0 else TotalIn(v, ins[..|ins| - 1]) + v[Spends(ins[|ins| - 1])].value
  }

  function TotalOuts(txs: seq<Transaction>): nat {
    if txs == [] then 0 else TotalOuts(txs[..|txs| - 1]) + TotalOut(txs[|txs| - 1].txOuts)
  }

  /** The value of the inputs that an earlier input of the list already spends. */
  function Repeats(v: View, ins: seq<TxIn>): nat {
    if ins == [] then 0
    else
      var rest, o := ins[..|ins| - 1], Spends(ins[|ins| - 1]);
      Repeats(v, rest) + if o in SpentBy(rest) && o in v then v[o].value else 0
  }

  /** Spending takes out the value of the inputs, but that of a repeated one only once. */
  lemma {:induction false} SumSpent(v: View, ins: seq<TxIn>)
    requires forall i | i in ins :: Spends(i) in v
    ensures Sum(v) + Repeats(v, ins) == Sum(v - SpentBy(ins)) + TotalIn(v, ins)
  {
    if ins == [] {
      assert v - SpentBy(ins) == v;
    } else {
      var rest, last := ins[..|ins| - 1], ins[|ins| - 1];
      SumSpent(v, rest);
      SpentByLast(ins);
      assert v - SpentBy(rest) - {Spends(last)} == v - SpentBy(ins);
      if Spends(last) in SpentBy(rest) {
        assert v - SpentBy(ins) == v - SpentBy(rest);
      } else {
        SumRemove(v - SpentBy(rest), Spends(last));
      }
    }
  }

  lemma SpentByLast(ins: seq<TxIn>)
    requires ins != []
    ensures SpentBy(ins) == SpentBy(ins[..|ins| - 1]) + {Spends(ins[|ins| - 1])}
  {
    assert ins == ins[..|ins| - 1] + [ins[|ins| - 1]];
  }

  lemma {:induction false} DistinctRepeatNothing(v: View, ins: seq<TxIn>)
    requires DistinctInputs(ins)
    ensures Repeats(v, ins) == 0
  {
    if ins != [] {
      DistinctRepeatNothing(v, ins[..|ins| - 1]);
      assert Spends(ins[|ins| - 1]) !in SpentBy(ins[..|ins| - 1]);
    }
  }

  lemma {:induction false} TotalInConcat(v: View, a: seq<TxIn>, b: seq<TxIn>)
    requires forall i | i in a + b :: Spends(i) in v
    ensures (forall i | i in a :: i in a + b) && (forall i | i in b :: i in a + b)
    ensures TotalIn(v, a + b) == TotalIn(v, a) + TotalIn(v, b)
  {
    if b == [] {
      assert a + b == a;
    } else {
      var rest := b[..|b| - 1];
      assert (a + b)[..|a + b| - 1] == a + rest;
      assert forall i | i in a + rest :: i in a + b;
      TotalInConcat(v, a, rest);
    }
  }

  // ---------------------------------------------------------------- upper bound

  function New(p: Protocol, tx: Transaction): View {
    FoldOuts(map[], TxHash(p, tx), tx.txOuts)
  }

  /** All outputs of a list, later ones replacing earlier ones. */
  function Made(p: Protocol, txs: seq<Transaction>): View {
    if txs == [] then map[] else Made(p, txs[..|txs| - 1]) + New(p, txs[|txs| - 1])
  }

  lemma {:induction false} FoldOutsIsUnion(v: View, h: Bytes, outs: seq<TxOut>)
    ensures FoldOuts(v, h, outs) == v + FoldOuts(map[], h, outs)
  {
    if outs == [] {
      assert v + map[] == v;
    } else {
      FoldOutsIsUnion(v, h, outs[..|outs| - 1]);
    }
  }

  lemma {:induction false} SumNew(h: Bytes, outs: seq<TxOut>)
    ensures Sum(FoldOuts(map[], h, outs)) <= TotalOut(outs)
  {
    if outs != [] {
      var n := |outs| - 1;
      SumNew(h, outs[..n]);
      SumWrite(FoldOuts(map[], h, outs[..n]), OutPoint(h, Wrap(n)), outs[n]);
    }
  }

  lemma {:induction false} SumMade(p: Protocol, txs: seq<Transaction>)
    ensures Sum(Made(p, txs)) <= TotalOuts(txs)
  {
    if txs != [] {
      var n := |txs| - 1;
      SumMade(p, txs[..n]);
      SumNew(TxHash(p, txs[n]), txs[n].txOuts);
      SumUnion(Made(p, txs[..n]), New(p, txs[n]));
    }
  }

  /** Whatever the transactions are, nothing is spendable afterwards but what was there
      and not spent, and what they made. */
  lemma {:induction false} FoldWithin(p: Protocol, v: View, txs: seq<Transaction>)
    ensures Within(FoldTxs(p, v, txs), (v - SpentBy(Inputs(txs))) + Made(p, txs))
  {
    if txs != [] {
      var rest, last := txs[..|txs| - 1], txs[|txs| - 1];
      FoldWithin(p, v, rest);
      var cur := FoldTxs(p, v, rest);
      FoldOutsIsUnion(cur - SpentBy(last.txIns), TxHash(p, last), last.txOuts);
      SpentBySplit(txs);
    }
  }

  lemma {:induction false} SpentBySplit(txs: seq<Transaction>)
    requires txs != []
    ensures SpentBy(Inputs(txs)) == SpentBy(Inputs(txs[..|txs| - 1])) + SpentBy(txs[|txs| - 1].txIns)
  {
    var a, b := Inputs(txs[..|txs| - 1]), txs[|txs| - 1].txIns;
    assert Inputs(txs) == a + b;
    assert forall i :: i in a + b <==> i in a || i in b;
  }

  /** The supply after a list of transactions, whatever they create and however often they
      spend the same output. */
  lemma SupplyBound(p: Protocol, v: View, txs: seq<Transaction>)
    requires forall i | i in Inputs(txs) :: Spends(i) in v
    ensures Sum(FoldTxs(p, v, txs)) + TotalIn(v, Inputs(txs)) <= Sum(v) + TotalOuts(txs) + Repeats(v, Inputs(txs))
  {
    var left := v - SpentBy(Inputs(txs));
    SumSpent(v, Inputs(txs));
    FoldWithin(p, v, txs);
    SumWithin(FoldTxs(p, v, txs), left + Made(p, txs));
    SumUnion(left, Made(p, txs));
    SumMade(p, txs);
  }

  /** No set of distinct inputs is worth more than everything there is. */
  lemma InputsWithinSupply(v: View, ins: seq<TxIn>)
    requires (forall i | i in ins :: Spends(i) in v) && DistinctInputs(ins)
    ensures TotalIn(v, ins) <= Sum(v)
  {
    SumSpent(v, ins);
    DistinctRepeatNothing(v, ins);
  }

  // ---------------------------------------------------------------- exact supply

  /** None of the outpoints about to be created exists already. */
  ghost predicate Fresh(v: View, h: Bytes, outs: seq<TxOut>) {
    && |outs| <= TWO32
    && forall k | 0 <= k < |outs| :: OutPoint(h, k) !in v
  }

  lemma {:induction false} FoldOutsKeys(h: Bytes, outs: seq<TxOut>)
    requires |outs| <= TWO32
    ensures forall o: OutPoint :: o in FoldOuts(map[], h, outs) <==> o.txHash == h && o.index < |outs|
    ensures forall k | 0 <= k < |outs| ::
          OutPoint(h, k) in FoldOuts(map[], h, outs) && FoldOuts(map[], h, outs)[OutPoint(h, k)] == outs[k]
  {
    if outs != [] {
      FoldOutsKeys(h, outs[..|outs| - 1]);
    }
  }

  /** The value of the coins that the outputs replace. */
  function Overwritten(v: View, h: Bytes, outs: seq<TxOut>): nat {
    if outs == [] then 0
    else
      var rest := outs[..|outs| - 1];
      var cur, o := FoldOuts(v, h, rest), OutPoint(h, Wrap(|rest|));
      Overwritten(v, h, rest) + if o in cur then cur[o].value else 0
  }

  lemma {:induction false} SumFoldOuts(v: View, h: Bytes, outs: seq<TxOut>)
    ensures Sum(FoldOuts(v, h, outs)) + Overwritten(v, h, outs) == Sum(v) + TotalOut(outs)
  {
    if outs != [] {
      var n := |outs| - 1;
      SumFoldOuts(v, h, outs[..n]);
      SumWrite(FoldOuts(v, h, outs[..n]), OutPoint(h, Wrap(n)), outs[n]);
    }
  }

  lemma {:induction false} FreshOverwritesNothing(v: View, h: Bytes, outs: seq<TxOut>)
    requires Fresh(v, h, outs)
    ensures Overwritten(v, h, outs) == 0
  {
    if outs != [] {
      var n := |outs| - 1;
      FreshOverwritesNothing(v, h, outs[..n]);
      assert Wrap(n) == n;
      StillFresh(v, h, outs[..n]);
    }
  }

  lemma StillFresh(v: View, h: Bytes, outs: seq<TxOut>)
    requires |outs| < TWO32
    requires OutPoint(h, |outs|) !in v
    ensures OutPoint(h, |outs|) !in FoldOuts(v, h, outs)
  {
    FoldOutsIsUnion(v, h, outs);
    FoldOutsKeys(h, outs);
  }

  /** What a transaction does to the supply, exactly: it takes in its inputs, repeated ones
      once, and pays out its outputs, less what they replace. */
  lemma SumFoldTx(p: Protocol, v: View, tx: Transaction)
    requires forall i | i in tx.txIns :: Spends(i) in v
    ensures Sum(FoldTx(p, v, tx)) + TotalIn(v, tx.txIns) + Overwritten(v - SpentBy(tx.txIns), TxHash(p, tx), tx.txOuts)
         == Sum(v) + TotalOut(tx.txOuts) + Repeats(v, tx.txIns)
  {
    SumSpent(v, tx.txIns);
    SumFoldOuts(v - SpentBy(tx.txIns), TxHash(p, tx), tx.txOuts);
  }

  /** The value of all coins that a list of transactions replaces, each at its turn. */
  function Lost(p: Protocol, v: View, txs: seq<Transaction>): nat {
    if txs == [] then 0
    else
      var cur, tx := FoldTxs(p, v, txs[..|txs| - 1]), txs[|txs| - 1];
      Lost(p, v, txs[..|txs| - 1]) + Overwritten(cur - SpentBy(tx.txIns), TxHash(p, tx), tx.txOuts)
  }

  lemma LostLast(p: Protocol, v: View, txs: seq<Transaction>, tx: Transaction)
    ensures Lost(p, v, txs + [tx])
         == Lost(p, v, txs) + Overwritten(FoldTxs(p, v, txs) - SpentBy(tx.txIns), TxHash(p, tx), tx.txOuts)
  {
    assert (txs + [tx])[..|txs|] == txs;
  }

  lemma {:induction false} LostConcat(p: Protocol, v: View, a: seq<Transaction>, b: seq<Transaction>)
    ensures Lost(p, v, a + b) == Lost(p, v, a) + Lost(p, FoldTxs(p, v, a), b)
    decreases |b|
  {
    if b == [] {
      assert a + b == a;
    } else {
      var rest, last := b[..|b| - 1], b[|b| - 1];
      assert a + b == (a + rest) + [last] && b == rest + [last];
      LostConcat(p, v, a, rest);
      LostLast(p, v, a + rest, last);
      LostLast(p, FoldTxs(p, v, a), rest, last);
      FoldConcat(p, v, a, rest);
    }
  }

  /** Each transaction creates only fresh outpoints at its turn. */
  ghost predicate AllFresh(p: Protocol, v: View, txs: seq<Transaction>) {
    txs == [] ||
    var cur, tx := FoldTxs(p, v, txs[..|txs| - 1]), txs[|txs| - 1];
    && AllFresh(p, v, txs[..|txs| - 1])
    && Fresh(cur - SpentBy(tx.txIns), TxHash(p, tx), tx.txOuts)
  }

  lemma {:induction false} FreshLosesNothing(p: Protocol, v: View, txs: seq<Transaction>)
    requires AllFresh(p, v, txs)
    ensures Lost(p, v, txs) == 0
  {
    if txs != [] {
      var cur, tx := FoldTxs(p, v, txs[..|txs| - 1]), txs[|txs| - 1];
      FreshLosesNothing(p, v, txs[..|txs| - 1]);
      FreshOverwritesNothing(cur - SpentBy(tx.txIns), TxHash(p, tx), tx.txOuts);
    }
  }

  /** Each transaction of the list spends distinct existing outputs and pays the fee and no
      more, at its turn. */
  ghost predicate Balanced(p: Protocol, v: View, txs: seq<Transaction>) {
    txs == [] ||
    var cur, tx := FoldTxs(p, v, txs[..|txs| - 1]), txs[|txs| - 1];
    && Balanced(p, v, txs[..|txs| - 1])
    && (forall i | i in tx.txIns :: Spends(i) in cur)
    && DistinctInputs(tx.txIns)
    && TotalOut(tx.txOuts) + TX_FEE == TotalIn(cur, tx.txIns)
  }

  /** Balanced transactions burn exactly their fees and what they replace. */
  lemma {:induction false} BalancedSupply(p: Protocol, v: View, txs: seq<Transaction>)
    requires Balanced(p, v, txs)
    ensures Sum(FoldTxs(p, v, txs)) + |txs| * TX_FEE + Lost(p, v, txs) == Sum(v)
  {
    hide Overwritten, Fresh;
    if txs != [] {
      var rest, tx := txs[..|txs| - 1], txs[|txs| - 1];
      BalancedSupply(p, v, rest);
      SumFoldTx(p, FoldTxs(p, v, rest), tx);
      DistinctRepeatNothing(FoldTxs(p, v, rest), tx.txIns);
    }
  }

  // ---------------------------------------------------------------- wrap-around of output sums

  /** How far the output sums of the transactions exceed what their 32 bits show. */
  function Overflow(txs: seq<Transaction>): nat {
    if txs == [] then 0
    else Overflow(txs[..|txs| - 1]) + WrappedAway(TotalOut(txs[|txs| - 1].txOuts))
  }

  function WrappedAway(n: nat): (w: nat)
    ensures w == n - Wrap(n)
  {
    n / TWO32 * TWO32
  }

  lemma {:induction false} NoOverflow(txs: seq<Transaction>)
    requires forall tx | tx in txs :: TotalOut(tx.txOuts) < TWO32
    ensures Overflow(txs) == 0
  {
    if txs != [] {
      NoOverflow(txs[..|txs| - 1]);
    }
  }
}
