/** The miner collects transactions by iterating over a Go map, in no particular order.
    For transactions validated against the state before the block it does not matter. */
module BlockOrder {
  import opened Wire
  import opened Transactions
  import opened Utxo
  import opened Supply

  /** Every input exists before the block, and nothing created by the block does. */
  ghost predicate Independent(p: Protocol, v: View, txs: seq<Transaction>) {
    && (forall i | i in Inputs(txs) :: Spends(i) in v)
    && (forall tx | tx in txs :: New(p, tx).Keys !! v.Keys)
  }

  /** Different transactions of the list have different hashes. */
  ghost predicate DistinctHashes(p: Protocol, txs: seq<Transaction>) {
    forall a, b | a in txs && b in txs && TxHash(p, a) == TxHash(p, b) :: a == b
  }

  /** The sequential fold collapses to one removal and one addition. */
  lemma {:induction false} FoldClosed(p: Protocol, v: View, txs: seq<Transaction>)
    requires Independent(p, v, txs)
    ensures FoldTxs(p, v, txs) == (v - SpentBy(Inputs(txs))) + Made(p, txs)
    ensures Made(p, txs).Keys !! v.Keys
  {
    if txs == [] {
      assert v - SpentBy(Inputs(txs)) == v && v + map[] == v;
    } else {
      var rest, last := txs[..|txs| - 1], txs[|txs| - 1];
      assert forall i | i in Inputs(rest) || i in last.txIns :: i in Inputs(txs);
      FoldClosed(p, v, rest);
      FoldOutsIsUnion(FoldTxs(p, v, rest) - SpentBy(last.txIns), TxHash(p, last), last.txOuts);
      SpentBySplit(txs);
      Regroup(v, SpentBy(Inputs(rest)), Made(p, rest), SpentBy(last.txIns), New(p, last));
    }
  }

  lemma Regroup(v: View, a: set<OutPoint>, made: View, b: set<OutPoint>, new': View)
    requires made.Keys !! v.Keys && b <= v.Keys
    ensures ((v - a) + made) - b + new' == (v - (a + b)) + (made + new')
  {
  }

  lemma {:induction false} InputsMember(txs: seq<Transaction>, i: TxIn)
    ensures i in Inputs(txs) <==> exists tx :: tx in txs && i in tx.txIns
  {
    if txs != [] {
      var rest, last := txs[..|txs| - 1], txs[|txs| - 1];
      InputsMember(rest, i);
      assert txs == rest + [last];
    }
  }

  lemma {:induction false} NewKeys(h: Bytes, outs: seq<TxOut>)
    ensures forall o | o in FoldOuts(map[], h, outs) :: o.txHash == h
  {
    if outs != [] {
      NewKeys(h, outs[..|outs| - 1]);
    }
  }

  /** What a list makes is what its members make, taken one by one. */
  lemma {:induction false} MadeMember(p: Protocol, txs: seq<Transaction>, o: OutPoint)
    requires DistinctHashes(p, txs)
    ensures o in Made(p, txs) <==> exists tx :: tx in txs && o in New(p, tx)
    ensures forall tx | tx in txs && o in New(p, tx) :: o in Made(p, txs) && Made(p, txs)[o] == New(p, tx)[o]
  {
    if txs != [] {
      var rest, last := txs[..|txs| - 1], txs[|txs| - 1];
      assert txs == rest + [last];
      MadeMember(p, rest, o);
      forall tx | tx in txs && o in New(p, tx)
        ensures o in Made(p, txs) && Made(p, txs)[o] == New(p, tx)[o]
      {
        NewKeys(TxHash(p, tx), tx.txOuts);
        NewKeys(TxHash(p, last), last.txOuts);
      }
    }
  }

  ghost predicate SameMembers(a: seq<Transaction>, b: seq<Transaction>) {
    forall tx :: tx in a <==> tx in b
  }

  lemma PermutationMembers(a: seq<Transaction>, b: seq<Transaction>)
    requires multiset(a) == multiset(b)
    ensures SameMembers(a, b)
  {
    forall tx
      ensures tx in a <==> tx in b
    {
      assert tx in a <==> tx in multiset(a);
      assert tx in b <==> tx in multiset(b);
    }
  }

  lemma MadeSame(p: Protocol, a: seq<Transaction>, b: seq<Transaction>)
    requires SameMembers(a, b) && DistinctHashes(p, a)
    ensures Made(p, a) == Made(p, b)
  {
    forall o: OutPoint
      ensures o in Made(p, a) <==> o in Made(p, b)
      ensures o in Made(p, a) ==> Made(p, a)[o] == Made(p, b)[o]
    {
      MadeMember(p, a, o);
      MadeMember(p, b, o);
    }
  }

  lemma SpentSame(a: seq<Transaction>, b: seq<Transaction>)
    requires SameMembers(a, b)
    ensures SpentBy(Inputs(a)) == SpentBy(Inputs(b))
    ensures forall i :: i in Inputs(a) <==> i in Inputs(b)
  {
    forall i
      ensures i in Inputs(a) <==> i in Inputs(b)
    {
      InputsMember(a, i);
      InputsMember(b, i);
    }
  }

  /** Any two orders of the same transactions leave the same view. */
  lemma OrderIrrelevant(p: Protocol, v: View, a: seq<Transaction>, b: seq<Transaction>)
    requires multiset(a) == multiset(b)
    requires Independent(p, v, a) && DistinctHashes(p, a)
    ensures FoldTxs(p, v, a) == FoldTxs(p, v, b)
  {
    PermutationMembers(a, b);
    SpentSame(a, b);
    MadeSame(p, a, b);
    FoldClosed(p, v, a);
    FoldClosed(p, v, b);
  }

  // ---------------------------------------------------------------- distinct inputs

  /** The outpoints a list spends, counted. */
  function InputBag(ins: seq<TxIn>): multiset<OutPoint> {
    if ins == [] then multiset{} else InputBag(ins[..|ins| - 1]) + multiset{Spends(ins[|ins| - 1])}
  }

  lemma {:induction false} InputBagMember(ins: seq<TxIn>, o: OutPoint)
    ensures o in InputBag(ins) <==> o in SpentBy(ins)
  {
    if ins != [] {
      var rest, last := ins[..|ins| - 1], ins[|ins| - 1];
      InputBagMember(rest, o);
      assert ins == rest + [last];
    }
  }

  lemma {:induction false} DistinctIsCountedOnce(ins: seq<TxIn>)
    ensures DistinctInputs(ins) <==> forall o: OutPoint :: InputBag(ins)[o] <= 1
  {
    if ins != [] {
      var n := |ins| - 1;
      var rest, s := ins[..n], Spends(ins[n]);
      DistinctIsCountedOnce(rest);
      InputBagMember(rest, s);
      assert InputBag(ins) == InputBag(rest) + multiset{s};
      if DistinctInputs(ins) {
        assert s !in SpentBy(rest);
        assert DistinctInputs(rest);
      } else {
        NotDistinct(ins);
        if DistinctInputs(rest) {
          assert InputBag(ins)[s] > 1;
        } else {
          var o :| InputBag(rest)[o] > 1;
          assert InputBag(ins)[o] > 1;
        }
      }
    }
  }

  lemma NotDistinct(ins: seq<TxIn>)
    requires ins != [] && !DistinctInputs(ins)
    ensures !DistinctInputs(ins[..|ins| - 1]) || Spends(ins[|ins| - 1]) in SpentBy(ins[..|ins| - 1])
  {
    var rest := ins[..|ins| - 1];
    var j, k :| 0 <= j < k < |ins| && Spends(ins[j]) == Spends(ins[k]);
    assert rest[j] in rest;
    if k < |ins| - 1 {
      assert Spends(rest[j]) == Spends(rest[k]);
    }
  }

  lemma {:induction false} InputBagConcat(a: seq<TxIn>, b: seq<TxIn>)
    ensures InputBag(a + b) == InputBag(a) + InputBag(b)
  {
    if b == [] {
      assert a + b == a;
    } else {
      assert (a + b)[..|a + b| - 1] == a + b[..|b| - 1];
      InputBagConcat(a, b[..|b| - 1]);
    }
  }

  lemma {:induction false} InputsConcat(a: seq<Transaction>, b: seq<Transaction>)
    ensures Inputs(a + b) == Inputs(a) + Inputs(b)
  {
    if b == [] {
      assert a + b == a;
    } else {
      assert (a + b)[..|a + b| - 1] == a + b[..|b| - 1];
      InputsConcat(a, b[..|b| - 1]);
    }
  }

  /** Moving one transaction to the end keeps the counted inputs. */
  lemma BagMoveLast(u: seq<Transaction>, tx: Transaction, w: seq<Transaction>)
    ensures InputBag(Inputs(u + [tx] + w)) == InputBag(Inputs(u + w)) + InputBag(tx.txIns)
  {
    hide Inputs, InputBag;
    InputsOfOne(tx);
    InputsConcat(u + [tx], w);
    InputsConcat(u, [tx]);
    InputsConcat(u, w);
    InputBagConcat(Inputs(u) + tx.txIns, Inputs(w));
    InputBagConcat(Inputs(u), tx.txIns);
    InputBagConcat(Inputs(u), Inputs(w));
  }

  lemma InputsOfOne(tx: Transaction)
    ensures Inputs([tx]) == tx.txIns
  {
    assert [tx][..0] == [];
  }

  lemma {:induction false} BagPermutation(a: seq<Transaction>, b: seq<Transaction>)
    requires multiset(a) == multiset(b)
    ensures InputBag(Inputs(a)) == InputBag(Inputs(b))
    decreases |a|
  {
    hide Inputs, InputBag;
    if a == [] {
      assert |multiset(b)| == |b|;
    } else {
      var rest, last := a[..|a| - 1], a[|a| - 1];
      var u, w := TakeOut(a, b);
      BagPermutation(rest, u + w);
      BagMoveLast(u, last, w);
      BagMoveLast(rest, last, []);
      assert rest + [last] + [] == a && rest + [] == rest;
    }
  }

  /** The last element of one order, found in the other. */
  lemma TakeOut<T>(a: seq<T>, b: seq<T>) returns (u: seq<T>, w: seq<T>)
    requires a != [] && multiset(a) == multiset(b)
    ensures b == u + [a[|a| - 1]] + w
    ensures multiset(a[..|a| - 1]) == multiset(u + w)
  {
    var rest, last := a[..|a| - 1], a[|a| - 1];
    assert a == rest + [last];
    assert last in multiset(b);
    var k :| 0 <= k < |b| && b[k] == last;
    u, w := b[..k], b[k + 1..];
    assert b == u + [last] + w;
    BagOfThree(u, last, w);
    BagOfThree(rest, last, []);
    assert rest + [last] + [] == a && rest + [] == rest;
  }

  lemma BagOfThree<T>(u: seq<T>, x: T, w: seq<T>)
    ensures multiset(u + w) == multiset(u + [x] + w) - multiset{x}
  {
    assert multiset(u + [x] + w) == multiset(u) + multiset{x} + multiset(w);
  }

  /** The same on the index itself: if one order has distinct inputs, every order runs
      without a panic and leaves the same unspent view. */
  lemma IndexOrderIrrelevant(p: Protocol, e: Entries, v: View, a: seq<Transaction>, b: seq<Transaction>)
    requires multiset(a) == multiset(b)
    requires Agrees(e, v) && Compact(e)
    requires Independent(p, v, a) && DistinctHashes(p, a) && DistinctInputs(Inputs(a))
    ensures ApplyTxs(p, e, a).Some? && ApplyTxs(p, e, b).Some?
    ensures Agrees(ApplyTxs(p, e, a).value, FoldTxs(p, v, a)) && Agrees(ApplyTxs(p, e, b).value, FoldTxs(p, v, a))
  {
    OrderIrrelevant(p, v, a, b);
    BagPermutation(a, b);
    DistinctIsCountedOnce(Inputs(a));
    DistinctIsCountedOnce(Inputs(b));
    PermutationMembers(a, b);
    SpentSame(a, b);
    DistinctBlockSucceeds(p, e, v, a);
    DistinctBlockSucceeds(p, e, v, b);
    ApplyTxsRefines(p, e, v, a);
    ApplyTxsRefines(p, e, v, b);
  }
}
