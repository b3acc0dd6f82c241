/** The UTXO index (src/node/utxodb.go and `updateUtxoDb` in src/node/miner.go): a
    mutable table with spent flags and eager deletion, against the plain fold "remove
    the spent outpoints, then add the outputs". */
module Utxo {
  import opened Wire
  import opened Transactions

  datatype UtxoOutput = UtxoOutput(spent: bool, pubKeyHash: Bytes, value: U32)

  type Entry = map<U32, UtxoOutput>
  type Entries = map<Bytes, Entry>

  datatype OutPoint = OutPoint(txHash: Bytes, index: U32)

  /** The plain view: what can be spent, and for how much by whom. */
  type View = map<OutPoint, TxOut>

  function Spends(i: TxIn): OutPoint {
    OutPoint(i.prevTxHash, i.prevTxOutIndex)
  }

  function SpentBy(ins: seq<TxIn>): set<OutPoint> {
    set i | i in ins :: Spends(i)
  }

  // ---------------------------------------------------------------- the index

  predicate AllSpent(entry: Entry) {
    forall k | k in entry :: entry[k].spent
  }

  /** One turn of the input loop; `None` is the panic, reached when the entry is missing
      or has no such output. */
  function Spend(e: Entries, i: TxIn): Option<Entries> {
    var h, k := i.prevTxHash, i.prevTxOutIndex;
    if h !in e || k !in e[h] then None
    else
      var entry := e[h][k := e[h][k].(spent := true)];
      Some(if AllSpent(entry) then e - {h} else e[h := entry])
  }

  function SpendAll(e: Entries, ins: seq<TxIn>): Option<Entries> {
    if ins == [] then Some(e)
    else
      match SpendAll(e, ins[..|ins| - 1])
      case None => None
      case Some(e') => Spend(e', ins[|ins| - 1])
  }

  /** One turn of the output loop. */
  function AddOne(e: Entries, h: Bytes, k: nat, o: TxOut): Entries {
    var entry := if h in e then e[h] else map[];
    e[h := entry[Wrap(k) := UtxoOutput(false, o.pubKeyHash, o.value)]]
  }

  function AddAll(e: Entries, h: Bytes, outs: seq<TxOut>): Entries {
    if outs == [] then e
    else AddOne(AddAll(e, h, outs[..|outs| - 1]), h, |outs| - 1, outs[|outs| - 1])
  }

  function ApplyTx(p: Protocol, e: Entries, tx: Transaction): Option<Entries> {
    match SpendAll(e, tx.txIns)
    case None => None
    case Some(e') => Some(AddAll(e', TxHash(p, tx), tx.txOuts))
  }

  function ApplyTxs(p: Protocol, e: Entries, txs: seq<Transaction>): Option<Entries> {
    if txs == [] then Some(e)
    else
      match ApplyTxs(p, e, txs[..|txs| - 1])
      case None => None
      case Some(e') => ApplyTx(p, e', txs[|txs| - 1])
  }

  // ---------------------------------------------------------------- the fold

  function FoldOuts(v: View, h: Bytes, outs: seq<TxOut>): View {
    if outs == [] then v
    else FoldOuts(v, h, outs[..|outs| - 1])[OutPoint(h, Wrap(|outs| - 1)) := outs[|outs| - 1]]
  }

  function FoldTx(p: Protocol, v: View, tx: Transaction): View {
    FoldOuts(v - SpentBy(tx.txIns), TxHash(p, tx), tx.txOuts)
  }

  function FoldTxs(p: Protocol, v: View, txs: seq<Transaction>): View {
    if txs == [] then v
    else FoldTx(p, FoldTxs(p, v, txs[..|txs| - 1]), txs[|txs| - 1])
  }

  lemma {:induction false} FoldLast(p: Protocol, v: View, txs: seq<Transaction>, last: Transaction)
    ensures FoldTxs(p, v, txs + [last]) == FoldTx(p, FoldTxs(p, v, txs), last)
  {
    assert (txs + [last])[..|txs|] == txs;
  }

  lemma {:induction false} FoldConcat(p: Protocol, v: View, a: seq<Transaction>, b: seq<Transaction>)
    ensures FoldTxs(p, v, a + b) == FoldTxs(p, FoldTxs(p, v, a), b)
  {
    if b == [] {
      assert a + b == a;
    } else {
      var rest, last := b[..|b| - 1], b[|b| - 1];
      assert a + b == (a + rest) + [last] && b == rest + [last];
      FoldConcat(p, v, a, rest);
      FoldLast(p, v, a + rest, last);
      FoldLast(p, FoldTxs(p, v, a), rest, last);
    }
  }

  // ---------------------------------------------------------------- refinement

  predicate Unspent(e: Entries, o: OutPoint) {
    o.txHash in e && o.index in e[o.txHash] && !e[o.txHash][o.index].spent
  }

  function Coin(e: Entries, o: OutPoint): TxOut
    requires Unspent(e, o)
  {
    TxOut(e[o.txHash][o.index].value, e[o.txHash][o.index].pubKeyHash)
  }

  /** The unspent view of the index is `v`. */
  ghost predicate Agrees(e: Entries, v: View) {
    && (forall o: OutPoint :: o in v <==> Unspent(e, o))
    && (forall o: OutPoint | o in v :: v[o] == Coin(e, o))
  }

  /** No entry is kept once all of its outputs are spent. */
  ghost predicate Compact(e: Entries) {
    forall h | h in e :: !AllSpent(e[h])
  }

  lemma SpendRefines(e: Entries, v: View, i: TxIn)
    requires Agrees(e, v) && Compact(e) && Spend(e, i).Some?
    ensures Agrees(Spend(e, i).value, v - {Spends(i)}) && Compact(Spend(e, i).value)
  {
    var h, k := i.prevTxHash, i.prevTxOutIndex;
    var entry := e[h][k := e[h][k].(spent := true)];
    var r := Spend(e, i).value;
    forall o: OutPoint
      ensures o in v && o != Spends(i) <==> Unspent(r, o)
    {
      if o.txHash == h && o.index in e[h] && !e[h][o.index].spent {
        assert o in v;
        assert o.index in entry;
      }
    }
  }

  lemma {:induction false} SpendAllRefines(e: Entries, v: View, ins: seq<TxIn>)
    requires Agrees(e, v) && Compact(e) && SpendAll(e, ins).Some?
    ensures Agrees(SpendAll(e, ins).value, v - SpentBy(ins)) && Compact(SpendAll(e, ins).value)
  {
    if ins == [] {
      assert v - SpentBy(ins) == v;
    } else {
      var rest, last := ins[..|ins| - 1], ins[|ins| - 1];
      SpendAllRefines(e, v, rest);
      SpendRefines(SpendAll(e, rest).value, v - SpentBy(rest), last);
      assert SpentBy(ins) == SpentBy(rest) + {Spends(last)} by {
        assert ins == rest + [last];
      }
      assert v - SpentBy(rest) - {Spends(last)} == v - SpentBy(ins);
    }
  }

  lemma AddOneRefines(e: Entries, v: View, h: Bytes, k: nat, o: TxOut)
    requires Agrees(e, v) && Compact(e)
    ensures Agrees(AddOne(e, h, k, o), v[OutPoint(h, Wrap(k)) := o]) && Compact(AddOne(e, h, k, o))
  {
    var r := AddOne(e, h, k, o);
    var entry: Entry, i := r[h], Wrap(k);
    assert !entry[i].spent;
    forall o: OutPoint
      ensures Unspent(r, o) <==> o in v || o == OutPoint(h, i)
    {
    }
  }

  lemma {:induction false} AddAllRefines(e: Entries, v: View, h: Bytes, outs: seq<TxOut>)
    requires Agrees(e, v) && Compact(e)
    ensures Agrees(AddAll(e, h, outs), FoldOuts(v, h, outs)) && Compact(AddAll(e, h, outs))
  {
    if outs != [] {
      var n := |outs| - 1;
      AddAllRefines(e, v, h, outs[..n]);
      AddOneRefines(AddAll(e, h, outs[..n]), FoldOuts(v, h, outs[..n]), h, n, outs[n]);
    }
  }

  lemma ApplyTxRefines(p: Protocol, e: Entries, v: View, tx: Transaction)
    requires Agrees(e, v) && Compact(e) && ApplyTx(p, e, tx).Some?
    ensures Agrees(ApplyTx(p, e, tx).value, FoldTx(p, v, tx)) && Compact(ApplyTx(p, e, tx).value)
  {
    SpendAllRefines(e, v, tx.txIns);
    AddAllRefines(SpendAll(e, tx.txIns).value, v - SpentBy(tx.txIns), TxHash(p, tx), tx.txOuts);
  }

  /** The index refines the fold, whatever the transactions, as long as it did not panic. */
  lemma {:induction false} ApplyTxsRefines(p: Protocol, e: Entries, v: View, txs: seq<Transaction>)
    requires Agrees(e, v) && Compact(e) && ApplyTxs(p, e, txs).Some?
    ensures Agrees(ApplyTxs(p, e, txs).value, FoldTxs(p, v, txs)) && Compact(ApplyTxs(p, e, txs).value)
  {
    if txs != [] {
      var n := |txs| - 1;
      ApplyTxsRefines(p, e, v, txs[..n]);
      ApplyTxRefines(p, ApplyTxs(p, e, txs[..n]).value, FoldTxs(p, v, txs[..n]), txs[n]);
    }
  }

  // ---------------------------------------------------------------- when it panics

  /** Every unspent output of the transaction that `ins[k]` names is already spent by an
      earlier input of the list. */
  ghost predicate Exhausted(e: Entries, ins: seq<TxIn>, k: nat)
    requires k < |ins|
  {
    forall o: OutPoint | Unspent(e, o) && o.txHash == ins[k].prevTxHash :: o in SpentBy(ins[..k])
  }

  /** As long as an entry survives it keeps its output numbers. */
  ghost predicate KeepsNumbers(e: Entries, e': Entries) {
    forall h | h in e' :: h in e && e'[h].Keys == e[h].Keys
  }

  lemma {:induction false} SpendAllKeepsNumbers(e: Entries, ins: seq<TxIn>)
    requires SpendAll(e, ins).Some?
    ensures KeepsNumbers(e, SpendAll(e, ins).value)
  {
    if ins != [] {
      SpendAllKeepsNumbers(e, ins[..|ins| - 1]);
    }
  }

  /** For inputs that all passed the unspent check, the panic is reached exactly when some
      input comes after every unspent output of its transaction has been used up. */
  lemma {:induction false} PanicExactly(e: Entries, v: View, ins: seq<TxIn>)
    requires Agrees(e, v) && Compact(e)
    requires forall i | i in ins :: Unspent(e, Spends(i))
    ensures SpendAll(e, ins).None? <==> exists k | 0 <= k < |ins| :: Exhausted(e, ins, k)
  {
    if ins != [] {
      var n := |ins| - 1;
      var rest := ins[..n];
      PanicExactly(e, v, rest);
      forall k | 0 <= k < n
        ensures Exhausted(e, rest, k) <==> Exhausted(e, ins, k)
      {
        assert rest[..k] == ins[..k];
      }
      if SpendAll(e, rest).Some? {
        LastSpendPanics(e, v, ins);
      } else {
        var k :| 0 <= k < n && Exhausted(e, rest, k);
        assert Exhausted(e, ins, k);
      }
    }
  }

  lemma LastSpendPanics(e: Entries, v: View, ins: seq<TxIn>)
    requires Agrees(e, v) && Compact(e) && ins != []
    requires Unspent(e, Spends(ins[|ins| - 1]))
    requires SpendAll(e, ins[..|ins| - 1]).Some?
    ensures SpendAll(e, ins).None? <==> Exhausted(e, ins, |ins| - 1)
  {
    var rest, last := ins[..|ins| - 1], ins[|ins| - 1];
    var e', h := SpendAll(e, rest).value, last.prevTxHash;
    SpendAllRefines(e, v, rest);
    SpendAllKeepsNumbers(e, rest);
    if h in e' {
      var entry: Entry := e'[h];
      var k :| k in entry && !entry[k].spent;
      assert Unspent(e', OutPoint(h, k));
      assert OutPoint(h, k) in v - SpentBy(rest);
    } else {
      forall o: OutPoint | Unspent(e, o) && o.txHash == h
        ensures o in SpentBy(rest)
      {
        assert o in v && !Unspent(e', o);
      }
    }
  }

  // ---------------------------------------------------------------- a block at a time

  function Inputs(txs: seq<Transaction>): seq<TxIn> {
    if txs == [] then [] else Inputs(txs[..|txs| - 1]) + txs[|txs| - 1].txIns
  }

  ghost predicate DistinctInputs(ins: seq<TxIn>) {
    forall j, k | 0 <= j < k < |ins| :: Spends(ins[j]) != Spends(ins[k])
  }

  lemma {:induction false} FoldOutsKeeps(v: View, h: Bytes, outs: seq<TxOut>)
    ensures v.Keys <= FoldOuts(v, h, outs).Keys
  {
    if outs != [] {
      FoldOutsKeeps(v, h, outs[..|outs| - 1]);
    }
  }

  /** An outpoint that no transaction of the list spends stays spendable. */
  lemma {:induction false} FoldKeepsOthers(p: Protocol, v: View, txs: seq<Transaction>, o: OutPoint)
    requires o in v && o !in SpentBy(Inputs(txs))
    ensures o in FoldTxs(p, v, txs)
  {
    if txs != [] {
      var rest, last := txs[..|txs| - 1], txs[|txs| - 1];
      assert o !in SpentBy(Inputs(rest)) && o !in SpentBy(last.txIns) by {
        assert forall i | i in Inputs(rest) || i in last.txIns :: i in Inputs(txs);
      }
      FoldKeepsOthers(p, v, rest, o);
      FoldOutsKeeps(FoldTxs(p, v, rest) - SpentBy(last.txIns), TxHash(p, last), last.txOuts);
    }
  }

  /** Distinct inputs that are all unspent never exhaust an entry. */
  lemma {:induction false} DistinctSpendsSucceed(e: Entries, v: View, ins: seq<TxIn>)
    requires Agrees(e, v) && Compact(e) && DistinctInputs(ins)
    requires forall i | i in ins :: Spends(i) in v
    ensures SpendAll(e, ins).Some?
  {
    PanicExactly(e, v, ins);
    forall k | 0 <= k < |ins|
      ensures !Exhausted(e, ins, k)
    {
      assert Unspent(e, Spends(ins[k]));
      assert Spends(ins[k]) !in SpentBy(ins[..k]);
    }
  }

  /** Transactions validated against the state before the block, with pairwise distinct
      inputs across the block, are applied without reaching the panic. */
  lemma {:induction false} DistinctBlockSucceeds(p: Protocol, e: Entries, v: View, txs: seq<Transaction>)
    requires Agrees(e, v) && Compact(e) && DistinctInputs(Inputs(txs))
    requires forall i | i in Inputs(txs) :: Spends(i) in v
    ensures ApplyTxs(p, e, txs).Some?
  {
    if txs != [] {
      var rest, last := txs[..|txs| - 1], txs[|txs| - 1];
      SplitInputs(txs);
      DistinctBlockSucceeds(p, e, v, rest);
      ApplyTxsRefines(p, e, v, rest);
      forall i | i in last.txIns
        ensures Spends(i) in FoldTxs(p, v, rest)
      {
        assert i in Inputs(txs);
        FoldKeepsOthers(p, v, rest, Spends(i));
      }
      DistinctSpendsSucceed(ApplyTxs(p, e, rest).value, FoldTxs(p, v, rest), last.txIns);
    }
  }

  lemma {:induction false} SplitInputs(txs: seq<Transaction>)
    requires txs != [] && DistinctInputs(Inputs(txs))
    ensures DistinctInputs(Inputs(txs[..|txs| - 1])) && DistinctInputs(txs[|txs| - 1].txIns)
    ensures SpentBy(Inputs(txs[..|txs| - 1])) !! SpentBy(txs[|txs| - 1].txIns)
  {
    var all, a, b := Inputs(txs), Inputs(txs[..|txs| - 1]), txs[|txs| - 1].txIns;
    assert all == a + b;
    assert forall k | 0 <= k < |a| :: all[k] == a[k];
    forall j, k | 0 <= j < k < |b|
      ensures Spends(b[j]) != Spends(b[k])
    {
      assert all[|a| + j] == b[j] && all[|a| + k] == b[k];
    }
    forall j, k | 0 <= j < |a| && 0 <= k < |b|
      ensures Spends(a[j]) != Spends(b[k])
    {
      assert all[j] == a[j] && all[|a| + k] == b[k];
    }
  }

  // ---------------------------------------------------------------- when a block panics

  lemma {:induction false} SpendAllConcat(e: Entries, a: seq<TxIn>, b: seq<TxIn>)
    ensures SpendAll(e, a + b) == if SpendAll(e, a).None? then None else SpendAll(SpendAll(e, a).value, b)
    decreases |b|
  {
    hide Spend;
    if b == [] {
      assert a + b == a;
    } else {
      var rest := b[..|b| - 1];
      assert (a + b)[..|a + b| - 1] == a + rest;
      SpendAllConcat(e, a, rest);
    }
  }

  /** The transactions that a list of inputs spends from. */
  function SpentFrom(ins: seq<TxIn>): set<Bytes> {
    set i | i in ins :: i.prevTxHash
  }

  /** Two indices with the same entries under the given hashes. */
  ghost predicate SameOn(a: Entries, b: Entries, hs: set<Bytes>) {
    forall h | h in hs :: (h in a <==> h in b) && (h in a ==> a[h] == b[h])
  }

  lemma {:induction false} SpendAllSameOn(a: Entries, b: Entries, hs: set<Bytes>, ins: seq<TxIn>)
    requires SameOn(a, b, hs) && SpentFrom(ins) <= hs
    ensures SpendAll(a, ins).Some? <==> SpendAll(b, ins).Some?
    ensures SpendAll(a, ins).Some? ==> SameOn(SpendAll(a, ins).value, SpendAll(b, ins).value, hs)
  {
    if ins != [] {
      var rest, last := ins[..|ins| - 1], ins[|ins| - 1];
      assert SpentFrom(rest) <= hs && last.prevTxHash in hs by {
        assert forall i | i in rest || i == last :: i in ins && i.prevTxHash in SpentFrom(ins);
      }
      SpendAllSameOn(a, b, hs, rest);
    }
  }

  lemma {:induction false} AddAllElsewhere(e: Entries, h: Bytes, outs: seq<TxOut>, hs: set<Bytes>)
    requires h !in hs
    ensures SameOn(e, AddAll(e, h, outs), hs)
  {
    if outs != [] {
      AddAllElsewhere(e, h, outs[..|outs| - 1], hs);
    }
  }

  /** Entering transactions that file nothing under the hashes in question amounts, under
      those hashes, to spending all their inputs in a row. */
  lemma {:induction false} ApplyIsSpend(p: Protocol, e: Entries, txs: seq<Transaction>, hs: set<Bytes>)
    requires SpentFrom(Inputs(txs)) <= hs && forall tx | tx in txs :: TxHash(p, tx) !in hs
    ensures ApplyTxs(p, e, txs).Some? <==> SpendAll(e, Inputs(txs)).Some?
    ensures ApplyTxs(p, e, txs).Some? ==> SameOn(ApplyTxs(p, e, txs).value, SpendAll(e, Inputs(txs)).value, hs)
  {
    hide TxHash, SpendAll, AddAll, SameOn;
    if txs == [] {
      NothingSpent(e, hs);
    } else {
      var rest, last := txs[..|txs| - 1], txs[|txs| - 1];
      SpentFromSplit(txs);
      ApplyIsSpend(p, e, rest, hs);
      LastIsSpend(p, e, txs, hs);
      if ApplyTxs(p, e, txs).Some? {
        var spent := SpendAll(ApplyTxs(p, e, rest).value, last.txIns).value;
        AddAllElsewhere(spent, TxHash(p, last), last.txOuts, hs);
        SameOnTrans(spent, ApplyTxs(p, e, txs).value, SpendAll(e, Inputs(txs)).value, hs);
      }
    }
  }

  lemma NothingSpent(e: Entries, hs: set<Bytes>)
    ensures SpendAll(e, []) == Some(e) && SameOn(e, e, hs)
  {
  }

  lemma SameOnTrans(a: Entries, b: Entries, c: Entries, hs: set<Bytes>)
    requires SameOn(a, b, hs) && SameOn(a, c, hs)
    ensures SameOn(b, c, hs)
  {
  }

  lemma SpentFromSplit(txs: seq<Transaction>)
    requires txs != []
    ensures SpentFrom(Inputs(txs)) == SpentFrom(Inputs(txs[..|txs| - 1])) + SpentFrom(txs[|txs| - 1].txIns)
  {
    var a, b := Inputs(txs[..|txs| - 1]), txs[|txs| - 1].txIns;
    assert Inputs(txs) == a + b;
    assert forall i :: i in a + b <==> i in a || i in b;
  }

  /** The last transaction's own outputs come too late to matter. */
  lemma LastIsSpend(p: Protocol, e: Entries, txs: seq<Transaction>, hs: set<Bytes>)
    requires txs != [] && SpentFrom(txs[|txs| - 1].txIns) <= hs
    requires var rest := txs[..|txs| - 1];
      && (ApplyTxs(p, e, rest).Some? <==> SpendAll(e, Inputs(rest)).Some?)
      && (ApplyTxs(p, e, rest).Some? ==> SameOn(ApplyTxs(p, e, rest).value, SpendAll(e, Inputs(rest)).value, hs))
    ensures ApplyTxs(p, e, txs).Some? <==> SpendAll(e, Inputs(txs)).Some?
    ensures ApplyTxs(p, e, txs).Some? ==>
      var mid := ApplyTxs(p, e, txs[..|txs| - 1]);
      && mid.Some? && SpendAll(mid.value, txs[|txs| - 1].txIns).Some?
      && SameOn(SpendAll(mid.value, txs[|txs| - 1].txIns).value, SpendAll(e, Inputs(txs)).value, hs)
  {
    hide SpendAll, AddAll, SameOn, TxHash;
    var rest, last := txs[..|txs| - 1], txs[|txs| - 1];
    SpendAllConcat(e, Inputs(rest), last.txIns);
    if ApplyTxs(p, e, rest).Some? {
      SpendAllSameOn(ApplyTxs(p, e, rest).value, SpendAll(e, Inputs(rest)).value, hs, last.txIns);
    }
  }

  /** No transaction but the last files outputs under a hash that the list spends from. */
  ghost predicate NoneRefilled(p: Protocol, txs: seq<Transaction>) {
    forall k | 0 <= k < |txs| - 1 :: TxHash(p, txs[k]) !in SpentFrom(Inputs(txs))
  }

  /** Such a block, with inputs that are all unspent before it, panics exactly when some
      input comes after every unspent output of its transaction has been used up, by the
      same or by another transaction of the block. */
  lemma PlainBlockPanics(p: Protocol, e: Entries, v: View, txs: seq<Transaction>)
    requires Agrees(e, v) && Compact(e) && NoneRefilled(p, txs)
    requires forall i | i in Inputs(txs) :: Unspent(e, Spends(i))
    ensures ApplyTxs(p, e, txs).None? <==> exists k | 0 <= k < |Inputs(txs)| :: Exhausted(e, Inputs(txs), k)
  {
    hide ApplyTxs, SpendAll, TxHash, Agrees, Compact, SpentFrom;
    PanicExactly(e, v, Inputs(txs));
    var hs := SpentFrom(Inputs(txs));
    if txs == [] {
      ApplyIsSpend(p, e, txs, hs);
    } else {
      SpentFromSplit(txs);
      ApplyIsSpend(p, e, txs[..|txs| - 1], hs);
      LastIsSpend(p, e, txs, hs);
    }
  }
}
