/** When entering a whole block into the index panics, whatever its transactions are: the
    single spendings and filings of a block, in order, on the index and on the plain view
    (`updateUtxoDb` in src/node/miner.go, called in a loop). */
module BlockPanics {
  import opened Wire
  import opened Transactions
  import opened Utxo

  // ---------------------------------------------------------------- single operations

  datatype Op = Spending(i: TxIn) | Filing(h: Bytes, outs: seq<TxOut>)

  /** What a list of transactions does to the index, operation by operation. */
  function Ops(p: Protocol, txs: seq<Transaction>): seq<Op> {
    if txs == [] then []
    else
      var last := txs[|txs| - 1];
      Ops(p, txs[..|txs| - 1]) + Spendings(last.txIns) + [Filing(TxHash(p, last), last.txOuts)]
  }

  function Spendings(ins: seq<TxIn>): seq<Op> {
    if ins == [] then [] else Spendings(ins[..|ins| - 1]) + [Spending(ins[|ins| - 1])]
  }

  function DoOp(e: Entries, op: Op): Option<Entries> {
    match op
    case Spending(i) => Spend(e, i)
    case Filing(h, outs) => Some(AddAll(e, h, outs))
  }

  function DoOps(e: Entries, ops: seq<Op>): Option<Entries> {
    if ops == [] then Some(e)
    else
      match DoOps(e, ops[..|ops| - 1])
      case None => None
      case Some(e') => DoOp(e', ops[|ops| - 1])
  }

  function SeeOp(v: View, op: Op): View {
    match op
    case Spending(i) => v - {Spends(i)}
    case Filing(h, outs) => FoldOuts(v, h, outs)
  }

  function SeeOps(v: View, ops: seq<Op>): View {
    if ops == [] then v else SeeOp(SeeOps(v, ops[..|ops| - 1]), ops[|ops| - 1])
  }

  lemma {:induction false} DoOpsConcat(e: Entries, a: seq<Op>, b: seq<Op>)
    ensures DoOps(e, a + b) == if DoOps(e, a).None? then None else DoOps(DoOps(e, a).value, b)
    decreases |b|
  {
    hide DoOp;
    if b == [] {
      assert a + b == a;
    } else {
      var rest := b[..|b| - 1];
      assert (a + b)[..|a + b| - 1] == a + rest;
      DoOpsConcat(e, a, rest);
    }
  }

  lemma {:induction false} SeeOpsConcat(v: View, a: seq<Op>, b: seq<Op>)
    ensures SeeOps(v, a + b) == SeeOps(SeeOps(v, a), b)
    decreases |b|
  {
    hide SeeOp;
    if b == [] {
      assert a + b == a;
    } else {
      var rest := b[..|b| - 1];
      assert (a + b)[..|a + b| - 1] == a + rest;
      SeeOpsConcat(v, a, rest);
    }
  }

  lemma {:induction false} SpendAllIsOps(e: Entries, v: View, ins: seq<TxIn>)
    ensures DoOps(e, Spendings(ins)) == SpendAll(e, ins) && SeeOps(v, Spendings(ins)) == v - SpentBy(ins)
  {
    hide Spend, DoOps, SeeOps, SpentBy;
    if ins == [] {
      NoOps(e, v);
      MinusSpent(v, ins);
    } else {
      var rest, last := ins[..|ins| - 1], ins[|ins| - 1];
      SpendAllIsOps(e, v, rest);
      LastOp(e, v, Spendings(rest), Spending(last));
      MinusSpent(v, ins);
    }
  }

  lemma MinusSpent(v: View, ins: seq<TxIn>)
    ensures ins == [] ==> v - SpentBy(ins) == v
    ensures ins != [] ==> v - SpentBy(ins[..|ins| - 1]) - {Spends(ins[|ins| - 1])} == v - SpentBy(ins)
  {
    if ins != [] {
      var rest, last := ins[..|ins| - 1], ins[|ins| - 1];
      assert ins == rest + [last];
      assert SpentBy(ins) == SpentBy(rest) + {Spends(last)};
    }
  }

  lemma LastOp(e: Entries, v: View, ops: seq<Op>, op: Op)
    ensures DoOps(e, ops + [op]) == if DoOps(e, ops).None? then None else DoOp(DoOps(e, ops).value, op)
    ensures SeeOps(v, ops + [op]) == SeeOp(SeeOps(v, ops), op)
  {
    assert (ops + [op])[..|ops|] == ops;
  }

  /** Entering transactions, and folding them, is doing their operations in order. */
  lemma {:induction false} ApplyIsOps(p: Protocol, e: Entries, v: View, txs: seq<Transaction>)
    ensures ApplyTxs(p, e, txs) == DoOps(e, Ops(p, txs))
    ensures FoldTxs(p, v, txs) == SeeOps(v, Ops(p, txs))
  {
    hide TxHash, DoOps, SeeOps, SpendAll, AddAll, FoldOuts, Spendings;
    if txs == [] {
      NoOps(e, v);
    } else {
      var rest, last := txs[..|txs| - 1], txs[|txs| - 1];
      var ops, ins := Ops(p, rest), Spendings(last.txIns);
      ApplyIsOps(p, e, v, rest);
      DoOpsConcat(e, ops, ins);
      SeeOpsConcat(v, ops, ins);
      LastOp(e, v, ops + ins, Filing(TxHash(p, last), last.txOuts));
      SpendAllIsOps(if DoOps(e, ops).Some? then DoOps(e, ops).value else e, SeeOps(v, ops), last.txIns);
    }
  }

  lemma NoOps(e: Entries, v: View)
    ensures DoOps(e, []) == Some(e) && SeeOps(v, []) == v
  {
  }

  // ---------------------------------------------------------------- lost numbers

  /** Nothing of transaction `h` is unspent. */
  ghost predicate Gone(v: View, h: Bytes) {
    forall o: OutPoint | o in v :: o.txHash != h
  }

  predicate Files(op: Op, h: Bytes, k: U32) {
    op.Filing? && op.h == h && k < |op.outs|
  }

  /** Before operation `n`, transaction `h` was once without unspent outputs, and nobody
      has filed its output number `k` since. */
  ghost predicate Lost(v: View, ops: seq<Op>, n: nat, h: Bytes, k: U32)
    requires n <= |ops|
  {
    exists m :: 0 <= m <= n && LostSince(v, ops, m, n, h, k)
  }

  ghost predicate LostSince(v: View, ops: seq<Op>, m: nat, n: nat, h: Bytes, k: U32)
    requires m <= n <= |ops|
  {
    Gone(SeeOps(v, ops[..m]), h) && forall j | m <= j < n :: !Files(ops[j], h, k)
  }

  lemma LostStep(v: View, ops: seq<Op>, n: nat, h: Bytes, k: U32)
    requires n < |ops|
    ensures Lost(v, ops, n + 1, h, k) <==>
            (Lost(v, ops, n, h, k) && !Files(ops[n], h, k)) || Gone(SeeOps(v, ops[..n + 1]), h)
  {
    hide Gone, SeeOps, Files;
    if Lost(v, ops, n, h, k) && !Files(ops[n], h, k) {
      var m :| 0 <= m <= n && LostSince(v, ops, m, n, h, k);
      assert LostSince(v, ops, m, n + 1, h, k);
    }
    if Gone(SeeOps(v, ops[..n + 1]), h) {
      assert LostSince(v, ops, n + 1, n + 1, h, k);
    }
    if Lost(v, ops, n + 1, h, k) {
      var m :| 0 <= m <= n + 1 && LostSince(v, ops, m, n + 1, h, k);
      if m <= n {
        assert LostSince(v, ops, m, n, h, k);
      }
    }
  }

  predicate Present(e: Entries, h: Bytes, k: U32) {
    h in e && k in e[h]
  }

  /** A compact index has an entry exactly for what is not gone. */
  lemma EntryOrGone(e: Entries, v: View, h: Bytes)
    requires Agrees(e, v) && Compact(e)
    ensures h in e <==> !Gone(v, h)
  {
    if h in e {
      var entry: Entry := e[h];
      var k :| k in entry && !entry[k].spent;
      assert Unspent(e, OutPoint(h, k));
    }
  }

  lemma {:induction false} AddAllPresent(e: Entries, h: Bytes, outs: seq<TxOut>, g: Bytes, k: U32)
    ensures Present(AddAll(e, h, outs), g, k) <==> Present(e, g, k) || Files(Filing(h, outs), g, k)
  {
    if outs != [] {
      var n := |outs| - 1;
      AddAllPresent(e, h, outs[..n], g, k);
      assert n < TWO32 ==> Wrap(n) == n;
    }
  }

  lemma OpRefines(e: Entries, v: View, op: Op)
    requires Agrees(e, v) && Compact(e) && DoOp(e, op).Some?
    ensures Agrees(DoOp(e, op).value, SeeOp(v, op)) && Compact(DoOp(e, op).value)
  {
    hide Agrees, Compact, Spend, AddAll, FoldOuts;
    match op
    case Spending(i) => SpendRefines(e, v, i);
    case Filing(h, outs) => AddAllRefines(e, v, h, outs);
  }

  lemma OpPresent(e: Entries, v: View, op: Op, h: Bytes, k: U32)
    requires Agrees(e, v) && Compact(e) && DoOp(e, op).Some?
    ensures Present(DoOp(e, op).value, h, k) <==> (Present(e, h, k) || Files(op, h, k)) && !Gone(SeeOp(v, op), h)
  {
    hide Agrees, Compact, Gone, AddAll, FoldOuts, SeeOp;
    OpRefines(e, v, op);
    EntryOrGone(DoOp(e, op).value, SeeOp(v, op), h);
    match op
    case Spending(i) =>
    case Filing(g, outs) => AddAllPresent(e, g, outs, h, k);
  }

  lemma {:induction false} OpsRefine(e: Entries, v: View, ops: seq<Op>)
    requires Agrees(e, v) && Compact(e) && DoOps(e, ops).Some?
    ensures Agrees(DoOps(e, ops).value, SeeOps(v, ops)) && Compact(DoOps(e, ops).value)
  {
    hide Agrees, Compact, DoOp, SeeOp;
    if ops != [] {
      var n := |ops| - 1;
      OpsRefine(e, v, ops[..n]);
      OpRefines(DoOps(e, ops[..n]).value, SeeOps(v, ops[..n]), ops[n]);
    }
  }

  /** A number that was there at the start is there later exactly when it is not lost. */
  lemma {:induction false} PresentUnlessLost(e: Entries, v: View, ops: seq<Op>, n: nat, h: Bytes, k: U32)
    requires Agrees(e, v) && Compact(e) && Present(e, h, k)
    requires n <= |ops| && DoOps(e, ops[..n]).Some?
    ensures Present(DoOps(e, ops[..n]).value, h, k) <==> !Lost(v, ops, n, h, k)
  {
    hide Agrees, Compact, DoOp, SeeOp, Gone, Files, Lost, Present;
    if n == 0 {
      NotLostYet(e, v, ops, h, k);
    } else {
      var before := ops[..n - 1];
      assert ops[..n] == before + [ops[n - 1]];
      LastOp(e, v, before, ops[n - 1]);
      PresentUnlessLost(e, v, ops, n - 1, h, k);
      LostStep(v, ops, n - 1, h, k);
      OpsRefine(e, v, before);
      OpPresent(DoOps(e, before).value, SeeOps(v, before), ops[n - 1], h, k);
    }
  }

  lemma NotLostYet(e: Entries, v: View, ops: seq<Op>, h: Bytes, k: U32)
    requires Agrees(e, v) && Compact(e) && Present(e, h, k)
    ensures Present(DoOps(e, ops[..0]).value, h, k) && !Lost(v, ops, 0, h, k)
  {
    hide Agrees, Compact, Gone;
    assert ops[..0] == [];
    EntryOrGone(e, v, h);
  }

  // ---------------------------------------------------------------- the panic

  /** Operation `n` spends an output number that is lost. */
  ghost predicate SpendsLost(v: View, ops: seq<Op>, n: nat)
    requires n < |ops|
  {
    ops[n].Spending? && Lost(v, ops, n, ops[n].i.prevTxHash, ops[n].i.prevTxOutIndex)
  }

  lemma {:induction false} OpsPanicExactly(e: Entries, v: View, ops: seq<Op>, n: nat)
    requires Agrees(e, v) && Compact(e) && n <= |ops|
    requires forall j | 0 <= j < n && ops[j].Spending? :: Present(e, ops[j].i.prevTxHash, ops[j].i.prevTxOutIndex)
    ensures DoOps(e, ops[..n]).None? <==> exists j | 0 <= j < n :: SpendsLost(v, ops, j)
  {
    hide Agrees, Compact, SpendsLost, Present, DoOp;
    if n == 0 {
      NoOps(e, v);
      assert ops[..0] == [];
    } else {
      OpsPanicExactly(e, v, ops, n - 1);
      assert ops[..n] == ops[..n - 1] + [ops[n - 1]];
      LastOp(e, v, ops[..n - 1], ops[n - 1]);
      if DoOps(e, ops[..n - 1]).Some? {
        OpPanicsExactly(e, v, ops, n - 1);
      }
    }
  }

  lemma OpPanicsExactly(e: Entries, v: View, ops: seq<Op>, n: nat)
    requires Agrees(e, v) && Compact(e) && n < |ops| && DoOps(e, ops[..n]).Some?
    requires ops[n].Spending? ==> Present(e, ops[n].i.prevTxHash, ops[n].i.prevTxOutIndex)
    ensures DoOp(DoOps(e, ops[..n]).value, ops[n]).None? <==> SpendsLost(v, ops, n)
  {
    hide Agrees, Compact, Lost, DoOps;
    if ops[n].Spending? {
      PresentUnlessLost(e, v, ops, n, ops[n].i.prevTxHash, ops[n].i.prevTxOutIndex);
    }
  }

  /** Some input of the list names an output number that has not been filed again since its
      transaction last had no unspent output. */
  ghost predicate Overspent(p: Protocol, v: View, txs: seq<Transaction>) {
    exists n | 0 <= n < |Ops(p, txs)| :: SpendsLost(v, Ops(p, txs), n)
  }

  lemma {:induction false} SpendingsMember(ins: seq<TxIn>)
    ensures forall op | op in Spendings(ins) :: op.Spending? && op.i in ins
  {
    if ins != [] {
      SpendingsMember(ins[..|ins| - 1]);
    }
  }

  lemma {:induction false} OpsMember(p: Protocol, txs: seq<Transaction>)
    ensures forall op | op in Ops(p, txs) && op.Spending? :: op.i in Inputs(txs)
  {
    hide TxHash;
    if txs != [] {
      OpsMember(p, txs[..|txs| - 1]);
      SpendingsMember(txs[|txs| - 1].txIns);
    }
  }

  /** A block whose inputs are all unspent before it panics exactly when it spends a lost
      output number; no matter what its transactions file, and how often. */
  lemma BlockPanicsExactly(p: Protocol, e: Entries, v: View, txs: seq<Transaction>)
    requires Agrees(e, v) && Compact(e) && forall i | i in Inputs(txs) :: Unspent(e, Spends(i))
    ensures ApplyTxs(p, e, txs).None? <==> Overspent(p, v, txs)
  {
    hide Agrees, Compact, SpendsLost, Ops, DoOps, ApplyTxs;
    var ops := Ops(p, txs);
    ApplyIsOps(p, e, v, txs);
    OpsMember(p, txs);
    forall j | 0 <= j < |ops| && ops[j].Spending?
      ensures Present(e, ops[j].i.prevTxHash, ops[j].i.prevTxOutIndex)
    {
      assert ops[j] in ops;
      assert Unspent(e, Spends(ops[j].i));
    }
    assert ops[..|ops|] == ops;
    OpsPanicExactly(e, v, ops, |ops|);
  }

  /** When no transaction but the last files anything under a hash that is spent from, this
      is the plain condition on the index before the block. */
  lemma OverspentPlainly(p: Protocol, e: Entries, v: View, txs: seq<Transaction>)
    requires Agrees(e, v) && Compact(e) && NoneRefilled(p, txs)
    requires forall i | i in Inputs(txs) :: Unspent(e, Spends(i))
    ensures Overspent(p, v, txs) <==> exists k | 0 <= k < |Inputs(txs)| :: Exhausted(e, Inputs(txs), k)
  {
    hide Agrees, Compact, NoneRefilled, Overspent, Exhausted, ApplyTxs;
    BlockPanicsExactly(p, e, v, txs);
    PlainBlockPanics(p, e, v, txs);
  }
}
