/** What each address holds, and how a transaction moves it; in particular what the
    clerk's requests do to the two parties and to everybody else. */
module Holdings {
  import opened Wire
  import opened Transactions
  import opened Blocks
  import opened Utxo
  import opened Supply
  import opened Validation
  import opened Clerk
  import opened ClerkAccepted

  // ---------------------------------------------------------------- holdings of an address

  /** The unspent outputs that pay the address. */
  function Of(v: View, a: Bytes): View {
    map o | o in v && v[o].pubKeyHash == a :: v[o]
  }

  ghost function Held(v: View, a: Bytes): nat {
    Sum(Of(v, a))
  }

  /** What a list of outputs pays the address. */
  function PaidTo(outs: seq<TxOut>, a: Bytes): nat {
    if outs == [] then 0
    else PaidTo(outs[..|outs| - 1], a) + if outs[|outs| - 1].pubKeyHash == a then outs[|outs| - 1].value else 0
  }

  /** What a list of inputs takes from the address. */
  function TakenFrom(v: View, ins: seq<TxIn>, a: Bytes): nat
    requires forall i | i in ins :: Spends(i) in v
  {
    if ins == [] then 0
    else
      var coin := v[Spends(ins[|ins| - 1])];
      TakenFrom(v, ins[..|ins| - 1], a) + if coin.pubKeyHash == a then coin.value else 0
  }

  lemma {:induction false} HeldSpent(v: View, ins: seq<TxIn>, a: Bytes)
    requires (forall i | i in ins :: Spends(i) in v) && DistinctInputs(ins)
    ensures Held(v, a) == Held(v - SpentBy(ins), a) + TakenFrom(v, ins, a)
  {
    if ins == [] {
      assert v - SpentBy(ins) == v;
    } else {
      var rest, last := ins[..|ins| - 1], ins[|ins| - 1];
      HeldSpent(v, rest, a);
      var left := v - SpentBy(rest);
      assert Spends(last) !in SpentBy(rest);
      assert left - {Spends(last)} == v - SpentBy(ins) by {
        assert ins == rest + [last];
      }
      HeldWithout(left, Spends(last), a);
    }
  }

  lemma HeldWithout(v: View, o: OutPoint, a: Bytes)
    requires o in v
    ensures Held(v, a) == Held(v - {o}, a) + if v[o].pubKeyHash == a then v[o].value else 0
  {
    if v[o].pubKeyHash == a {
      SumRemove(Of(v, a), o);
      assert Of(v, a) - {o} == Of(v - {o}, a);
    } else {
      assert Of(v, a) == Of(v - {o}, a);
    }
  }

  lemma HeldWith(v: View, o: OutPoint, c: TxOut, a: Bytes)
    requires o !in v
    ensures Held(v[o := c], a) == Held(v, a) + if c.pubKeyHash == a then c.value else 0
  {
    HeldWithout(v[o := c], o, a);
    assert v[o := c] - {o} == v;
  }

  lemma {:induction false} HeldMade(v: View, h: Bytes, outs: seq<TxOut>, a: Bytes)
    requires Fresh(v, h, outs)
    ensures Held(FoldOuts(v, h, outs), a) == Held(v, a) + PaidTo(outs, a)
  {
    hide Held;
    if outs != [] {
      var n := |outs| - 1;
      HeldMade(v, h, outs[..n], a);
      assert Wrap(n) == n;
      StillFresh(v, h, outs[..n]);
      HeldWith(FoldOuts(v, h, outs[..n]), OutPoint(h, n), outs[n], a);
    }
  }

  /** Conservation, address by address: a transaction with distinct inputs and fresh
      outputs takes from each address what its inputs say and pays it what its outputs
      say. */
  lemma HoldingsMove(p: Protocol, v: View, tx: Transaction, a: Bytes)
    requires (forall i | i in tx.txIns :: Spends(i) in v) && DistinctInputs(tx.txIns)
    requires Fresh(v - SpentBy(tx.txIns), TxHash(p, tx), tx.txOuts)
    ensures Held(FoldTx(p, v, tx), a) + TakenFrom(v, tx.txIns, a) == Held(v, a) + PaidTo(tx.txOuts, a)
  {
    hide Held;
    HeldSpent(v, tx.txIns, a);
    HeldMade(v - SpentBy(tx.txIns), TxHash(p, tx), tx.txOuts, a);
  }

  /** The inputs of one owner take everything from that owner and nothing from others. */
  lemma {:induction false} TakenFromOwner(v: View, ins: seq<TxIn>, owner: Bytes, a: Bytes)
    requires forall i | i in ins :: Spends(i) in v && v[Spends(i)].pubKeyHash == owner
    ensures TakenFrom(v, ins, a) == if a == owner then TotalIn(v, ins) else 0
  {
    if ins != [] {
      TakenFromOwner(v, ins[..|ins| - 1], owner, a);
    }
  }

  // ---------------------------------------------------------------- protection

  /** Nobody loses anything by an accepted transaction whose inputs are all under other
      people's keys. */
  lemma OthersAreSafe(p: Protocol, past: seq<Transaction>, e: Entries, v: View, tx: Transaction, a: Bytes)
    requires Agrees(e, v) && CheckTx(p, past, e, tx) == Accept && DistinctInputs(tx.txIns)
    requires Fresh(v - SpentBy(tx.txIns), TxHash(p, tx), tx.txOuts)
    requires forall i | i in tx.txIns :: p.pkHash(i.pubKey) != a
    ensures Held(FoldTx(p, v, tx), a) == Held(v, a) + PaidTo(tx.txOuts, a)
  {
    hide Held, Fresh, DistinctInputs, FoldTx, Agrees, ValidateStructure, CheckParent;
    NothingTaken(p, e, v, tx, tx.txIns, a);
    HoldingsMove(p, v, tx, a);
  }

  lemma {:induction false} NothingTaken(p: Protocol, e: Entries, v: View, tx: Transaction, ins: seq<TxIn>, a: Bytes)
    requires Agrees(e, v) && ScanInputs(p, e, tx, ins).Total?
    requires forall i | i in ins :: p.pkHash(i.pubKey) != a
    ensures (forall i | i in ins :: Spends(i) in v) && TakenFrom(v, ins, a) == 0
  {
    if ins != [] {
      var rest, last := ins[..|ins| - 1], ins[|ins| - 1];
      NothingTaken(p, e, v, tx, rest, a);
      assert ins == rest + [last];
      assert Unspent(e, Spends(last));
      assert v[Spends(last)] == Coin(e, Spends(last));
    }
  }

  // ---------------------------------------------------------------- what the clerk's requests do

  /** The inputs the clerk chose are the owner's. */
  lemma ClerkTakes(p: Protocol, e: Entries, v: View, keys: Keys, us: seq<UnspentTx>, t: Transaction, a: Bytes)
    requires SignaturesVerify(p, keys) && Coins(e, Owner(p, keys), us) && Agrees(e, v)
    requires t.txIns == InsOf(us, keys.pubKey)
    requires forall o | o in t.txOuts :: |o.pubKeyHash| == PKHASH_NUM_BYTES
    ensures var tx := Signed(p, keys, t);
      && tx == t.(txIns := tx.txIns)
      && (forall i | i in tx.txIns :: Spends(i) in v) && DistinctInputs(tx.txIns)
      && TakenFrom(v, tx.txIns, a) == if a == Owner(p, keys) then Balance(us) else 0
  {
    hide ScanInputs, Agrees;
    SignedInputs(p, e, v, keys, us, t);
    var tx := Signed(p, keys, t);
    forall i | i in tx.txIns
      ensures v[Spends(i)].pubKeyHash == Owner(p, keys)
    {
      var k :| 0 <= k < |tx.txIns| && tx.txIns[k] == i;
      ChosenIsOwned(e, v, Owner(p, keys), us, k);
      assert Spends(i) == Where(us[k]);
    }
    TakenFromOwner(v, tx.txIns, Owner(p, keys), a);
  }

  lemma ChosenIsOwned(e: Entries, v: View, owner: Bytes, us: seq<UnspentTx>, k: nat)
    requires Agrees(e, v) && Coins(e, owner, us) && k < |us|
    ensures Where(us[k]) in v && v[Where(us[k])].pubKeyHash == owner
  {
    assert us[k] in us;
    assert Unspent(e, Where(us[k]));
  }

  /** A payment moves `value` to the destination and costs the payer exactly that and the
      fee; nobody else is affected. */
  lemma PaymentMoves(p: Protocol, e: Entries, v: View, keys: Keys, cs: seq<UnspentTx>, kind: U32, value: U32,
      dest: Bytes, parent: Bytes, a: Bytes)
    requires SignaturesVerify(p, keys) && Agrees(e, v) && Coins(e, Owner(p, keys), cs)
    requires value + TX_FEE <= Balance(cs) < TWO32 && |dest| == PKHASH_NUM_BYTES
    requires var tx := PayTx(p, keys, cs, kind, value, dest, parent);
      Fresh(v - SpentBy(tx.txIns), TxHash(p, tx), tx.txOuts)
    ensures var tx := PayTx(p, keys, cs, kind, value, dest, parent);
      tx.kind == kind && tx.parent == parent && tx.content == []
    ensures var v' := FoldTx(p, v, PayTx(p, keys, cs, kind, value, dest, parent));
      Held(v', a) + (if a == Owner(p, keys) then value + TX_FEE else 0) == Held(v, a) + (if a == dest then value else 0)
  {
    hide Held, Fresh, FoldTx, Agrees, Coins, Signed, DistinctInputs;
    var change := TxOut(Wrap(Wrap(Balance(cs)) - TX_FEE - value), Owner(p, keys));
    var outs := [TxOut(value, dest), change];
    var t := Transaction(kind, InsOf(cs, keys.pubKey), outs, parent, []);
    ClerkTakes(p, e, v, keys, cs, t, a);
    HoldingsMove(p, v, Signed(p, keys, t), a);
    WrapSmall(Balance(cs));
    WrapSmall(Balance(cs) - TX_FEE - value);
    PaidToTwo(outs, a);
  }

  lemma {:induction false} PaidToTwo(outs: seq<TxOut>, a: Bytes)
    requires |outs| == 2
    ensures PaidTo(outs, a) == (if outs[0].pubKeyHash == a then outs[0].value else 0)
                             + (if outs[1].pubKeyHash == a then outs[1].value else 0)
  {
    assert outs[..1][..0] == [] && outs[..1][0] == outs[0];
    assert PaidTo(outs[..1], a) == if outs[0].pubKeyHash == a then outs[0].value else 0;
  }

  /** A post or comment says what it was asked to say, under the parent it was given, and
      costs its author exactly the fee. */
  lemma SayingCosts(p: Protocol, e: Entries, v: View, keys: Keys, u: UnspentTx, kind: U32, parent: Bytes,
      content: Bytes, a: Bytes)
    requires SignaturesVerify(p, keys) && Agrees(e, v) && Coins(e, Owner(p, keys), [u]) && TX_FEE <= u.value
    requires var tx := SayTx(p, keys, u, kind, parent, content); Fresh(v - SpentBy(tx.txIns), TxHash(p, tx), tx.txOuts)
    ensures var tx := SayTx(p, keys, u, kind, parent, content);
      && tx.kind == kind && tx.parent == parent && tx.content == content
      && Held(FoldTx(p, v, tx), a) + (if a == Owner(p, keys) then TX_FEE else 0) == Held(v, a)
  {
    hide Held, Fresh, FoldTx, Agrees, Coins, Signed, DistinctInputs;
    var outs := [TxOut(Wrap(u.value - TX_FEE), Owner(p, keys))];
    var t := Transaction(kind, InsOf([u], keys.pubKey), outs, parent, content);
    ClerkTakes(p, e, v, keys, [u], t, a);
    HoldingsMove(p, v, Signed(p, keys, t), a);
    WrapSmall(u.value - TX_FEE);
    assert [u][..0] == [] && outs[..0] == [];
    assert Balance([u]) == u.value;
  }

  // ---------------------------------------------------------------- what mining does

  /** The block a node mines pays that node, and nobody else, the fees and the reward on
      top of what the transactions do. */
  lemma MinerIsPaid(p: Protocol, v: View, prev: Bytes, txs: seq<Transaction>, me: Bytes, b: Block, a: Bytes)
    requires Generated(p, prev, txs, me, b) && |txs| * TX_FEE + TX_COINBASE < TWO32
    requires Fresh(FoldTxs(p, v, txs), TxHash(p, Reward(b)), Reward(b).txOuts)
    ensures Held(FoldTxs(p, v, b.transactions), a)
         == Held(FoldTxs(p, v, txs), a) + if a == me then |txs| * TX_FEE + TX_COINBASE else 0
  {
    hide Held, Fresh, FoldTxs, Sealed, LeastWorking, TxHash;
    var cur, r := FoldTxs(p, v, txs), Reward(b);
    assert r == MakeCoinbaseTx(|txs|, me);
    FoldLast(p, v, txs, r);
    assert cur - SpentBy(r.txIns) == cur;
    HoldingsMove(p, cur, r, a);
    assert r.txOuts[..0] == [];
    WrapSmall(|txs| * TX_FEE + TX_COINBASE);
  }
}
