/** What a clerk builds from a node's answer passes that node's validation. */
module ClerkAccepted {
  import opened Wire
  import opened Transactions
  import opened Utxo
  import opened Supply
  import opened Validation
  import opened Clerk

  /** Coins of the owner, each once, under 32-byte transaction hashes. */
  ghost predicate Coins(e: Entries, owner: Bytes, us: seq<UnspentTx>) {
    && (forall u | u in us ::
          Owned(e, owner, Where(u)) && u.value == Coin(e, Where(u)).value && |u.txHash| == HASH_NUM_BYTES)
    && (forall j, k | 0 <= j < k < |us| :: Where(us[j]) != Where(us[k]))
  }

  lemma WalletCoins(e: Entries, owner: Bytes, us: seq<UnspentTx>, n: nat)
    requires IsWallet(e, owner, us) && n <= |us| && forall h | h in e :: |h| == HASH_NUM_BYTES
    ensures Coins(e, owner, us[..n])
  {
  }

  // ---------------------------------------------------------------- inputs

  lemma CoinsValue(e: Entries, v: View, owner: Bytes, us: seq<UnspentTx>, ins: seq<TxIn>)
    requires Agrees(e, v) && Coins(e, owner, us) && |ins| == |us|
    requires forall k | 0 <= k < |us| :: Spends(ins[k]) == Where(us[k])
    ensures (forall i | i in ins :: Spends(i) in v) && DistinctInputs(ins)
    ensures TotalIn(v, ins) == Balance(us)
  {
    hide TotalIn, Balance;
    forall k | 0 <= k < |us|
      ensures Where(us[k]) in v && v[Where(us[k])].value == us[k].value
    {
      assert us[k] in us;
      assert Unspent(e, Where(us[k]));
    }
    hide Agrees, Coins;
    SameTotal(v, us, ins);
  }

  lemma {:induction false} SameTotal(v: View, us: seq<UnspentTx>, ins: seq<TxIn>)
    requires |ins| == |us|
    requires forall k | 0 <= k < |us| ::
          Spends(ins[k]) == Where(us[k]) && Where(us[k]) in v && v[Where(us[k])].value == us[k].value
    ensures (forall i | i in ins :: Spends(i) in v) && TotalIn(v, ins) == Balance(us)
  {
    if us != [] {
      var n := |us| - 1;
      SameTotal(v, us[..n], ins[..n]);
    }
  }

  /** The signed inputs of a well-formed transaction all pass the scan. */
  lemma {:induction false} SignedScan(p: Protocol, e: Entries, keys: Keys, us: seq<UnspentTx>, tx: Transaction,
      m: Digest, n: nat)
    requires SignaturesVerify(p, keys) && Coins(e, Owner(p, keys), us) && n <= |us|
    requires HashNoSig(p, tx) == Some(m) && tx.txIns == WithSig(InsOf(us, keys.pubKey), keys.sign(m))
    ensures ScanInputs(p, e, tx, tx.txIns[..n]) == Total(Wrap(Balance(us[..n])))
  {
    hide HashNoSig, SignaturesVerify, ScanInputs, Owned, Coin, Balance;
    if n == 0 {
      NothingScanned(p, e, tx);
      assert tx.txIns[..n] == [] && us[..n] == [];
    } else {
      assert us[n - 1] in us;
      SignedScan(p, e, keys, us, tx, m, n - 1);
      assert tx.txIns[..n][..n - 1] == tx.txIns[..n - 1] && us[..n][..n - 1] == us[..n - 1];
      ScanOneMore(p, e, keys, us[..n], tx, m, tx.txIns[..n]);
    }
  }

  lemma {:induction false} ScanOneMore(p: Protocol, e: Entries, keys: Keys, us: seq<UnspentTx>, tx: Transaction,
      m: Digest, ins: seq<TxIn>)
    requires SignaturesVerify(p, keys) && HashNoSig(p, tx) == Some(m) && us != [] && |ins| == |us|
    requires var u := us[|us| - 1];
      && Owned(e, Owner(p, keys), Where(u)) && u.value == Coin(e, Where(u)).value
      && ins[|us| - 1] == TxIn(u.txHash, u.index, keys.sign(m), keys.pubKey)
    requires ScanInputs(p, e, tx, ins[..|us| - 1]) == Total(Wrap(Balance(us[..|us| - 1])))
    ensures ScanInputs(p, e, tx, ins) == Total(Wrap(Balance(us)))
  {
    hide HashNoSig, CheckInput, SignaturesVerify, Owned, Coin;
    var u := us[|us| - 1];
    CoinAccepted(p, e, keys, u, tx, m);
    WrapSum(Balance(us[..|us| - 1]), u.value);
  }

  lemma NothingScanned(p: Protocol, e: Entries, tx: Transaction)
    ensures ScanInputs(p, e, tx, []) == Total(Wrap(Balance([])))
  {
  }

  lemma CoinAccepted(p: Protocol, e: Entries, keys: Keys, u: UnspentTx, tx: Transaction, m: Digest)
    requires SignaturesVerify(p, keys) && HashNoSig(p, tx) == Some(m)
    requires Owned(e, Owner(p, keys), Where(u)) && u.value == Coin(e, Where(u)).value
    ensures CheckInput(p, e, tx, TxIn(u.txHash, u.index, keys.sign(m), keys.pubKey)) == Accept
    ensures u.txHash in e && u.index in e[u.txHash] && e[u.txHash][u.index].value == u.value
  {
    hide HashNoSig;
  }

  /** Signing keeps everything but the signatures, and the scan of the result succeeds. */
  lemma SignedInputs(p: Protocol, e: Entries, v: View, keys: Keys, us: seq<UnspentTx>, t: Transaction)
    requires SignaturesVerify(p, keys) && Coins(e, Owner(p, keys), us) && Agrees(e, v)
    requires t.txIns == InsOf(us, keys.pubKey)
    requires forall o | o in t.txOuts :: |o.pubKeyHash| == PKHASH_NUM_BYTES
    ensures var tx := Signed(p, keys, t);
      && tx == t.(txIns := tx.txIns) && |tx.txIns| == |us|
      && (us != [] ==> tx.txIns[0].pubKey == keys.pubKey)
      && ScanInputs(p, e, tx, tx.txIns) == Total(Wrap(Balance(us)))
      && (forall i | i in tx.txIns :: Spends(i) in v) && DistinctInputs(tx.txIns)
      && TotalIn(v, tx.txIns) == Balance(us)
  {
    hide ScanInputs, Agrees, Owned;
    assert ValidComponents(t);
    var m := HashNoSig(p, t).value;
    var tx := Signed(p, keys, t);
    HashNoSigIgnoresSigs(p, t, tx.txIns);
    SignedScan(p, e, keys, us, tx, m, |us|);
    assert tx.txIns[..|us|] == tx.txIns && us[..|us|] == us;
    CoinsValue(e, v, Owner(p, keys), us, tx.txIns);
  }

  // ---------------------------------------------------------------- payments

  /** The parent an upvote needs: content whose author is the one paid. */
  ghost predicate UpvoteParent(p: Protocol, past: seq<Transaction>, parent: Bytes, dest: Bytes) {
    && FindTx(p, past, parent).Some?
    && var t := FindTx(p, past, parent).value;
       (t.kind == POST || t.kind == COMMENT) && t.txOuts != [] && t.txOuts[0].pubKeyHash == dest
  }

  ghost predicate CommentParent(p: Protocol, past: seq<Transaction>, parent: Bytes) {
    FindTx(p, past, parent).Some? && (FindTx(p, past, parent).value.kind == POST ||
      FindTx(p, past, parent).value.kind == COMMENT)
  }

  lemma ParentNotEmpty(p: Protocol, past: seq<Transaction>, parent: Bytes)
    requires FindTx(p, past, parent).Some?
    ensures parent != []
  {
    FindTxIsFirst(p, past, parent);
  }

  /** A transaction that passes `validateTransaction`, spends distinct outputs and pays
      exactly the fee. */
  ghost predicate GoodTx(p: Protocol, past: seq<Transaction>, e: Entries, v: View, tx: Transaction) {
    && CheckTx(p, past, e, tx) == Accept
    && DistinctInputs(tx.txIns)
    && (forall i | i in tx.txIns :: Spends(i) in v)
    && TotalIn(v, tx.txIns) == TotalOut(tx.txOuts) + TX_FEE
  }

  lemma PayIsGood(p: Protocol, past: seq<Transaction>, e: Entries, v: View, keys: Keys, cs: seq<UnspentTx>, kind: U32,
      value: U32, dest: Bytes, parent: Bytes)
    requires SignaturesVerify(p, keys) && Agrees(e, v) && Coins(e, Owner(p, keys), cs) && cs != []
    requires value + TX_FEE <= Balance(cs) && Balance(cs) + TX_FEE < TWO32 && |dest| == PKHASH_NUM_BYTES
    requires (kind == TRANSFER && parent == []) || (kind == UPVOTE && UpvoteParent(p, past, parent, dest))
    ensures GoodTx(p, past, e, v, PayTx(p, keys, cs, kind, value, dest, parent))
  {
    hide ScanInputs, Agrees, Coins, FindTx, SignaturesVerify, DistinctInputs, OutputSum, TotalOut, TotalIn, Balance,
      ValidateStructure, CheckParent, UpvoteParent, Signed;
    var change := TxOut(Wrap(Wrap(Balance(cs)) - TX_FEE - value), Owner(p, keys));
    var outs := [TxOut(value, dest), change];
    var t := Transaction(kind, InsOf(cs, keys.pubKey), outs, parent, []);
    SignedInputs(p, e, v, keys, cs, t);
    PaySums(Balance(cs), value, outs);
    PayIsShaped(p, past, keys, Signed(p, keys, t), dest);
  }

  /** A payment has the outputs that its kind demands. */
  lemma PayIsShaped(p: Protocol, past: seq<Transaction>, keys: Keys, tx: Transaction, dest: Bytes)
    requires tx.txIns != [] && tx.txIns[0].pubKey == keys.pubKey
    requires |tx.txOuts| == 2 && tx.txOuts[0].pubKeyHash == dest && tx.txOuts[1].pubKeyHash == Owner(p, keys)
    requires (tx.kind == TRANSFER && tx.parent == []) || (tx.kind == UPVOTE && UpvoteParent(p, past, tx.parent, dest))
    ensures ValidateStructure(p, tx) == Accept && CheckParent(p, past, tx) == Accept
  {
    hide FindTx;
    if tx.kind == UPVOTE {
      ParentNotEmpty(p, past, tx.parent);
    }
  }

  lemma PaySums(balance: nat, value: U32, outs: seq<TxOut>)
    requires value + TX_FEE <= balance && balance + TX_FEE < TWO32 && |outs| == 2
    requires outs[0].value == value && outs[1].value == Wrap(Wrap(balance) - TX_FEE - value)
    ensures TotalOut(outs) + TX_FEE == balance
    ensures OutputSum(outs) == TotalOut(outs)
    ensures Wrap(Wrap(balance) + TX_FEE) == balance + TX_FEE
  {
    WrapSmall(balance);
    WrapSmall(balance + TX_FEE);
    WrapSmall(balance - TX_FEE - value);
    assert outs[..1][..0] == [] && outs[..1][0] == outs[0];
    assert TotalOut(outs[..1]) == value;
    OutputSumWraps(outs);
    WrapSmall(TotalOut(outs));
  }

  /** The chosen coins cover the payment exactly when the whole wallet does. */
  lemma ChosenCovers(e: Entries, owner: Bytes, us: seq<UnspentTx>, value: U32)
    requires us != [] && Balance(us) < TWO32 && value + TX_FEE < TWO32
    ensures Chosen(us, value) != [] && Balance(Chosen(us, value)) <= Balance(us)
    ensures Wrap(Balance(Chosen(us, value))) == Balance(Chosen(us, value)) && Wrap(value + TX_FEE) == value + TX_FEE
    ensures Balance(Chosen(us, value)) < value + TX_FEE <==> Balance(us) < value + TX_FEE
  {
    hide Take;
    WrapSmall(value + TX_FEE);
    var n := Take(us, Wrap(value + TX_FEE), 0, 0);
    assert us[..0] == [];
    TakeEnough(us, value + TX_FEE, 0);
    BalanceMonotone(us, n);
    WrapSmall(Balance(us[..n]));
    if n == |us| {
      assert us[..n] == us;
    }
  }

  /** `Transfer`: given the node's answer, it gives up for lack of funds exactly when the
      whole balance is too small; otherwise the node accepts what it built. */
  lemma TransferIsAccepted(p: Protocol, past: seq<Transaction>, e: Entries, v: View, keys: Keys, us: seq<UnspentTx>,
      dest: Bytes, value: U32)
    requires SignaturesVerify(p, keys) && Agrees(e, v) && IsWallet(e, Owner(p, keys), us) && us != []
    requires forall h | h in e :: |h| == HASH_NUM_BYTES
    requires value != 0 && |dest| == PKHASH_NUM_BYTES && Balance(us) + TX_FEE < TWO32 && value + TX_FEE < TWO32
    ensures Wrap(Balance(Chosen(us, value))) < Wrap(value + TX_FEE) <==> Balance(us) < value + TX_FEE
    ensures Balance(us) >= value + TX_FEE ==> GoodTx(p, past, e, v,
      PayTx(p, keys, Chosen(us, value), TRANSFER, value, dest, []))
  {
    hide IsWallet, Agrees, SignaturesVerify, GoodTx, PayTx;
    ChosenCovers(e, Owner(p, keys), us, value);
    if Balance(us) >= value + TX_FEE {
      WalletCoins(e, Owner(p, keys), us, Take(us, Wrap(value + TX_FEE), 0, 0));
      PayIsGood(p, past, e, v, keys, Chosen(us, value), TRANSFER, value, dest, []);
    }
  }

  /** `Upvote`, under content whose author is the one paid. */
  lemma UpvoteIsAccepted(p: Protocol, past: seq<Transaction>, e: Entries, v: View, keys: Keys, us: seq<UnspentTx>,
      parent: Bytes, dest: Bytes)
    requires SignaturesVerify(p, keys) && Agrees(e, v) && IsWallet(e, Owner(p, keys), us) && us != []
    requires forall h | h in e :: |h| == HASH_NUM_BYTES
    requires |dest| == PKHASH_NUM_BYTES && Balance(us) + TX_FEE < TWO32 && UpvoteParent(p, past, parent, dest)
    ensures Wrap(Balance(Chosen(us, TX_UPVOTE))) < TX_UPVOTE + TX_FEE <==> Balance(us) < TX_UPVOTE + TX_FEE
    ensures Balance(us) >= TX_UPVOTE + TX_FEE ==> GoodTx(p, past, e, v,
      PayTx(p, keys, Chosen(us, TX_UPVOTE), UPVOTE, TX_UPVOTE, dest, parent))
  {
    hide IsWallet, Agrees, SignaturesVerify, GoodTx, PayTx, UpvoteParent;
    ChosenCovers(e, Owner(p, keys), us, TX_UPVOTE);
    if Balance(us) >= TX_UPVOTE + TX_FEE {
      WalletCoins(e, Owner(p, keys), us, Take(us, Wrap(TX_UPVOTE + TX_FEE), 0, 0));
      PayIsGood(p, past, e, v, keys, Chosen(us, TX_UPVOTE), UPVOTE, TX_UPVOTE, dest, parent);
    }
  }

  // ---------------------------------------------------------------- posts and comments

  /** `Post` and `Comment` spend the first coin whatever it holds.  The node accepts the
      result exactly when that coin covers the fee, adding the fee to it does not wrap
      around, and the parent of a comment is content on the chain; a post or comment that
      is accepted pays exactly the fee.  The node does not mind any other type either. */
  lemma SayIsAcceptedExactly(p: Protocol, past: seq<Transaction>, e: Entries, v: View, keys: Keys, u: UnspentTx,
      kind: U32, parent: Bytes, content: Bytes)
    requires SignaturesVerify(p, keys) && Agrees(e, v) && Coins(e, Owner(p, keys), [u])
    requires kind == COMMENT || (kind != UPVOTE && parent == [])
    ensures var tx := SayTx(p, keys, u, kind, parent, content);
      && (CheckTx(p, past, e, tx) == Accept <==>
            TX_FEE <= u.value < TWO32 - TX_FEE && (kind == COMMENT ==> CommentParent(p, past, parent)))
      && CheckTx(p, past, e, tx) != Panic
      && (CheckTx(p, past, e, tx) == Accept ==> GoodTx(p, past, e, v, tx))
  {
    hide ScanInputs, Agrees, Coins, FindTx;
    var outs := [TxOut(Wrap(u.value - TX_FEE), Owner(p, keys))];
    var t := Transaction(kind, InsOf([u], keys.pubKey), outs, parent, content);
    SignedInputs(p, e, v, keys, [u], t);
    SaySums(u, outs);
    if CommentParent(p, past, parent) {
      ParentNotEmpty(p, past, parent);
    }
  }

  lemma {:induction false} SaySums(u: UnspentTx, outs: seq<TxOut>)
    requires |outs| == 1 && outs[0].value == Wrap(u.value - TX_FEE)
    ensures Balance([u]) == u.value && TotalOut(outs) == outs[0].value && OutputSum(outs) == outs[0].value
    ensures Wrap(u.value) == u.value
    ensures Wrap(u.value + TX_FEE) < outs[0].value <==> u.value < TX_FEE || u.value >= TWO32 - TX_FEE
    ensures TX_FEE <= u.value ==> outs[0].value == u.value - TX_FEE
  {
    assert [u][..0] == [] && outs[..0] == [];
    OutputSumWraps(outs);
  }
}
