/** What every run of the node keeps. */
module Invariants {
  import opened Wire
  import opened Transactions
  import opened Blocks
  import opened Utxo
  import opened Supply
  import opened Validation
  import opened Ledger

  // ---------------------------------------------------------------- the invariant

  /** The plain fold over all transactions of a chain. */
  function ViewOf(p: Protocol, chain: seq<Block>): View {
    FoldTxs(p, map[], AllTxs(chain))
  }

  /** Block `k` was settled by an index that agreed with the chain before it. */
  ghost predicate History(p: Protocol, chain: seq<Block>, k: nat)
    requires k < |chain|
  {
    exists e: Entries :: Agrees(e, ViewOf(p, chain[..k])) && Settles(p, AllTxs(chain[..k]), e, chain[k])
  }

  ghost predicate ChainInv(p: Protocol, chain: seq<Block>, e: Entries) {
    && SealedChain(p, chain)
    && (forall k | 1 <= k < |chain| :: History(p, chain, k))
    && (forall tx | tx in AllTxs(chain) :: Hashable(tx))
    && Agrees(e, ViewOf(p, chain))
    && Compact(e)
    && (forall h | h in e :: |h| == HASH_NUM_BYTES)
  }

  ghost predicate OnChain(p: Protocol, chain: seq<Block>, h: Bytes) {
    exists tx :: tx in AllTxs(chain) && TxHash(p, tx) == h
  }

  ghost predicate PendingInv(p: Protocol, chain: seq<Block>, pending: map<Bytes, TxNode>) {
    forall h | h in pending ::
      && pending[h].hash == h && TxHash(p, pending[h].tx) == h && ValidComponents(pending[h].tx)
      && (pending[h].status == Success ==> OnChain(p, chain, h))
  }

  ghost predicate Inv(p: Protocol, s: State) {
    && ChainInv(p, s.chain, s.entries)
    && PendingInv(p, s.chain, s.pending)
    && s.seen == s.pending.Keys
    && s.sideChains == [] && s.orphanChains == []
  }

  // ---------------------------------------------------------------- start

  lemma BootInv(p: Protocol, s: State)
    requires Boot(p, s)
    ensures Inv(p, s)
  {
    var g := s.chain[0];
    BootTxs(p, g);
    assert s.chain == [g];
    BootIndex(p, g, s.entries);
  }

  lemma BootTxs(p: Protocol, g: Block)
    requires IsGenesis(p, g)
    ensures AllTxs([g]) == [GenesisTx(p)] && Hashable(GenesisTx(p))
    ensures SealedChain(p, [g])
  {
    assert [g][..0] == [];
  }

  lemma BootIndex(p: Protocol, g: Block, e: Entries)
    requires IsGenesis(p, g) && ApplyTxs(p, map[], g.transactions) == Some(e)
    ensures Agrees(e, ViewOf(p, [g])) && Compact(e) && forall h | h in e :: |h| == HASH_NUM_BYTES
  {
    hide IsGenesis;
    assert AllTxs([g]) == g.transactions by {
      assert [g][..0] == [];
    }
    assert Agrees(map[], map[]) && Compact(map[]);
    ApplyTxsRefines(p, map[], map[], g.transactions);
    KeysStayDigests(p, map[], g.transactions);
  }

  lemma {:induction false} KeysStayDigests(p: Protocol, e: Entries, txs: seq<Transaction>)
    requires (forall h | h in e :: |h| == HASH_NUM_BYTES) && ApplyTxs(p, e, txs).Some?
    ensures forall h | h in ApplyTxs(p, e, txs).value :: |h| == HASH_NUM_BYTES
  {
    if txs != [] {
      var rest, last := txs[..|txs| - 1], txs[|txs| - 1];
      KeysStayDigests(p, e, rest);
      var e1 := ApplyTxs(p, e, rest).value;
      SpendAllKeepsNumbers(e1, last.txIns);
      AddAllKeys(SpendAll(e1, last.txIns).value, TxHash(p, last), last.txOuts);
    }
  }

  lemma {:induction false} AddAllKeys(e: Entries, h: Bytes, outs: seq<TxOut>)
    ensures AddAll(e, h, outs).Keys <= e.Keys + {h}
  {
    if outs != [] {
      AddAllKeys(e, h, outs[..|outs| - 1]);
    }
  }

  // ---------------------------------------------------------------- growth

  /** A settled block that extends a good chain leaves a good chain. */
  lemma GrowChain(p: Protocol, chain: seq<Block>, e: Entries, b: Block)
    requires ChainInv(p, chain, e) && Sealed(p, b) && Extends(chain, b)
    requires Settles(p, AllTxs(chain), e, b)
    requires forall tx | tx in b.transactions :: Hashable(tx)
    requires ApplyTxs(p, e, b.transactions).Some?
    ensures ChainInv(p, chain + [b], ApplyTxs(p, e, b.transactions).value)
  {
    hide History, Agrees, Compact, Settles, Hashable, ApplyTxs, FoldTxs;
    var chain', e' := chain + [b], ApplyTxs(p, e, b.transactions).value;
    AllTxsLast(chain, b);
    FoldConcat(p, map[], AllTxs(chain), b.transactions);
    ApplyTxsRefines(p, e, ViewOf(p, chain), b.transactions);
    KeysStayDigests(p, e, b.transactions);
    GrowHistory(p, chain, e, b);
    GrowSealed(p, chain, b);
  }

  lemma GrowSealed(p: Protocol, chain: seq<Block>, b: Block)
    requires SealedChain(p, chain) && Sealed(p, b) && Extends(chain, b)
    ensures SealedChain(p, chain + [b])
  {
    hide Sealed, IsGenesis;
  }

  lemma GrowHistory(p: Protocol, chain: seq<Block>, e: Entries, b: Block)
    requires Agrees(e, ViewOf(p, chain)) && Settles(p, AllTxs(chain), e, b)
    requires forall k | 1 <= k < |chain| :: History(p, chain, k)
    ensures forall k | 1 <= k < |chain + [b]| :: History(p, chain + [b], k)
  {
    var chain' := chain + [b];
    forall k | 1 <= k < |chain'|
      ensures History(p, chain', k)
    {
      if k < |chain| {
        assert History(p, chain, k);
        assert chain'[..k] == chain[..k] && chain'[k] == chain[k];
      } else {
        assert chain'[..k] == chain && chain'[k] == b;
      }
    }
  }

  lemma OnChainStays(p: Protocol, chain: seq<Block>, b: Block, h: Bytes)
    requires OnChain(p, chain, h)
    ensures OnChain(p, chain + [b], h)
  {
    AllTxsLast(chain, b);
    var tx :| tx in AllTxs(chain) && TxHash(p, tx) == h;
    assert tx in AllTxs(chain + [b]);
  }

  lemma NewOnChain(p: Protocol, chain: seq<Block>, b: Block, tx: Transaction)
    requires tx in b.transactions
    ensures OnChain(p, chain + [b], TxHash(p, tx))
  {
    AllTxsLast(chain, b);
    assert tx in AllTxs(chain + [b]);
  }

  // ---------------------------------------------------------------- receiving

  /** An ordinary transaction of the list has the hash. */
  ghost predicate Carries(p: Protocol, txs: seq<Transaction>, h: Bytes) {
    exists tx :: tx in txs && tx.kind != COINBASE && TxHash(p, tx) == h
  }

  /** Entering a block marks exactly the pending transactions it carries. */
  lemma {:induction false} MarkSuccessMeaning(p: Protocol, pending: map<Bytes, TxNode>, txs: seq<Transaction>)
    ensures var m := MarkSuccess(p, pending, txs);
      && m.Keys == pending.Keys
      && forall h | h in pending :: m[h] == if Carries(p, txs, h) then pending[h].(status := Success) else pending[h]
  {
    hide TxHash;
    if txs != [] {
      var rest, last := txs[..|txs| - 1], txs[|txs| - 1];
      MarkSuccessMeaning(p, pending, rest);
      assert txs == rest + [last];
      forall h
        ensures Carries(p, txs, h) <==> Carries(p, rest, h) || (last.kind != COINBASE && TxHash(p, last) == h)
      {
      }
    }
  }

  lemma ReceivedPending(p: Protocol, chain: seq<Block>, pending: map<Bytes, TxNode>, b: Block)
    requires PendingInv(p, chain, pending)
    ensures PendingInv(p, chain + [b], MarkSuccess(p, pending, b.transactions))
  {
    var m := MarkSuccess(p, pending, b.transactions);
    MarkSuccessMeaning(p, pending, b.transactions);
    forall h | h in m && m[h].status == Success
      ensures OnChain(p, chain + [b], h)
    {
      if m[h] == pending[h] {
        OnChainStays(p, chain, b, h);
      } else {
        var tx :| tx in b.transactions && TxHash(p, tx) == h;
        NewOnChain(p, chain, b, tx);
      }
    }
  }

  /** A block that does not extend the chain is dropped: no tree is ever edited and the
      reorganisation's guard is never true. */
  lemma AsideIsDropped(p: Protocol, s: State, b: Block)
    requires s.sideChains == [] && s.orphanChains == [] && s.chain != [] && !Extends(s.chain, b)
    ensures PlaceAside(s, b) == Next(s)
  {
    assert s.sideChains + s.orphanChains == [];
    var k := LastIndex(s.chain, b.prevBlock);
    assert k != |s.chain| - 1;
  }

  lemma ReceiveKeepsInv(p: Protocol, s: State, b: Block)
    requires Inv(p, s)
    ensures Receive(p, s, b).Next? || Receive(p, s, b).Crash?
    ensures Receive(p, s, b).Next? ==> Inv(p, Receive(p, s, b).state) && s.chain <= Receive(p, s, b).state.chain
  {
    hide ValidateBlock, CheckBlockTxs, Sealed, IsGenesis, Linked, Settles, Agrees, Compact, PendingInv, ApplyTxs,
      History, Hashable, PlaceAside;
    var logged := s.(log := s.log + [b]);
    if ValidateBlock(p, b) == Accept {
      if !Extends(s.chain, b) {
        AsideIsDropped(p, logged, b);
      } else if CheckExtension(p, s, b) == Accept && ApplyTxs(p, s.entries, b.transactions).Some? {
        AcceptedSettles(p, AllTxs(s.chain), s.entries, b);
        AcceptedIsSealed(p, b);
        GrowChain(p, s.chain, s.entries, b);
        ReceivedPending(p, s.chain, s.pending, b);
        MarkSuccessMeaning(p, s.pending, b.transactions);
      }
    }
  }

  /** A block that passes both checks and has pairwise distinct inputs never crashes the node. */
  lemma DistinctBlockIsSafe(p: Protocol, s: State, b: Block)
    requires Inv(p, s)
    requires ValidateBlock(p, b) == Accept && CheckExtension(p, s, b) == Accept
    requires DistinctInputs(Inputs(b.transactions))
    ensures Receive(p, s, b).Next?
    ensures Extends(s.chain, b) ==> Receive(p, s, b).state.chain == s.chain + [b]
  {
    ReceiveKeepsInv(p, s, b);
    AcceptedSettles(p, AllTxs(s.chain), s.entries, b);
    SettledBlockApplies(p, AllTxs(s.chain), s.entries, ViewOf(p, s.chain), b);
  }

  // ---------------------------------------------------------------- mining

  lemma CollectedPending(p: Protocol, s: State, order: seq<Bytes>)
    requires Inv(p, s) && Collect(p, AllTxs(s.chain), s.entries, s.pending, order).Batch?
    ensures var c := Collect(p, AllTxs(s.chain), s.entries, s.pending, order);
      && c.pending.Keys == s.pending.Keys
      && (forall h | h in c.keys :: h in c.pending)
      && Inv(p, s.(pending := c.pending))
      && (forall tx | tx in TxsOf(c.pending, c.keys) ::
        CheckTx(p, AllTxs(s.chain), s.entries, tx) == Accept && ValidComponents(tx))
  {
    hide ChainInv, CheckTx, Collect, OnChain, ValidComponents, TxHash;
    CollectKeys(p, AllTxs(s.chain), s.entries, s.pending, order);
  }

  lemma GeneratedHashable(p: Protocol, prev: Bytes, txs: seq<Transaction>, me: Address, b: Block)
    requires Generated(p, prev, txs, me, b)
    requires forall tx | tx in txs :: ValidComponents(tx)
    ensures forall tx | tx in b.transactions :: Hashable(tx)
  {
    forall tx | tx in b.transactions
      ensures Hashable(tx)
    {
      if tx !in txs {
        assert tx == MakeCoinbaseTx(|txs|, me);
      }
    }
  }

  lemma MinedPending(p: Protocol, chain: seq<Block>, pending: map<Bytes, TxNode>, keys: seq<Bytes>, b: Block)
    requires PendingInv(p, chain, pending) && (forall h | h in keys :: h in pending)
    requires forall tx | tx in TxsOf(pending, keys) :: tx in b.transactions
    ensures PendingInv(p, chain + [b], MarkKeys(pending, keys))
  {
    var m := MarkKeys(pending, keys);
    forall h | h in m && m[h].status == Success
      ensures OnChain(p, chain + [b], h)
    {
      if h in keys {
        var k :| 0 <= k < |keys| && keys[k] == h;
        assert TxsOf(pending, keys)[k] == pending[h].tx;
        NewOnChain(p, chain, b, pending[h].tx);
      } else {
        OnChainStays(p, chain, b, h);
      }
    }
  }

  /** The hash the miner read is the tip's, so the block it generated extends the chain. */
  lemma ReadTipExtends(p: Protocol, chain: seq<Block>, b: Block)
    requires SealedChain(p, chain) && b.prevBlock == PrevHash(chain)
    ensures Extends(chain, b)
  {
    SealedSized(p, chain, |chain| - 1);
  }

  lemma CommitKeepsInv(p: Protocol, me: Address, s: State, keys: seq<Bytes>, b: Block)
    requires Inv(p, s) && (forall h | h in keys :: h in s.pending)
    requires Generated(p, PrevHash(s.chain), TxsOf(s.pending, keys), me, b)
    requires forall tx | tx in TxsOf(s.pending, keys) ::
      CheckTx(p, AllTxs(s.chain), s.entries, tx) == Accept && ValidComponents(tx)
    ensures Commit(p, s, keys, b).Next? || Commit(p, s, keys, b).Crash?
    ensures Commit(p, s, keys, b).Next? ==>
          Inv(p, Commit(p, s, keys, b).state) && Commit(p, s, keys, b).state.chain == s.chain + [b]
  {
    hide CheckTx, ValidComponents, Sealed, Settles, Agrees, Compact, PendingInv, ApplyTxs, History, SealedChain,
      Hashable, LeastWorking;
    var txs := TxsOf(s.pending, keys);
    ReadTipExtends(p, s.chain, b);
    GeneratedSettles(p, AllTxs(s.chain), s.entries, PrevHash(s.chain), txs, me, b);
    GeneratedHashable(p, PrevHash(s.chain), txs, me, b);
    if ApplyTxs(p, s.entries, b.transactions).Some? {
      GrowChain(p, s.chain, s.entries, b);
      MinedPending(p, s.chain, s.pending, keys, b);
    }
  }

  lemma MineKeepsInv(p: Protocol, me: Address, s: State, order: seq<Bytes>, b: Block, r: Outcome)
    requires Inv(p, s) && Mines(p, me, s, order, b, r)
    ensures r.Next? || r.Crash?
    ensures r.Next? ==> Inv(p, r.state) && r.state.chain == s.chain + [b]
  {
    match Collect(p, AllTxs(s.chain), s.entries, s.pending, order)
    case BatchCrash =>
    case Batch(keys, m) =>
      CollectedPending(p, s, order);
      CommitKeepsInv(p, me, s.(pending := m), keys, b);
  }

  /** A mined block with pairwise distinct inputs never crashes the miner: once every
      pending transaction could be checked, the block is committed. */
  lemma DistinctMineIsSafe(p: Protocol, me: Address, s: State, order: seq<Bytes>, b: Block, r: Outcome)
    requires Inv(p, s) && Mines(p, me, s, order, b, r)
    requires Collect(p, AllTxs(s.chain), s.entries, s.pending, order).Batch?
    requires DistinctInputs(Inputs(b.transactions))
    ensures r.Next? && r.state.chain == s.chain + [b]
  {
    hide CheckTx, Sealed, Settles, Agrees, Compact, PendingInv, ApplyTxs, History, SealedChain, LeastWorking,
      DistinctInputs;
    var c := Collect(p, AllTxs(s.chain), s.entries, s.pending, order);
    var txs := TxsOf(c.pending, c.keys);
    CollectedPending(p, s, order);
    ReadTipExtends(p, s.chain, b);
    GeneratedSettles(p, AllTxs(s.chain), s.entries, PrevHash(s.chain), txs, me, b);
    SettledBlockApplies(p, AllTxs(s.chain), s.entries, ViewOf(p, s.chain), b);
  }

  // ---------------------------------------------------------------- whole runs

  lemma AdmitKeepsInv(p: Protocol, s: State, tx: Transaction, clerkId: int)
    requires Inv(p, s)
    ensures Inv(p, Admit(p, s, tx, clerkId).0) && Admit(p, s, tx, clerkId).0.chain == s.chain
  {
    hide ChainInv, OnChain;
  }

  lemma PollKeepsInv(p: Protocol, s: State, h: Bytes)
    requires Inv(p, s) && h in s.pending
    ensures Inv(p, Poll(s, h).0) && Poll(s, h).0.chain == s.chain
    ensures Poll(s, h).1 == Some(true) ==> OnChain(p, s.chain, h)
  {
    hide ChainInv, OnChain;
  }

  lemma StepKeepsInv(p: Protocol, me: Address, s: State, ev: Event, s': State)
    requires Inv(p, s) && Step(p, me, s, ev, s')
    ensures Inv(p, s') && s.chain <= s'.chain
  {
    hide Inv, Receive, Mines, Admit, Poll;
    match ev
    case Received(b) => ReceiveKeepsInv(p, s, b);
    case Mined(order, b) => MineKeepsInv(p, me, s, order, b, Next(s'));
    case Admitted(tx, clerkId) => AdmitKeepsInv(p, s, tx, clerkId);
    case Polled(h) => PollKeepsInv(p, s, h);
  }

  /** The invariant holds throughout every run. */
  lemma {:induction false} RunKeepsInv(p: Protocol, me: Address, tr: seq<State>, evs: seq<Event>, k: nat)
    requires Run(p, me, tr, evs) && k < |tr|
    ensures Inv(p, tr[k])
    decreases k
  {
    hide Inv, Boot, Step;
    if k == 0 {
      BootInv(p, tr[0]);
    } else {
      RunKeepsInv(p, me, tr, evs, k - 1);
      StepKeepsInv(p, me, tr[k - 1], evs[k - 1], tr[k]);
    }
  }

  /** The main chain only ever grows at its end. */
  lemma {:induction false} ChainOnlyGrows(p: Protocol, me: Address, tr: seq<State>, evs: seq<Event>, j: nat, k: nat)
    requires Run(p, me, tr, evs) && j <= k < |tr|
    ensures tr[j].chain <= tr[k].chain
    decreases k - j
  {
    hide Inv, Boot, Step;
    if j < k {
      RunKeepsInv(p, me, tr, evs, j);
      StepKeepsInv(p, me, tr[j], evs[j], tr[j + 1]);
      ChainOnlyGrows(p, me, tr, evs, j + 1, k);
    }
  }

  /** Side chains and orphans are never registered and the reorganisation is never entered,
      whatever block arrives at whatever point of whatever run. */
  lemma NeverReorganises(p: Protocol, me: Address, tr: seq<State>, evs: seq<Event>, k: nat, b: Block)
    requires Run(p, me, tr, evs) && k < |tr|
    ensures tr[k].sideChains == [] && tr[k].orphanChains == []
    ensures !Receive(p, tr[k], b).TreeEdit? && !Receive(p, tr[k], b).Reorganise?
    ensures Linked(tr[k].chain)
  {
    hide Run, Receive, History, Agrees, PendingInv;
    RunKeepsInv(p, me, tr, evs, k);
    ReceiveKeepsInv(p, tr[k], b);
  }

  /** The UTXO is a database derived from the blockchain: in every state of every run its
      unspent view is the fold over the chain, and no fully spent entry is kept. */
  lemma UtxoIsDerived(p: Protocol, me: Address, tr: seq<State>, evs: seq<Event>, k: nat)
    requires Run(p, me, tr, evs) && k < |tr|
    ensures Agrees(tr[k].entries, ViewOf(p, tr[k].chain)) && Compact(tr[k].entries)
  {
    RunKeepsInv(p, me, tr, evs, k);
  }

  lemma {:induction false} AllTxsPrefix(a: seq<Block>, b: seq<Block>)
    requires a <= b
    ensures AllTxs(a) <= AllTxs(b)
  {
    if a != b {
      var n := |b| - 1;
      assert a <= b[..n];
      AllTxsPrefix(a, b[..n]);
    }
  }

  /** A transaction reported as appended is on the chain then and ever after. */
  lemma AcknowledgedStays(p: Protocol, me: Address, tr: seq<State>, evs: seq<Event>, j: nat, k: nat, h: Bytes)
    requires Run(p, me, tr, evs) && j <= k < |tr|
    requires h in tr[j].pending && Poll(tr[j], h).1 == Some(true)
    ensures OnChain(p, tr[j].chain, h) && OnChain(p, tr[k].chain, h)
  {
    hide Run, Inv, Poll;
    RunKeepsInv(p, me, tr, evs, j);
    PollKeepsInv(p, tr[j], h);
    ChainOnlyGrows(p, me, tr, evs, j, k);
    AllTxsPrefix(tr[j].chain, tr[k].chain);
    var tx :| tx in AllTxs(tr[j].chain) && TxHash(p, tx) == h;
    assert tx in AllTxs(tr[k].chain);
  }

  // ---------------------------------------------------------------- supply over a chain

  lemma {:induction false} TotalOutConstant(outs: seq<TxOut>, c: nat)
    requires forall o | o in outs :: o.value == c
    ensures TotalOut(outs) == c * |outs|
  {
    if outs != [] {
      TotalOutConstant(outs[..|outs| - 1], c);
    }
  }

  lemma GenesisSupply(p: Protocol, g: Block)
    requires IsGenesis(p, g)
    ensures Sum(ViewOf(p, [g])) == 1000 && LostOn(p, [g]) == 0
  {
    BootTxs(p, g);
    TotalOutConstant(GenesisTx(p).txOuts, 100);
    FirstSupply(p, GenesisTx(p));
  }

  lemma FirstSupply(p: Protocol, tx: Transaction)
    requires tx.txIns == [] && |tx.txOuts| <= TWO32
    ensures Sum(FoldTxs(p, map[], [tx])) == TotalOut(tx.txOuts) && Lost(p, map[], [tx]) == 0
  {
    hide TxHash, Overwritten, FoldOuts, TotalOut;
    var none: View := map[];
    assert none - SpentBy(tx.txIns) == none;
    FreshOverwritesNothing(none, TxHash(p, tx), tx.txOuts);
    SumFoldTx(p, none, tx);
    assert [tx][..0] == [];
  }

  /** The coins that the transactions of a chain replaced: two equal rewards, say, share
      one entry. */
  function LostOn(p: Protocol, chain: seq<Block>): nat {
    Lost(p, map[], AllTxs(chain))
  }

  /** The value of repeated inputs and the overflow of output sums, over a whole chain. */
  function ExcessOn(p: Protocol, chain: seq<Block>): nat {
    if |chain| <= 1 then 0
    else
      var rest, txs := chain[..|chain| - 1], Tip(chain).transactions;
      ExcessOn(p, rest) + Repeats(ViewOf(p, rest), Inputs(txs)) + Overflow(txs)
  }

  /** Distinct inputs, and output sums that fit 32 bits. */
  ghost predicate PlainBlock(b: Block) {
    && DistinctInputs(Inputs(b.transactions))
    && forall tx | tx in b.transactions :: TotalOut(tx.txOuts) < TWO32
  }

  /** What a chain may issue: the genesis, the rewards and two fees per ordinary
      transaction. */
  function MaxSupply(chain: seq<Block>): nat {
    if |chain| <= 1 then 1000
    else
      var n := if Tip(chain).transactions == [] then 0 else |Ordinary(Tip(chain))|;
      MaxSupply(chain[..|chain| - 1]) + TX_COINBASE + 2 * n * TX_FEE
  }

  lemma ViewOfLast(p: Protocol, chain: seq<Block>)
    requires chain != []
    ensures ViewOf(p, chain) == FoldTxs(p, ViewOf(p, chain[..|chain| - 1]), Tip(chain).transactions)
    ensures LostOn(p, chain)
         == LostOn(p, chain[..|chain| - 1]) + Lost(p, ViewOf(p, chain[..|chain| - 1]), Tip(chain).transactions)
  {
    var rest := chain[..|chain| - 1];
    assert chain == rest + [Tip(chain)];
    FoldConcat(p, map[], AllTxs(rest), Tip(chain).transactions);
    LostConcat(p, map[], AllTxs(rest), Tip(chain).transactions);
  }

  ghost predicate Grown(p: Protocol, chain: seq<Block>) {
    && chain != []
    && IsGenesis(p, chain[0])
    && forall k | 1 <= k < |chain| :: History(p, chain, k)
  }

  lemma GrownPrefix(p: Protocol, chain: seq<Block>)
    requires Grown(p, chain) && |chain| > 1
    ensures Grown(p, chain[..|chain| - 1])
  {
    hide IsGenesis;
    var rest := chain[..|chain| - 1];
    forall k | 1 <= k < |rest|
      ensures History(p, rest, k)
    {
      assert History(p, chain, k);
      assert rest[..k] == chain[..k];
    }
  }

  /** No chain ever holds more than it may issue, but for repeated inputs and overflows. */
  lemma {:induction false} SupplyIsBounded(p: Protocol, chain: seq<Block>)
    requires Grown(p, chain)
    ensures Sum(ViewOf(p, chain)) <= MaxSupply(chain) + ExcessOn(p, chain)
  {
    hide History, IsGenesis, ViewOf, Repeats, Overflow;
    if |chain| == 1 {
      assert chain == [chain[0]];
      GenesisSupply(p, chain[0]);
    } else {
      GrownPrefix(p, chain);
      SupplyIsBounded(p, chain[..|chain| - 1]);
      LastBlockBound(p, chain);
    }
  }

  lemma LastBlockBound(p: Protocol, chain: seq<Block>)
    requires |chain| > 1 && History(p, chain, |chain| - 1)
    ensures Tip(chain).transactions != []
    ensures var v := ViewOf(p, chain[..|chain| - 1]);
      Sum(ViewOf(p, chain)) <= Sum(v) + TX_COINBASE + 2 * |Ordinary(Tip(chain))| * TX_FEE
                               + Repeats(v, Inputs(Tip(chain).transactions)) + Overflow(Tip(chain).transactions)
  {
    hide Agrees, ViewOf, CheckTx;
    var rest := chain[..|chain| - 1];
    ViewOfLast(p, chain);
    var e: Entries :| Agrees(e, ViewOf(p, rest)) && Settles(p, AllTxs(rest), e, Tip(chain));
    BlockSupplyBound(p, AllTxs(rest), e, ViewOf(p, rest), Tip(chain));
  }

  lemma {:induction false} PlainChainsExceedNothing(p: Protocol, chain: seq<Block>)
    requires forall k | 1 <= k < |chain| :: PlainBlock(chain[k])
    ensures ExcessOn(p, chain) == 0
  {
    hide ViewOf, Repeats, Overflow, DistinctInputs, TotalOut;
    if |chain| > 1 {
      PlainChainsExceedNothing(p, chain[..|chain| - 1]);
      assert PlainBlock(Tip(chain));
      DistinctRepeatNothing(ViewOf(p, chain[..|chain| - 1]), Inputs(Tip(chain).transactions));
      NoOverflow(Tip(chain).transactions);
    }
  }

  /** When every transaction pays exactly the fee, each block issues exactly the mining
      reward, less the coins it replaces. */
  lemma {:induction false} SupplyIsExact(p: Protocol, chain: seq<Block>)
    requires Grown(p, chain)
    requires forall k | 1 <= k < |chain| ::
          chain[k].transactions != [] && BalancedBlock(p, ViewOf(p, chain[..k]), chain[k])
    ensures Sum(ViewOf(p, chain)) + LostOn(p, chain) == 1000 + TX_COINBASE * (|chain| - 1)
  {
    hide History, BalancedBlock, IsGenesis, ViewOf, LostOn;
    if |chain| == 1 {
      assert chain == [chain[0]];
      GenesisSupply(p, chain[0]);
    } else {
      var n := |chain| - 1;
      GrownPrefix(p, chain);
      forall k | 1 <= k < n
        ensures chain[..n][k].transactions != [] && BalancedBlock(p, ViewOf(p, chain[..n][..k]), chain[..n][k])
      {
        assert chain[..n][..k] == chain[..k];
      }
      SupplyIsExact(p, chain[..n]);
      LastBlockExact(p, chain);
    }
  }

  lemma LastBlockExact(p: Protocol, chain: seq<Block>)
    requires |chain| > 1 && History(p, chain, |chain| - 1)
    requires Tip(chain).transactions != [] && BalancedBlock(p, ViewOf(p, chain[..|chain| - 1]), Tip(chain))
    ensures Sum(ViewOf(p, chain)) + LostOn(p, chain)
         == Sum(ViewOf(p, chain[..|chain| - 1])) + LostOn(p, chain[..|chain| - 1]) + TX_COINBASE
  {
    hide Agrees, Settles, BalancedBlock, ViewOf, LostOn;
    var rest := chain[..|chain| - 1];
    ViewOfLast(p, chain);
    var e: Entries :| Agrees(e, ViewOf(p, rest)) && Settles(p, AllTxs(rest), e, Tip(chain));
    BlockSupplyExact(p, AllTxs(rest), e, ViewOf(p, rest), Tip(chain));
  }

  /** The results for every state of every run. */
  lemma RunSupply(p: Protocol, me: Address, tr: seq<State>, evs: seq<Event>, k: nat)
    requires Run(p, me, tr, evs) && k < |tr|
    ensures var chain := tr[k].chain;
      && Sum(ViewOf(p, chain)) <= MaxSupply(chain) + ExcessOn(p, chain)
      && ((forall j | 1 <= j < |chain| :: PlainBlock(chain[j])) ==> Sum(ViewOf(p, chain)) <= MaxSupply(chain))
  {
    hide Run, PlainBlock, ViewOf, MaxSupply, ExcessOn, Sum, PendingInv, Agrees, Compact, History;
    RunKeepsInv(p, me, tr, evs, k);
    var chain := tr[k].chain;
    SupplyIsBounded(p, chain);
    if forall j | 1 <= j < |chain| :: PlainBlock(chain[j]) {
      PlainChainsExceedNothing(p, chain);
    }
  }

  lemma RunSupplyExact(p: Protocol, me: Address, tr: seq<State>, evs: seq<Event>, k: nat)
    requires Run(p, me, tr, evs) && k < |tr|
    requires var chain := tr[k].chain;
      forall j | 1 <= j < |chain| :: chain[j].transactions != [] && BalancedBlock(p, ViewOf(p, chain[..j]), chain[j])
    ensures var chain := tr[k].chain;
      && Sum(ViewOf(p, chain)) + LostOn(p, chain) == 1000 + TX_COINBASE * (|chain| - 1)
      && (AllFresh(p, map[], AllTxs(chain)) ==> Sum(ViewOf(p, chain)) == 1000 + TX_COINBASE * (|chain| - 1))
  {
    hide Run, BalancedBlock, ViewOf, Sum, PendingInv, Agrees, Compact, History, AllFresh, Lost;
    RunKeepsInv(p, me, tr, evs, k);
    SupplyIsExact(p, tr[k].chain);
    if AllFresh(p, map[], AllTxs(tr[k].chain)) {
      FreshLosesNothing(p, map[], AllTxs(tr[k].chain));
    }
  }

  // ---------------------------------------------------------------- threads

  predicate IsContent(tx: Transaction) {
    tx.kind == POST || tx.kind == COMMENT
  }

  predicate IsReply(tx: Transaction) {
    tx.kind == COMMENT || tx.kind == UPVOTE
  }

  lemma BlockTxs(p: Protocol, chain: seq<Block>, k: nat, tx: Transaction)
    requires Grown(p, chain) && k < |chain| && tx in chain[k].transactions && tx.kind != COINBASE
    ensures k >= 1 && exists e: Entries :: CheckTx(p, AllTxs(chain[..k]), e, tx) == Accept
  {
    hide CheckTx, ViewOf, Agrees, Sealed, LeastWorking, AllTxs;
    assert k != 0;
    assert History(p, chain, k);
    var e: Entries :| Agrees(e, ViewOf(p, chain[..k])) && Settles(p, AllTxs(chain[..k]), e, chain[k]);
    assert tx in Ordinary(chain[k]) by {
      assert chain[k].transactions == Ordinary(chain[k]) + [Reward(chain[k])];
    }
  }

  /** Every comment or upvote names a post or a comment in a strictly earlier block. */
  lemma ParentIsEarlier(p: Protocol, chain: seq<Block>, k: nat, tx: Transaction)
    requires Grown(p, chain) && k < |chain| && tx in chain[k].transactions && IsReply(tx)
    ensures exists parent :: parent in AllTxs(chain[..k]) && TxHash(p, parent) == tx.parent && IsContent(parent)
  {
    hide Grown, CheckTx, AllTxs, TxHash;
    BlockTxs(p, chain, k, tx);
    var e: Entries :| CheckTx(p, AllTxs(chain[..k]), e, tx) == Accept;
    AcceptedTxParent(p, AllTxs(chain[..k]), e, tx);
  }

  /** Posts and comments on the chain have their single output, so the author is defined. */
  lemma ContentHasAuthor(p: Protocol, chain: seq<Block>, k: nat, tx: Transaction)
    requires Grown(p, chain) && k < |chain| && tx in chain[k].transactions && IsContent(tx)
    ensures |tx.txOuts| == 1
  {
    hide Grown, AllTxs, ScanInputs, CheckParent;
    BlockTxs(p, chain, k, tx);
  }

  /** What an accepted transaction looks like: addresses of 20 bytes, hashes of 32, and a
      parent exactly when it is a comment or an upvote. */
  ghost predicate WellShaped(tx: Transaction) {
    && tx.txIns != [] && tx.txOuts != []
    && (forall o | o in tx.txOuts :: |o.pubKeyHash| == 20)
    && (forall i | i in tx.txIns :: |i.prevTxHash| == 32)
    && (tx.parent != [] <==> tx.kind == COMMENT || tx.kind == UPVOTE)
  }

  lemma AcceptedIsWellShaped(p: Protocol, past: seq<Transaction>, e: Entries, tx: Transaction)
    requires CheckTx(p, past, e, tx) == Accept
    ensures WellShaped(tx)
  {
    hide CheckParent;
    ScanEnds(p, e, tx, tx.txIns);
    assert CheckInput(p, e, tx, tx.txIns[0]) == Accept;
  }

  /** Every block of a grown chain but the first is made of well-shaped transactions and, last,
      a reward without inputs, parent or content. */
  lemma BlocksAreWellShaped(p: Protocol, chain: seq<Block>, k: nat)
    requires Grown(p, chain) && 1 <= k < |chain|
    ensures chain[k].transactions != [] && forall tx | tx in Ordinary(chain[k]) :: WellShaped(tx)
    ensures var r := Reward(chain[k]);
      && r.kind == COINBASE && r.txIns == [] && |r.txOuts| == 1 && r.parent == [] && r.content == []
      && r.txOuts[0].value == (|Ordinary(chain[k])| * TX_FEE + TX_COINBASE) % TWO32
  {
    hide ViewOf, Agrees, CheckTx, AllTxs, WellShaped;
    assert History(p, chain, k);
    var e: Entries :| Agrees(e, ViewOf(p, chain[..k])) && Settles(p, AllTxs(chain[..k]), e, chain[k]);
    forall tx | tx in Ordinary(chain[k])
      ensures WellShaped(tx)
    {
      AcceptedIsWellShaped(p, AllTxs(chain[..k]), e, tx);
    }
  }

  lemma {:induction false} AllTxsMember(chain: seq<Block>, tx: Transaction)
    ensures tx in AllTxs(chain) <==> exists k :: 0 <= k < |chain| && tx in chain[k].transactions
  {
    if chain != [] {
      var n := |chain| - 1;
      AllTxsMember(chain[..n], tx);
      if tx in AllTxs(chain[..n]) {
        var k :| 0 <= k < n && tx in chain[..n][k].transactions;
        assert tx in chain[k].transactions;
      }
      forall k | 0 <= k < |chain| && tx in chain[k].transactions
        ensures tx in AllTxs(chain)
      {
        if k < n {
          assert chain[..n][k] == chain[k];
        }
      }
    }
  }

  /** On a grown chain the only way for the transaction check to panic is an input that
      names an entry of the index but no output of it, after inputs that all pass. */
  lemma CheckTxPanicsExactly(p: Protocol, chain: seq<Block>, e: Entries, tx: Transaction)
    requires Grown(p, chain)
    ensures CheckTx(p, AllTxs(chain), e, tx) == Panic <==> tx.txOuts != [] && Dangling(p, e, tx, tx.txIns)
  {
    hide Grown, Dangling, ScanInputs, FindTx;
    ScanPanicsExactly(p, e, tx, tx.txIns);
    NothingDangles(p, e, tx);
    if tx.txOuts != [] {
      ParentIsGuarded(p, chain, tx);
    }
  }

  lemma NothingDangles(p: Protocol, e: Entries, tx: Transaction)
    ensures !Dangling(p, e, tx, [])
  {
  }

  /** The parent of an upvote has an output to compare with. */
  lemma ParentIsGuarded(p: Protocol, chain: seq<Block>, tx: Transaction)
    requires Grown(p, chain) && tx.txOuts != []
    ensures CheckParent(p, AllTxs(chain), tx) != Panic
  {
    hide Grown;
    if FindTx(p, AllTxs(chain), tx.parent).Some? {
      var parent := FindTx(p, AllTxs(chain), tx.parent).value;
      FindTxIsFirst(p, AllTxs(chain), tx.parent);
      assert parent in AllTxs(chain);
      AllTxsMember(chain, parent);
      if IsContent(parent) {
        var k :| 0 <= k < |chain| && parent in chain[k].transactions;
        ContentHasAuthor(p, chain, k, parent);
      }
    }
  }
}
