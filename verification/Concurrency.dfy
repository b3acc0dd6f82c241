/** What holds in every interleaving of the handlers: each is a run of the sequential
    machine, the miner's second look at the tip never fails, readers see whole blocks,
    acknowledgements are durable, and there is no deadlock. */
module Concurrency {
  import opened Wire
  import opened Transactions
  import opened Merkle
  import opened Blocks
  import opened Utxo
  import opened Validation
  import opened Ledger
  import opened Invariants
  import opened Interleaving

  // ---------------------------------------------------------------- the invariant

  /** The miner's selection, made from the committed ledger. */
  ghost predicate Collected(p: Protocol, c: State, s: State, order: seq<Bytes>, keys: seq<Bytes>) {
    && IsOrder(order, c.pending)
    && Collect(p, AllTxs(c.chain), c.entries, c.pending, order) == Batch(keys, s.pending)
    && s == c.(pending := s.pending)
    && AllIn(keys, s.pending)
  }

  /** The block under work: complete but for a nonce, and no smaller nonce works. */
  ghost predicate Working(p: Protocol, me: Address, c: State, s: State, keys: seq<Bytes>, t: Block)
    requires AllIn(keys, s.pending)
  {
    && t.prevBlock == PrevHash(c.chain)
    && t.transactions == TxsOf(s.pending, keys) + [MakeCoinbaseTx(|keys|, me)]
    && t.merkleRoot == MerkleRoot(p, t.transactions)
    && t.bits == p.difficulty
    && forall n: U32 | n < t.nonce :: !Works(p, t, n)
  }

  ghost predicate Candidate(p: Protocol, me: Address, c: State, s: State, keys: seq<Bytes>, b: Block)
    requires AllIn(keys, s.pending)
  {
    Generated(p, PrevHash(c.chain), TxsOf(s.pending, keys), me, b)
  }

  /** A received block with its first `n` transactions entered in index and table. */
  ghost predicate RecvPartly(p: Protocol, c: State, s: State, b: Block, n: nat) {
    && n <= |b.transactions|
    && s == Appended(c, b).(entries := s.entries, pending := MarkSuccess(p, c.pending, b.transactions[..n]))
    && ApplyTxs(p, c.entries, b.transactions[..n]) == Some(s.entries)
  }

  /** A mined block with its first `n` transactions entered. */
  ghost predicate MinePartly(p: Protocol, s0: State, s: State, keys: seq<Bytes>, b: Block, n: nat)
    requires AllIn(keys, s0.pending)
  {
    && n <= |b.transactions|
    && s == Appended(s0, b).(
         entries := s.entries,
         pending := MarkKeys(s0.pending, if n < |keys| then keys[..n] else keys))
    && ApplyTxs(p, s0.entries, b.transactions[..n]) == Some(s.entries)
  }

  ghost predicate MineEntering(p: Protocol, me: Address, c: State, s: State, o: seq<Bytes>, k: seq<Bytes>, b: Block,
      n: nat) {
    exists s0: State :: Collected(p, c, s0, o, k) && Candidate(p, me, c, s0, k, b) && MinePartly(p, s0, s, k, b, n)
  }

  /** How far the holder of `mu` has taken the shared ledger `s` from the committed `c`. */
  ghost predicate Local(p: Protocol, me: Address, c: State, s: State, pc: Pc) {
    match pc
    case RecvUtxo(b) => s == Appended(c, b) && ValidateBlock(p, b) == Accept && Extends(c.chain, b) &&
      CheckExtension(p, c, b) == Accept
    case RecvApply(b, n) => RecvPartly(p, c, s, b, n) && ValidateBlock(p, b) == Accept && Extends(c.chain, b) &&
      CheckExtension(p, c, b) == Accept
    case RecvOut(b) => Receive(p, c, b) == Next(s)
    case RecvUnlock(b) => Receive(p, c, b) == Next(s)
    case RecvLast(b) => Receive(p, c, b) == Next(s)
    case MineBc(o, k) => Collected(p, c, s, o, k)
    case MineRead(o, k) => Collected(p, c, s, o, k)
    case MineFree(o, k, prev) => Collected(p, c, s, o, k) && prev == PrevHash(c.chain)
    case MineWork(o, k, t) => Collected(p, c, s, o, k) && Working(p, me, c, s, k, t)
    case MineAgain(o, k, b) => Collected(p, c, s, o, k) && Candidate(p, me, c, s, k, b)
    case MineCheck(o, k, b) => Collected(p, c, s, o, k) && Candidate(p, me, c, s, k, b)
    case MineUtxo(o, k, b) =>
      var s0 := c.(pending := s.pending);
      s == Appended(s0, b) && Collected(p, c, s0, o, k) && Candidate(p, me, c, s0, k, b)
    case MineApply(o, k, b, n) => MineEntering(p, me, c, s, o, k, b, n)
    case MineOut(o, b) => Mines(p, me, c, o, b, Next(s))
    case MineUnlock(o, b) => Mines(p, me, c, o, b, Next(s))
    case MineLast(o, b) => Mines(p, me, c, o, b, Next(s))
    case AppAdmitted(tx, cl, h) => Admit(p, c, tx, cl) == (s, true) && h == TxHash(p, tx) && h in s.pending
    case AppRefused(tx, cl, h) => Admit(p, c, tx, cl) == (s, false) && h == TxHash(p, tx)
    case AppReply(h, ok) => h in c.pending && Poll(c, h) == (s, Some(ok))
    case _ => s == c
  }

  /** What a handler may count on whoever runs: a waiting request stays in the table, an
      acknowledged transaction is on the committed chain. */
  ghost predicate Promise(p: Protocol, c: State, s: State, pc: Pc) {
    match pc
    case AppPeers(h) => h in s.pending
    case AppFlood(h) => h in s.pending
    case AppWait(h) => h in s.pending
    case AppLook(h) => h in s.pending
    case AppNotYet(h) => h in s.pending
    case Replied(h, ok) => ok ==> OnChain(p, c.chain, h)
    case _ => true
  }

  ghost predicate Exclusive(threads: seq<Pc>) {
    forall i, j | 0 <= i < j < |threads| :: Holds(threads[i]) !! Holds(threads[j])
  }

  /** Some run of the sequential machine ends in `s`. */
  ghost predicate Reached(p: Protocol, me: Address, s: State) {
    exists tr: seq<State>, evs: seq<Event> :: tr != [] && Run(p, me, tr, evs) && tr[|tr| - 1] == s
  }

  ghost predicate SysInv(p: Protocol, me: Address, sys: Sys) {
    && Exclusive(sys.threads)
    && Reached(p, me, sys.committed)
    && (Free(sys, Mu) ==> sys.shared == sys.committed)
    && (forall t | 0 <= t < |sys.threads| && Mu in Holds(sys.threads[t]) ::
      Local(p, me, sys.committed, sys.shared, sys.threads[t]))
    && (forall t | 0 <= t < |sys.threads| :: Promise(p, sys.committed, sys.shared, sys.threads[t]))
  }

  // ---------------------------------------------------------------- sequential runs

  lemma ReachedInv(p: Protocol, me: Address, s: State)
    requires Reached(p, me, s)
    ensures Inv(p, s)
  {
    hide Inv, Run;
    var tr, evs :| tr != [] && Run(p, me, tr, evs) && tr[|tr| - 1] == s;
    RunLength(p, me, tr, evs);
    RunKeepsInv(p, me, tr, evs, |tr| - 1);
  }

  lemma RunLength(p: Protocol, me: Address, tr: seq<State>, evs: seq<Event>)
    requires Run(p, me, tr, evs)
    ensures |tr| == |evs| + 1
  {
  }

  lemma ReachedStep(p: Protocol, me: Address, s: State, ev: Event, s': State)
    requires Reached(p, me, s) && Step(p, me, s, ev, s')
    ensures Reached(p, me, s') && s.chain <= s'.chain
  {
    hide Boot, Step, Inv;
    var tr, evs :| tr != [] && Run(p, me, tr, evs) && tr[|tr| - 1] == s;
    var tr', evs' := tr + [s'], evs + [ev];
    assert Run(p, me, tr', evs');
    ReachedInv(p, me, s);
    StepKeepsInv(p, me, s, ev, s');
  }

  // ---------------------------------------------------------------- a step under `mu`

  /** The outcome of a step by the holder of `mu`: it keeps the lock and the relation, or
      it gives the lock up and what it leaves is a step of the sequential machine. */
  ghost predicate Advances(p: Protocol, me: Address, c: State, s: State, s': State, pc': Pc) {
    if Mu in Holds(pc') then Local(p, me, c, s', pc')
    else s' == s && (s == c || exists ev :: Step(p, me, c, ev, s))
  }

  lemma RecvAdvances(p: Protocol, me: Address, c: State, s: State, pc: Pc)
    requires Local(p, me, c, s, pc) && RecvMove(p, s, pc).Go?
    ensures var m := RecvMove(p, s, pc); Advances(p, me, c, s, m.shared, m.pc)
  {
    hide Local, Advances, Receive, ValidateBlock, CheckExtension, ApplyTx, Extends, Appended, MarkTx;
    match pc
    case RecvBody(b) => RecvBodyAdvances(p, me, c, s, b);
    case RecvApply(b, n) => RecvApplyAdvances(p, me, c, s, b, n);
    case RecvOut(b) => RecvEndAdvances(p, me, c, s, b);
    case RecvUnlock(b) => RecvEndAdvances(p, me, c, s, b);
    case RecvLast(b) => RecvEndAdvances(p, me, c, s, b);
    case _ =>
  }

  lemma RecvBodyAdvances(p: Protocol, me: Address, c: State, s: State, b: Block)
    requires Local(p, me, c, s, RecvBody(b)) && RecvMove(p, s, RecvBody(b)).Go?
    ensures var m := RecvMove(p, s, RecvBody(b)); Advances(p, me, c, s, m.shared, m.pc)
  {
    hide ValidateBlock, CheckExtension, Receive, Extends, Appended;
  }

  lemma RecvApplyAdvances(p: Protocol, me: Address, c: State, s: State, b: Block, n: nat)
    requires Local(p, me, c, s, RecvApply(b, n)) && RecvMove(p, s, RecvApply(b, n)).Go?
    ensures var m := RecvMove(p, s, RecvApply(b, n)); Advances(p, me, c, s, m.shared, m.pc)
  {
    hide ValidateBlock, CheckExtension, Receive, Extends, RecvPartly, ApplyTx, MarkTx;
    RecvOneMore(p, c, s, b, n);
  }

  lemma RecvEndAdvances(p: Protocol, me: Address, c: State, s: State, b: Block)
    ensures Local(p, me, c, s, RecvOut(b)) ==> Advances(p, me, c, s, s, RecvUnlock(b))
    ensures Local(p, me, c, s, RecvUnlock(b)) ==> Advances(p, me, c, s, s, RecvLast(b))
    ensures Local(p, me, c, s, RecvLast(b)) ==> Advances(p, me, c, s, s, Finished)
  {
    hide Receive, Mines, Admit, Poll;
    if Receive(p, c, b) == Next(s) {
      assert Step(p, me, c, Received(b), s);
    }
  }

  lemma RecvOneMore(p: Protocol, c: State, s: State, b: Block, n: nat)
    requires RecvPartly(p, c, s, b, n)
    ensures n <= |b.transactions|
    ensures n < |b.transactions| && ApplyTx(p, s.entries, b.transactions[n]).Some? ==>
            RecvPartly(p, c, s.(
              entries := ApplyTx(p, s.entries, b.transactions[n]).value,
              pending := MarkTx(p, s.pending, b.transactions[n])), b, n + 1)
    ensures n == |b.transactions| ==>
            ValidateBlock(p, b) == Accept && Extends(c.chain, b) && CheckExtension(p, c, b) == Accept ==>
            Receive(p, c, b) == Next(s)
  {
    hide ValidateBlock, CheckExtension, ApplyTx, MarkTx;
    if n < |b.transactions| {
      assert b.transactions[..n + 1][..n] == b.transactions[..n];
    } else {
      assert b.transactions[..n] == b.transactions;
    }
  }

  lemma RecvBegins(p: Protocol, c: State, b: Block)
    ensures RecvPartly(p, c, Appended(c, b), b, 0)
  {
  }

  lemma MineBeginAdvances(p: Protocol, me: Address, c: State, s: State, pc: Pc, ch: Choice)
    requires Local(p, me, c, s, pc) && MineMove(p, me, s, pc, ch).Go?
    requires pc.MineCollect? || pc.MineIdle? || pc.MineRead? || pc.MineFree?
    ensures var m := MineMove(p, me, s, pc, ch); Advances(p, me, c, s, m.shared, m.pc)
  {
    hide CheckTx, MerkleRoot, IsOrder, Works, TxsOf, MakeCoinbaseTx, PrevHash, Collect;
    match pc
    case MineCollect =>
      if ch.enough {
        CollectKeys(p, AllTxs(s.chain), s.entries, s.pending, ch.order);
      }
    case _ =>
  }

  lemma WorkAdvances(p: Protocol, me: Address, c: State, s: State, o: seq<Bytes>, k: seq<Bytes>, t: Block, ch: Choice)
    requires Collected(p, c, s, o, k) && Working(p, me, c, s, k, t)
    ensures var m := MineMove(p, me, s, MineWork(o, k, t), ch); m.Go? && Advances(p, me, c, s, m.shared, m.pc)
  {
    hide Collected, PrevHash, MerkleRoot;
    if Works(p, t, t.nonce) {
      var b := t.(blockHash := p.hash(Header(t)));
      SameHeaderWork(p, t, b);
      assert Header(b) == Header(t);
    } else {
      var t' := t.(nonce := Wrap(t.nonce + 1));
      SameHeaderWork(p, t, t');
    }
  }

  /** Nobody else can move the tip while the miner holds `mu`, so the block it generated
      still extends the chain when it takes `bcmu` again. */
  lemma SecondLookSucceeds(p: Protocol, me: Address, c: State, s: State, o: seq<Bytes>, k: seq<Bytes>, b: Block)
    requires Inv(p, c) && Local(p, me, c, s, MineCheck(o, k, b))
    ensures Extends(s.chain, b) && s == c.(pending := s.pending)
  {
    hide Agrees, History, PendingInv, Sealed, LeastWorking, Collect;
    ReadTipExtends(p, c.chain, b);
  }

  lemma MineEndAdvances(p: Protocol, me: Address, c: State, s: State, pc: Pc, ch: Choice)
    requires Inv(p, c) && Local(p, me, c, s, pc) && MineMove(p, me, s, pc, ch).Go?
    requires pc.MineCheck? || pc.MineApply? || pc.MineOut? || pc.MineUnlock? || pc.MineLast?
    ensures var m := MineMove(p, me, s, pc, ch); Advances(p, me, c, s, m.shared, m.pc)
  {
    hide Inv, Collected, Candidate, ApplyTxs, ApplyTx, Mines, MarkKeys, MarkKey, MineEntering;
    match pc
    case MineCheck(o, k, b) => SecondLookSucceeds(p, me, c, s, o, k, b);
    case MineApply(o, k, b, n) => EnteringAdvances(p, me, c, s, o, k, b, n);
    case MineLast(o, b) => assert Step(p, me, c, Mined(o, b), s);
    case _ =>
  }

  /** One more transaction entered, or the whole block. */
  lemma EnteringAdvances(p: Protocol, me: Address, c: State, s: State, o: seq<Bytes>, k: seq<Bytes>, b: Block, n: nat)
    requires Inv(p, c) && MineEntering(p, me, c, s, o, k, b, n)
    ensures n <= |b.transactions|
    ensures n == |b.transactions| ==> Mines(p, me, c, o, b, Next(s))
    ensures n < |b.transactions| && n < |k| ==> k[n] in s.pending
    ensures n < |b.transactions| && ApplyTx(p, s.entries, b.transactions[n]).Some? ==>
            MineEntering(p, me, c, s.(
              entries := ApplyTx(p, s.entries, b.transactions[n]).value,
              pending := if n < |k| then MarkKey(s.pending, k[n]) else s.pending), o, k, b, n + 1)
  {
    hide Inv, ApplyTx, ApplyTxs, Mines, MarkKeys, MarkKey, Candidate, Collect, IsOrder;
    var s0: State :| Collected(p, c, s0, o, k) && Candidate(p, me, c, s0, k, b) && MinePartly(p, s0, s, k, b, n);
    if n == |b.transactions| {
      ApplyIsMined(p, me, c, s0, s, o, k, b);
    } else {
      MineOneMore(p, me, c, s0, s, k, b, n);
    }
  }

  lemma MineOneMore(p: Protocol, me: Address, c: State, s0: State, s: State, k: seq<Bytes>, b: Block, n: nat)
    requires AllIn(k, s0.pending) && Candidate(p, me, c, s0, k, b) && MinePartly(p, s0, s, k, b, n) &&
      n < |b.transactions|
    ensures n < |k| ==> k[n] in s.pending
    ensures ApplyTx(p, s.entries, b.transactions[n]).Some? ==>
            MinePartly(p, s0, s.(
              entries := ApplyTx(p, s.entries, b.transactions[n]).value,
              pending := if n < |k| then MarkKey(s.pending, k[n]) else s.pending), k, b, n + 1)
  {
    hide ApplyTx, Sealed, LeastWorking, TxsOf, MakeCoinbaseTx;
    assert b.transactions[..n + 1][..n] == b.transactions[..n];
    if n < |k| {
      assert k[n] in k;
      OneMoreKey(s0.pending, k, n);
    }
    assert |b.transactions| == |k| + 1;
  }

  lemma EnteringBegins(p: Protocol, me: Address, c: State, s: State, o: seq<Bytes>, k: seq<Bytes>, b: Block)
    requires Local(p, me, c, s, MineUtxo(o, k, b))
    ensures MineEntering(p, me, c, s, o, k, b, 0)
  {
    hide Candidate, Collect, IsOrder;
    var s0 := c.(pending := s.pending);
    assert MarkKeys(s0.pending, []) == s0.pending;
    assert k == [] ==> k[..0] == k;
    assert MinePartly(p, s0, s, k, b, 0);
  }

  lemma ApplyIsMined(p: Protocol, me: Address, c: State, s0: State, s: State, o: seq<Bytes>, k: seq<Bytes>, b: Block)
    requires Inv(p, c) && Collected(p, c, s0, o, k) && Candidate(p, me, c, s0, k, b)
    requires MinePartly(p, s0, s, k, b, |b.transactions|)
    ensures Mines(p, me, c, o, b, Next(s))
  {
    hide Inv, Generated, Collect, ApplyTxs, IsOrder, MarkKeys, PrevHash, TxsOf;
    SecondLookSucceeds(p, me, c, s0, o, k, b);
    CollectKeys(p, AllTxs(c.chain), c.entries, c.pending, o);
    assert b.transactions[..|b.transactions|] == b.transactions;
    MinedLength(p, me, c, s0, k, b);
  }

  lemma MinedLength(p: Protocol, me: Address, c: State, s0: State, k: seq<Bytes>, b: Block)
    requires AllIn(k, s0.pending) && Candidate(p, me, c, s0, k, b)
    ensures |b.transactions| == |k| + 1
  {
    hide Sealed, LeastWorking, MakeCoinbaseTx;
  }

  lemma AppAdvances(p: Protocol, me: Address, c: State, s: State, pc: Pc)
    requires Local(p, me, c, s, pc) && AppMove(p, s, pc).Go? && Mu in Holds(pc)
    ensures var m := AppMove(p, s, pc); Advances(p, me, c, s, m.shared, m.pc)
  {
    hide Local, Advances, TxHash, Admit, Poll;
    match pc
    case AppBody(tx, cl) => AppBodyAdvances(p, me, c, s, tx, cl);
    case AppAdmitted(tx, cl, h) => AppAdmittedAdvances(p, me, c, s, tx, cl, h);
    case AppRefused(tx, cl, h) => AppRefusedAdvances(p, me, c, s, tx, cl, h);
    case AppLook(h) => AppLookAdvances(p, me, c, s, h);
    case AppNotYet(h) => AppNotYetAdvances(p, me, c, s, h);
    case AppReply(h, ok) => AppReplyAdvances(p, me, c, s, h, ok);
    case _ =>
  }

  lemma AppBodyAdvances(p: Protocol, me: Address, c: State, s: State, tx: Transaction, cl: int)
    requires Local(p, me, c, s, AppBody(tx, cl))
    ensures var m := AppMove(p, s, AppBody(tx, cl)); m.Go? && Advances(p, me, c, s, m.shared, m.pc)
  {
    hide TxHash, Admit;
    AdmitTakes(p, s, tx, cl);
  }

  lemma AppAdmittedAdvances(p: Protocol, me: Address, c: State, s: State, tx: Transaction, cl: int, h: Bytes)
    requires Local(p, me, c, s, AppAdmitted(tx, cl, h))
    ensures Advances(p, me, c, s, s, AppPeers(h))
  {
    hide Admit, Receive, Mines, Poll;
    assert Step(p, me, c, Admitted(tx, cl), s);
  }

  lemma AppRefusedAdvances(p: Protocol, me: Address, c: State, s: State, tx: Transaction, cl: int, h: Bytes)
    requires Local(p, me, c, s, AppRefused(tx, cl, h))
    ensures Advances(p, me, c, s, s, Replied(h, false))
  {
    hide Admit, Receive, Mines, Poll;
    assert Step(p, me, c, Admitted(tx, cl), s);
  }

  lemma AppLookAdvances(p: Protocol, me: Address, c: State, s: State, h: Bytes)
    requires Local(p, me, c, s, AppLook(h)) && AppMove(p, s, AppLook(h)).Go?
    ensures var m := AppMove(p, s, AppLook(h)); Advances(p, me, c, s, m.shared, m.pc)
  {
    hide Poll;
    PollWaits(s, h);
  }

  lemma AppNotYetAdvances(p: Protocol, me: Address, c: State, s: State, h: Bytes)
    requires Local(p, me, c, s, AppNotYet(h))
    ensures Advances(p, me, c, s, s, AppWait(h))
  {
  }

  lemma AppReplyAdvances(p: Protocol, me: Address, c: State, s: State, h: Bytes, ok: bool)
    requires Local(p, me, c, s, AppReply(h, ok))
    ensures Advances(p, me, c, s, s, Replied(h, ok))
  {
    hide Receive, Mines, Poll, Admit;
    assert Step(p, me, c, Polled(h), s);
  }

  lemma AdmitTakes(p: Protocol, s: State, tx: Transaction, clerkId: int)
    ensures s.pending.Keys <= Admit(p, s, tx, clerkId).0.pending.Keys
    ensures Admit(p, s, tx, clerkId).1 ==> TxHash(p, tx) in Admit(p, s, tx, clerkId).0.pending
  {
  }

  lemma PollWaits(s: State, h: Bytes)
    requires h in s.pending
    ensures Poll(s, h).1 == None ==> Poll(s, h).0 == s
    ensures Poll(s, h).0.pending.Keys == s.pending.Keys
  {
  }

  /** A step by a handler that holds `mu`, whichever it is. */
  lemma HolderAdvances(p: Protocol, me: Address, c: State, s: State, pc: Pc, ch: Choice)
    requires Inv(p, c) && Local(p, me, c, s, pc) && Mu in Holds(pc) && Act(p, me, s, pc, ch).Go?
    ensures var m := Act(p, me, s, pc, ch); Advances(p, me, c, s, m.shared, m.pc)
  {
    hide Inv, Advances, RecvMove, MineMove, AppMove, Local;
    if Wants(pc).Some? {
      WaiterAdvances(p, me, c, s, pc);
    } else if RecvMove(p, s, pc) != Impossible {
      RecvAdvances(p, me, c, s, pc);
    } else if MineMove(p, me, s, pc, ch) != Impossible {
      MineAdvances(p, me, c, s, pc, ch);
    } else if AppMove(p, s, pc) != Impossible {
      AppAdvances(p, me, c, s, pc);
    } else {
      ReaderAdvances(p, me, c, s, pc);
    }
  }

  lemma WaiterAdvances(p: Protocol, me: Address, c: State, s: State, pc: Pc)
    requires Local(p, me, c, s, pc) && Mu in Holds(pc) && Wants(pc).Some?
    ensures Advances(p, me, c, s, s, Got(pc))
  {
    hide Local, Advances;
    match pc
    case RecvBc(b) => RecvWaits(p, me, c, s, b);
    case RecvUtxo(b) => RecvWaits(p, me, c, s, b);
    case MineBc(o, k) => MineWaits(p, me, c, s, o, k);
    case MineAgain(o, k, b) => MineWaitsAgain(p, me, c, s, o, k, b);
    case MineUtxo(o, k, b) => MineWaitsAgain(p, me, c, s, o, k, b);
    case ChainBc => ChainWaits(p, me, c, s);
    case _ =>
  }

  lemma RecvWaits(p: Protocol, me: Address, c: State, s: State, b: Block)
    ensures Local(p, me, c, s, RecvBc(b)) ==> Advances(p, me, c, s, s, RecvBody(b))
    ensures Local(p, me, c, s, RecvUtxo(b)) ==> Advances(p, me, c, s, s, RecvApply(b, 0))
  {
    hide ValidateBlock, CheckExtension, RecvPartly, Appended, Extends;
    RecvBegins(p, c, b);
  }

  lemma MineWaits(p: Protocol, me: Address, c: State, s: State, o: seq<Bytes>, k: seq<Bytes>)
    requires Local(p, me, c, s, MineBc(o, k))
    ensures Advances(p, me, c, s, s, MineRead(o, k))
  {
    hide Collected;
  }

  lemma MineWaitsAgain(p: Protocol, me: Address, c: State, s: State, o: seq<Bytes>, k: seq<Bytes>, b: Block)
    ensures Local(p, me, c, s, MineAgain(o, k, b)) ==> Advances(p, me, c, s, s, MineCheck(o, k, b))
    ensures Local(p, me, c, s, MineUtxo(o, k, b)) ==> Advances(p, me, c, s, s, MineApply(o, k, b, 0))
  {
    hide Collect, IsOrder, Candidate, MineEntering;
    if Local(p, me, c, s, MineUtxo(o, k, b)) {
      EnteringBegins(p, me, c, s, o, k, b);
    }
  }

  lemma ChainWaits(p: Protocol, me: Address, c: State, s: State)
    requires Local(p, me, c, s, ChainBc)
    ensures Advances(p, me, c, s, s, ChainRead)
  {
  }

  lemma ReaderAdvances(p: Protocol, me: Address, c: State, s: State, pc: Pc)
    requires Local(p, me, c, s, pc) && Mu in Holds(pc) && ReadMove(s, pc).Go?
    ensures var m := ReadMove(s, pc); Advances(p, me, c, s, m.shared, m.pc)
  {
  }

  lemma MineAdvances(p: Protocol, me: Address, c: State, s: State, pc: Pc, ch: Choice)
    requires Inv(p, c) && Local(p, me, c, s, pc) && MineMove(p, me, s, pc, ch).Go?
    ensures var m := MineMove(p, me, s, pc, ch); Advances(p, me, c, s, m.shared, m.pc)
  {
    hide Inv, Advances, Collected, Working, Candidate, Collect, Generated;
    if pc.MineWork? {
      WorkAdvances(p, me, c, s, pc.order, pc.keys, pc.t, ch);
    } else if pc.MineCheck? || pc.MineApply? || pc.MineOut? || pc.MineUnlock? || pc.MineLast? {
      MineEndAdvances(p, me, c, s, pc, ch);
    } else {
      MineBeginAdvances(p, me, c, s, pc, ch);
    }
  }

  // ---------------------------------------------------------------- the other handlers

  lemma ActKeepsPending(p: Protocol, me: Address, s: State, pc: Pc, ch: Choice)
    requires Act(p, me, s, pc, ch).Go?
    ensures s.pending.Keys <= Act(p, me, s, pc, ch).shared.pending.Keys
  {
    hide RecvMove, MineMove, AppMove;
    if Wants(pc).Some? {
    } else if RecvMove(p, s, pc) != Impossible {
      RecvKeepsPending(p, s, pc);
    } else if MineMove(p, me, s, pc, ch) != Impossible {
      MineKeepsPending(p, me, s, pc, ch);
    } else if AppMove(p, s, pc) != Impossible {
      AppKeepsPending(p, s, pc);
    }
  }

  lemma RecvKeepsPending(p: Protocol, s: State, pc: Pc)
    requires RecvMove(p, s, pc).Go?
    ensures s.pending.Keys <= RecvMove(p, s, pc).shared.pending.Keys
  {
    hide ValidateBlock, CheckBlockTxs, ApplyTxs, MarkSuccess, PlaceAside;
    match pc
    case RecvBody(b) =>
      MarkSuccessMeaning(p, s.pending, b.transactions);
      AsideIsSame(s.(log := s.log + [b]), b);
    case _ =>
  }

  lemma MineKeepsPending(p: Protocol, me: Address, s: State, pc: Pc, ch: Choice)
    requires MineMove(p, me, s, pc, ch).Go?
    ensures s.pending.Keys <= MineMove(p, me, s, pc, ch).shared.pending.Keys
  {
    hide CheckTx, IsOrder, Works, Template, Collect, ApplyTxs;
    match pc
    case MineCollect =>
      if ch.enough {
        CollectKeys(p, AllTxs(s.chain), s.entries, s.pending, ch.order);
      }
    case _ =>
  }

  lemma AppKeepsPending(p: Protocol, s: State, pc: Pc)
    requires AppMove(p, s, pc).Go?
    ensures s.pending.Keys <= AppMove(p, s, pc).shared.pending.Keys
  {
    hide TxHash, ValidComponents, Poll, Admit;
    match pc
    case AppBody(tx, cl) => AdmitTakes(p, s, tx, cl);
    case AppLook(h) => PollWaits(s, h);
    case _ =>
  }

  lemma OnlyHoldersMove(p: Protocol, me: Address, s: State, pc: Pc, ch: Choice)
    requires Mu !in Holds(pc)
    ensures RecvMove(p, s, pc) == Impossible && MineMove(p, me, s, pc, ch) == Impossible
  {
  }

  lemma OutsidersOnlyRead(p: Protocol, s: State, pc: Pc)
    requires Mu !in Holds(pc)
    ensures AppMove(p, s, pc).Go? ==> AppMove(p, s, pc).shared == s && Mu !in Holds(AppMove(p, s, pc).pc)
    ensures ReadMove(s, pc).Go? ==> ReadMove(s, pc).shared == s && Mu !in Holds(ReadMove(s, pc).pc)
  {
    hide Admit, Poll, TxHash;
  }

  lemma GotIsWanted(pc: Pc)
    requires Wants(pc).Some? && Mu !in Holds(pc) && Mu in Holds(Got(pc))
    ensures Wants(pc) == Some(Mu)
  {
  }

  /** Only a holder of `mu` changes the ledger. */
  lemma OnlyHoldersWrite(p: Protocol, me: Address, s: State, pc: Pc, ch: Choice)
    requires Act(p, me, s, pc, ch).Go? && Mu !in Holds(pc)
    ensures Act(p, me, s, pc, ch).shared == s
    ensures Mu in Holds(Act(p, me, s, pc, ch).pc) ==> Wants(pc) == Some(Mu)
  {
    hide RecvMove, MineMove, AppMove, ReadMove, Holds, Wants, Got;
    OnlyHoldersMove(p, me, s, pc, ch);
    OutsidersOnlyRead(p, s, pc);
    if Wants(pc).Some? && Mu in Holds(Got(pc)) {
      GotIsWanted(pc);
    }
  }

  /** A step takes at most the lock it waited for. */
  ghost predicate Takes(pc: Pc, pc': Pc) {
    Holds(pc') <= Holds(pc) + if Wants(pc).Some? then {Wants(pc).value} else {}
  }

  lemma RecvTakes(p: Protocol, s: State, pc: Pc)
    ensures RecvMove(p, s, pc).Go? ==> Takes(pc, RecvMove(p, s, pc).pc)
  {
    hide Receive, ApplyTxs, ValidateBlock, CheckExtension;
  }

  lemma MineTakes(p: Protocol, me: Address, s: State, pc: Pc, ch: Choice)
    ensures MineMove(p, me, s, pc, ch).Go? ==> Takes(pc, MineMove(p, me, s, pc, ch).pc)
  {
    hide Collect, IsOrder, ApplyTxs, Works, Template, TxsOf;
  }

  lemma AppTakes(p: Protocol, s: State, pc: Pc)
    ensures AppMove(p, s, pc).Go? ==> Takes(pc, AppMove(p, s, pc).pc)
  {
    hide Admit, Poll, TxHash;
  }

  lemma GotTakes(pc: Pc)
    ensures Wants(pc).Some? ==> Takes(pc, Got(pc))
  {
  }

  lemma ReadTakes(s: State, pc: Pc)
    ensures ReadMove(s, pc).Go? ==> Takes(pc, ReadMove(s, pc).pc)
  {
  }

  lemma TakesOnlyWanted(p: Protocol, me: Address, s: State, pc: Pc, ch: Choice)
    requires Act(p, me, s, pc, ch).Go?
    ensures Takes(pc, Act(p, me, s, pc, ch).pc)
  {
    hide RecvMove, MineMove, AppMove, ReadMove, Takes;
    GotTakes(pc);
    ReadTakes(s, pc);
    RecvTakes(p, s, pc);
    MineTakes(p, me, s, pc, ch);
    AppTakes(p, s, pc);
  }

  // ---------------------------------------------------------------- promises

  lemma OnChainLater(p: Protocol, a: seq<Block>, b: seq<Block>, h: Bytes)
    requires a <= b && OnChain(p, a, h)
    ensures OnChain(p, b, h)
  {
    AllTxsPrefix(a, b);
    var tx :| tx in AllTxs(a) && TxHash(p, tx) == h;
    assert tx in AllTxs(b);
  }

  /** Promises survive any growth of the pending table and of the committed chain. */
  lemma PromiseStays(p: Protocol, c: State, s: State, c': State, s': State, pc: Pc)
    requires Promise(p, c, s, pc) && s.pending.Keys <= s'.pending.Keys && c.chain <= c'.chain
    ensures Promise(p, c', s', pc)
  {
    hide OnChain;
    if pc.Replied? && pc.ok {
      OnChainLater(p, c.chain, c'.chain, pc.hash);
    }
  }

  /** Only clerks' handlers have promises to keep. */
  lemma OthersPromiseNothing(p: Protocol, me: Address, c: State, s: State, pc: Pc, ch: Choice)
    ensures RecvMove(p, s, pc).Go? ==> Promise(p, c, RecvMove(p, s, pc).shared, RecvMove(p, s, pc).pc)
    ensures MineMove(p, me, s, pc, ch).Go? ==>
            Promise(p, c, MineMove(p, me, s, pc, ch).shared, MineMove(p, me, s, pc, ch).pc)
    ensures ReadMove(s, pc).Go? ==> Promise(p, c, ReadMove(s, pc).shared, ReadMove(s, pc).pc)
  {
    hide OnChain, Receive, ApplyTxs, ValidateBlock, CheckExtension, Collect, IsOrder, Works, Template, TxsOf;
  }

  lemma ClerkPromise(p: Protocol, me: Address, c: State, s: State, pc: Pc)
    requires Inv(p, c) && Promise(p, c, s, pc) && (Mu in Holds(pc) ==> Local(p, me, c, s, pc))
    requires AppMove(p, s, pc).Go?
    ensures var m := AppMove(p, s, pc);
      Promise(p, if Mu in Holds(pc) && Mu !in Holds(m.pc) then m.shared else c, m.shared, m.pc)
  {
    hide Inv, OnChain, Admit, Poll, TxHash, Receive, ValidateBlock, CheckExtension, Collected, Working, Candidate,
      Mines;
    if pc.AppReply? {
      PollKeepsInv(p, c, pc.hash);
    } else if pc.AppLook? {
      PollWaits(s, pc.hash);
    }
  }

  /** A handler's own step keeps, or makes good, its promise. */
  lemma PromiseKept(p: Protocol, me: Address, c: State, s: State, pc: Pc, ch: Choice)
    requires Inv(p, c) && Promise(p, c, s, pc) && (Mu in Holds(pc) ==> Local(p, me, c, s, pc))
    requires Act(p, me, s, pc, ch).Go?
    ensures var m := Act(p, me, s, pc, ch);
      Promise(p, if Mu in Holds(pc) && Mu !in Holds(m.pc) then m.shared else c, m.shared, m.pc)
  {
    hide Inv, Local, Promise, RecvMove, MineMove, AppMove, ReadMove, Holds;
    var m := Act(p, me, s, pc, ch);
    if Wants(pc).Some? {
      WaiterPromise(p, c, s, pc);
    } else if m == AppMove(p, s, pc) {
      ClerkPromise(p, me, c, s, pc);
    } else {
      OthersPromiseNothing(p, me, c, s, pc, ch);
      OthersPromiseNothing(p, me, m.shared, s, pc, ch);
    }
  }

  lemma WaiterPromise(p: Protocol, c: State, s: State, pc: Pc)
    requires Wants(pc).Some? && Promise(p, c, s, pc)
    ensures Promise(p, c, s, Got(pc)) && !(Mu in Holds(pc) && Mu !in Holds(Got(pc)))
  {
    hide OnChain;
  }

  // ---------------------------------------------------------------- the whole node

  lemma ExclusiveStays(sys: Sys, t: nat, pc': Pc)
    requires Exclusive(sys.threads) && t < |sys.threads| && Runnable(sys, t) && Takes(sys.threads[t], pc')
    ensures Exclusive(sys.threads[t := pc'])
  {
    hide Holds, Wants;
    var ts := sys.threads[t := pc'];
    forall i, j | 0 <= i < j < |ts|
      ensures Holds(ts[i]) !! Holds(ts[j])
    {
      var pc := sys.threads[t];
      assert Holds(sys.threads[i]) !! Holds(sys.threads[j]);
      if Wants(pc).Some? {
        assert Wants(pc).value !in Holds(sys.threads[i]) && Wants(pc).value !in Holds(sys.threads[j]);
      }
    }
  }

  /** The committed ledger after a move, and how it got there. */
  lemma CommitStays(p: Protocol, me: Address, sys: Sys, t: nat, ch: Choice)
    requires SysInv(p, me, sys) && t < |sys.threads| && Runnable(sys, t)
    requires Act(p, me, sys.shared, sys.threads[t], ch).Go?
    ensures var m := Act(p, me, sys.shared, sys.threads[t], ch);
      var c' := Committed(sys, sys.threads[t], m.shared, m.pc);
      && Reached(p, me, c') && sys.committed.chain <= c'.chain
      && (c' == sys.committed || exists ev :: Step(p, me, sys.committed, ev, c'))
      && (Mu in Holds(m.pc) ==> Local(p, me, c', m.shared, m.pc))
      && (Mu !in Holds(m.pc) && (Mu in Holds(sys.threads[t]) || Free(sys, Mu)) ==> m.shared == c')
      && (Mu !in Holds(sys.threads[t]) ==> m.shared == sys.shared)
  {
    hide Reached, Act, Step, Exclusive, Promise;
    var pc, c, s := sys.threads[t], sys.committed, sys.shared;
    var m := Act(p, me, s, pc, ch);
    ReachedInv(p, me, c);
    if Mu in Holds(pc) {
      hide Inv;
      HolderAdvances(p, me, c, s, pc, ch);
      if Mu !in Holds(m.pc) && s != c {
        var ev :| Step(p, me, c, ev, s);
        ReachedStep(p, me, c, ev, s);
      }
    } else {
      OnlyHoldersWrite(p, me, s, pc, ch);
      if Mu in Holds(m.pc) {
        FirstLocal(p, me, s, pc, ch);
      }
    }
  }

  /** Whoever just took `mu` starts from the committed ledger. */
  lemma FirstLocal(p: Protocol, me: Address, s: State, pc: Pc, ch: Choice)
    requires Wants(pc) == Some(Mu)
    ensures Act(p, me, s, pc, ch).Go? && Local(p, me, s, s, Act(p, me, s, pc, ch).pc)
  {
    hide RecvMove, MineMove, AppMove, ReadMove, Receive, Collected, Working, Candidate, Mines, ValidateBlock;
  }

  lemma MoveKeepsSysInv(p: Protocol, me: Address, sys: Sys, t: nat, ch: Choice, sys': Sys)
    requires SysInv(p, me, sys) && t < |sys.threads| && Moves(p, me, sys, t, ch, sys')
    ensures SysInv(p, me, sys') && sys.committed.chain <= sys'.committed.chain
    ensures sys'.committed == sys.committed || exists ev :: Step(p, me, sys.committed, ev, sys'.committed)
  {
    hide Act, Local, Promise, Reached, Holds, Wants, Exclusive, Takes;
    var pc, c, s := sys.threads[t], sys.committed, sys.shared;
    match Act(p, me, s, pc, ch)
    case Panics =>
      assert Free(sys', Mu) <==> Free(sys, Mu);
    case Go(s', pc') =>
      ReachedInv(p, me, c);
      CommitStays(p, me, sys, t, ch);
      TakesOnlyWanted(p, me, s, pc, ch);
      ExclusiveStays(sys, t, pc');
      ActKeepsPending(p, me, s, pc, ch);
      PromisesStay(p, me, sys, t, ch, sys');
      LocalsStay(p, me, sys, t, ch, sys');
  }

  lemma PromisesStay(p: Protocol, me: Address, sys: Sys, t: nat, ch: Choice, sys': Sys)
    requires SysInv(p, me, sys) && Inv(p, sys.committed) && t < |sys.threads| && Moves(p, me, sys, t, ch, sys')
    requires Act(p, me, sys.shared, sys.threads[t], ch).Go?
    requires sys.committed.chain <= sys'.committed.chain && sys.shared.pending.Keys <= sys'.shared.pending.Keys
    ensures forall u | 0 <= u < |sys'.threads| :: Promise(p, sys'.committed, sys'.shared, sys'.threads[u])
  {
    hide Act, Local, Promise, Reached, Holds, Wants, Exclusive, Inv;
    forall u | 0 <= u < |sys'.threads|
      ensures Promise(p, sys'.committed, sys'.shared, sys'.threads[u])
    {
      if u == t {
        PromiseKept(p, me, sys.committed, sys.shared, sys.threads[t], ch);
      } else {
        PromiseStays(p, sys.committed, sys.shared, sys'.committed, sys'.shared, sys.threads[u]);
      }
    }
  }

  lemma LocalsStay(p: Protocol, me: Address, sys: Sys, t: nat, ch: Choice, sys': Sys)
    requires SysInv(p, me, sys) && t < |sys.threads| && Moves(p, me, sys, t, ch, sys')
    requires Act(p, me, sys.shared, sys.threads[t], ch).Go? && Exclusive(sys'.threads)
    requires var m := Act(p, me, sys.shared, sys.threads[t], ch);
      && (Mu in Holds(m.pc) ==> Local(p, me, sys'.committed, m.shared, m.pc))
      && (Mu !in Holds(m.pc) && (Mu in Holds(sys.threads[t]) || Free(sys, Mu)) ==> m.shared == sys'.committed)
      && (Mu !in Holds(sys.threads[t]) ==> m.shared == sys.shared)
    ensures Free(sys', Mu) ==> sys'.shared == sys'.committed
    ensures forall u | 0 <= u < |sys'.threads| && Mu in Holds(sys'.threads[u]) ::
      Local(p, me, sys'.committed, sys'.shared, sys'.threads[u])
  {
    hide Act, Local, Promise, Reached, Holds, Wants;
    var pc, pc' := sys.threads[t], sys'.threads[t];
    forall u | 0 <= u < |sys'.threads| && Mu in Holds(sys'.threads[u])
      ensures Local(p, me, sys'.committed, sys'.shared, sys'.threads[u])
    {
      if u != t {
        assert sys'.threads[u] == sys.threads[u];
        assert Holds(sys.threads[u]) !! Holds(pc) && Holds(sys'.threads[u]) !! Holds(pc');
        assert Mu !in Holds(pc) && Mu !in Holds(pc');
      }
    }
    if Free(sys', Mu) {
      assert Mu !in Holds(pc');
      if Mu !in Holds(pc) {
        forall u | 0 <= u < |sys.threads|
          ensures Mu !in Holds(sys.threads[u])
        {
          assert u != t ==> sys'.threads[u] == sys.threads[u];
        }
      }
    }
  }

  lemma SpawnKeepsSysInv(p: Protocol, me: Address, sys: Sys, pc: Pc, sys': Sys)
    requires SysInv(p, me, sys) && Spawns(sys, pc, sys')
    ensures SysInv(p, me, sys') && sys.committed == sys'.committed
  {
    hide Reached, Local;
    assert Holds(pc) == {} && Promise(p, sys.committed, sys.shared, pc);
    forall t | 0 <= t < |sys.threads|
      ensures sys'.threads[t] == sys.threads[t]
    {
    }
  }

  lemma SysStepKeepsInv(p: Protocol, me: Address, sys: Sys, sys': Sys)
    requires SysInv(p, me, sys) && SysStep(p, me, sys, sys')
    ensures SysInv(p, me, sys') && sys.committed.chain <= sys'.committed.chain
    ensures sys'.committed == sys.committed || exists ev :: Step(p, me, sys.committed, ev, sys'.committed)
  {
    hide SysInv, Spawns, Moves;
    if pc :| Spawns(sys, pc, sys') {
      SpawnKeepsSysInv(p, me, sys, pc, sys');
    } else {
      var t: nat, ch :| t < |sys.threads| && Moves(p, me, sys, t, ch, sys');
      MoveKeepsSysInv(p, me, sys, t, ch, sys');
    }
  }

  lemma SysBoot(p: Protocol, me: Address, sys: Sys)
    requires SysInit(p, sys)
    ensures SysInv(p, me, sys)
  {
    hide Boot;
    var tr, evs: seq<Event> := [sys.shared], [];
    assert Run(p, me, tr, evs);
  }

  /** The invariant holds in every interleaving; in particular the committed ledger is
      always one that the sequential machine reaches. */
  lemma {:induction false} EveryInterleaving(p: Protocol, me: Address, tr: seq<Sys>, k: nat)
    requires SysRun(p, me, tr) && k < |tr|
    ensures SysInv(p, me, tr[k])
    decreases k
  {
    hide SysInv, SysInit, SysStep;
    if k == 0 {
      SysBoot(p, me, tr[0]);
    } else {
      EveryInterleaving(p, me, tr, k - 1);
      SysStepKeepsInv(p, me, tr[k - 1], tr[k]);
    }
  }

  /** Linearisation: whatever the interleaving, the ledger as of the last release of `mu`
      is the end of a sequential run, and when nobody holds `mu` it is the shared ledger. */
  lemma InterleavingsAreRuns(p: Protocol, me: Address, tr: seq<Sys>, k: nat)
    requires SysRun(p, me, tr) && k < |tr|
    ensures Reached(p, me, tr[k].committed) && Inv(p, tr[k].committed)
    ensures Free(tr[k], Mu) ==> tr[k].shared == tr[k].committed
  {
    hide Reached, Inv, Local, Promise, SysRun;
    EveryInterleaving(p, me, tr, k);
    ReachedInv(p, me, tr[k].committed);
  }

  /** The committed ledgers of the first `k` steps of an interleaving, in order, on one
      sequential run: `at` says where on it each one is. */
  ghost predicate OnRun(p: Protocol, me: Address, tr: seq<Sys>, k: nat, run: seq<State>, evs: seq<Event>, at: seq<nat>)
    requires k < |tr|
  {
    && Run(p, me, run, evs) && |run| == |evs| + 1
    && |at| == k + 1 && at[k] == |evs|
    && (forall i | 0 <= i <= k :: at[i] < |run| && run[at[i]] == tr[i].committed)
    && (forall n | 0 <= n < |run| :: n in at)
    && (forall i, j | 0 <= i <= j <= k :: at[i] <= at[j])
  }

  /** Everything one interleaving ever commits lies, in order, on one sequential run. */
  lemma {:induction false} InterleavingIsOneRun(p: Protocol, me: Address, tr: seq<Sys>, k: nat)
      returns (run: seq<State>, evs: seq<Event>, at: seq<nat>)
    requires SysRun(p, me, tr) && k < |tr|
    ensures OnRun(p, me, tr, k, run, evs, at)
    decreases k
  {
    hide SysInv, SysStep, Step, OnRun, Boot;
    if k == 0 {
      run, evs, at := [tr[0].committed], [], [0];
      StartsOnRun(p, me, tr);
    } else {
      run, evs, at := InterleavingIsOneRun(p, me, tr, k - 1);
      EveryInterleaving(p, me, tr, k - 1);
      SysStepKeepsInv(p, me, tr[k - 1], tr[k]);
      if tr[k].committed == tr[k - 1].committed {
        StaysOnRun(p, me, tr, k, run, evs, at);
        at := at + [at[k - 1]];
      } else {
        var ev :| Step(p, me, tr[k - 1].committed, ev, tr[k].committed);
        GoesOnRun(p, me, tr, k, run, evs, at, ev);
        run, evs, at := run + [tr[k].committed], evs + [ev], at + [|evs| + 1];
      }
    }
  }

  lemma StartsOnRun(p: Protocol, me: Address, tr: seq<Sys>)
    requires SysRun(p, me, tr)
    ensures OnRun(p, me, tr, 0, [tr[0].committed], [], [0])
  {
    hide Boot, SysStep;
  }

  lemma StaysOnRun(p: Protocol, me: Address, tr: seq<Sys>, k: nat, run: seq<State>, evs: seq<Event>, at: seq<nat>)
    requires 0 < k < |tr| && OnRun(p, me, tr, k - 1, run, evs, at) && tr[k].committed == tr[k - 1].committed
    ensures |at| == k && OnRun(p, me, tr, k, run, evs, at + [at[k - 1]])
  {
    hide Run;
  }

  lemma GoesOnRun(p: Protocol, me: Address, tr: seq<Sys>, k: nat, run: seq<State>, evs: seq<Event>, at: seq<nat>,
      ev: Event)
    requires 0 < k < |tr| && OnRun(p, me, tr, k - 1, run, evs, at)
    requires Step(p, me, tr[k - 1].committed, ev, tr[k].committed)
    ensures OnRun(p, me, tr, k, run + [tr[k].committed], evs + [ev], at + [|evs| + 1])
  {
    hide Boot, Step;
  }

  // ---------------------------------------------------------------- the miner's re-check

  /** In every interleaving the tip is still the miner's parent when it looks again. */
  lemma TipStaysPut(p: Protocol, me: Address, tr: seq<Sys>, k: nat, t: nat)
    requires SysRun(p, me, tr) && k < |tr| && t < |tr[k].threads| && tr[k].threads[t].MineCheck?
    ensures Extends(tr[k].shared.chain, tr[k].threads[t].b)
  {
    hide Reached, Inv, Local, Promise, SysRun;
    EveryInterleaving(p, me, tr, k);
    ReachedInv(p, me, tr[k].committed);
    var pc := tr[k].threads[t];
    SecondLookSucceeds(p, me, tr[k].committed, tr[k].shared, pc.order, pc.keys, pc.b);
  }

  // ---------------------------------------------------------------- readers of the index

  /** The index shows the chain, or the chain without its last block: never part of a block. */
  ghost predicate ShowsWholeBlocks(p: Protocol, s: State) {
    || Agrees(s.entries, ViewOf(p, s.chain))
    || (|s.chain| > 1 && Agrees(s.entries, ViewOf(p, s.chain[..|s.chain| - 1])))
  }

  lemma CommittedShows(p: Protocol, s: State)
    requires Inv(p, s)
    ensures ShowsWholeBlocks(p, s) && s.chain != []
  {
    hide History, PendingInv, Agrees;
  }

  lemma AppendedShows(p: Protocol, c: State, s: State, b: Block)
    requires Inv(p, c) && s.chain == c.chain + [b] && s.entries == c.entries
    ensures ShowsWholeBlocks(p, s)
  {
    hide History, PendingInv, Agrees;
    assert s.chain[..|s.chain| - 1] == c.chain;
  }

  /** The event that the holder of `mu` has completed, if it has. */
  function Completed(pc: Pc): Option<Event> {
    match pc
    case RecvOut(b) => Some(Received(b))
    case RecvUnlock(b) => Some(Received(b))
    case RecvLast(b) => Some(Received(b))
    case MineOut(o, b) => Some(Mined(o, b))
    case MineUnlock(o, b) => Some(Mined(o, b))
    case MineLast(o, b) => Some(Mined(o, b))
    case AppAdmitted(tx, cl, h) => Some(Admitted(tx, cl))
    case AppRefused(tx, cl, h) => Some(Admitted(tx, cl))
    case AppReply(h, ok) => Some(Polled(h))
    case _ => None
  }

  lemma CompletedStep(p: Protocol, me: Address, c: State, s: State, pc: Pc)
    requires Local(p, me, c, s, pc) && Completed(pc).Some?
    ensures Step(p, me, c, Completed(pc).value, s)
  {
    hide Receive, Mines, Admit, Poll, Collected, Working, Candidate, ValidateBlock, CheckExtension, Appended;
  }

  /** Until then the chain has at most one new block, and the index is untouched unless the
      handler holds `utxoMu`. */
  lemma NotYetCompleted(p: Protocol, me: Address, c: State, s: State, pc: Pc)
    requires Local(p, me, c, s, pc) && Completed(pc).None?
    ensures s.entries == c.entries || UtxoMu in Holds(pc)
    ensures s.log == c.log || BcMu in Holds(pc)
    ensures s.chain == c.chain || exists b :: s.chain == c.chain + [b]
  {
    hide ApplyTxs, MarkSuccess, MarkKeys, Receive, Mines, Admit, Poll, Candidate, Working, Collect, IsOrder,
      ValidateBlock, CheckExtension;
  }

  /** Whenever the holder of `mu` does not hold `utxoMu`, the index is at a block boundary. */
  lemma BlockBoundary(p: Protocol, me: Address, c: State, s: State, pc: Pc)
    requires Inv(p, c) && Local(p, me, c, s, pc) && UtxoMu !in Holds(pc)
    ensures ShowsWholeBlocks(p, s)
  {
    hide Inv, Local, Step, ShowsWholeBlocks, Completed, Holds;
    CommittedShows(p, c);
    if Completed(pc).Some? {
      CompletedStep(p, me, c, s, pc);
      SettledShows(p, me, c, Completed(pc).value, s);
    } else {
      NotYetCompleted(p, me, c, s, pc);
      if s.chain == c.chain {
        SameShows(p, c, s);
      } else {
        var b :| s.chain == c.chain + [b];
        AppendedShows(p, c, s, b);
      }
    }
  }

  lemma SettledShows(p: Protocol, me: Address, c: State, ev: Event, s: State)
    requires Inv(p, c) && Step(p, me, c, ev, s)
    ensures ShowsWholeBlocks(p, s)
  {
    hide Inv, Step, ShowsWholeBlocks;
    StepKeepsInv(p, me, c, ev, s);
    CommittedShows(p, s);
  }

  lemma SameShows(p: Protocol, c: State, s: State)
    requires ShowsWholeBlocks(p, c) && c.chain == s.chain && c.entries == s.entries
    ensures ShowsWholeBlocks(p, s)
  {
  }

  /** Every `GetUtxo`, in every interleaving, reads the view of a whole-block prefix: the
      full chain, or all of it but the last block. */
  lemma ReadersSeeWholeBlocks(p: Protocol, me: Address, tr: seq<Sys>, k: nat, t: nat)
    requires SysRun(p, me, tr) && k < |tr| && t < |tr[k].threads| && tr[k].threads[t].UtxoRead?
    ensures ShowsWholeBlocks(p, tr[k].shared)
  {
    hide Reached, Inv, Local, Promise, SysRun, ShowsWholeBlocks;
    var sys := tr[k];
    EveryInterleaving(p, me, tr, k);
    ReachedInv(p, me, sys.committed);
    if Free(sys, Mu) {
      CommittedShows(p, sys.committed);
    } else {
      var u :| 0 <= u < |sys.threads| && Mu in Holds(sys.threads[u]);
      assert u != t && Holds(sys.threads[u]) !! Holds(sys.threads[t]);
      BlockBoundary(p, me, sys.committed, sys.shared, sys.threads[u]);
    }
  }

  // ---------------------------------------------------------------- durable acknowledgements

  lemma {:induction false} CommittedGrows(p: Protocol, me: Address, tr: seq<Sys>, j: nat, k: nat)
    requires SysRun(p, me, tr) && j <= k < |tr|
    ensures tr[j].committed.chain <= tr[k].committed.chain
    decreases k - j
  {
    hide SysInv, SysInit, SysStep;
    if j < k {
      EveryInterleaving(p, me, tr, j);
      SysStepKeepsInv(p, me, tr[j], tr[j + 1]);
      CommittedGrows(p, me, tr, j + 1, k);
    }
  }

  lemma CommittedIsPrefix(p: Protocol, me: Address, c: State, s: State, pc: Pc)
    requires Inv(p, c) && Local(p, me, c, s, pc)
    ensures c.chain <= s.chain
  {
    hide Inv, Local, Step, Completed;
    if Completed(pc).Some? {
      CompletedStep(p, me, c, s, pc);
      StepKeepsInv(p, me, c, Completed(pc).value, s);
    } else {
      NotYetCompleted(p, me, c, s, pc);
    }
  }

  lemma SharedExtendsCommitted(p: Protocol, me: Address, tr: seq<Sys>, k: nat)
    requires SysRun(p, me, tr) && k < |tr|
    ensures tr[k].committed.chain <= tr[k].shared.chain
  {
    hide Reached, Inv, Local, Promise, SysRun, Holds;
    var sys := tr[k];
    EveryInterleaving(p, me, tr, k);
    ReachedInv(p, me, sys.committed);
    if !Free(sys, Mu) {
      var u :| 0 <= u < |sys.threads| && Mu in Holds(sys.threads[u]);
      CommittedIsPrefix(p, me, sys.committed, sys.shared, sys.threads[u]);
    }
  }

  /** If `AppendTx` replied Success, a transaction with that hash is on the node's chain,
      then and in every later state, however the handlers are interleaved. */
  lemma AcknowledgementIsDurable(p: Protocol, me: Address, tr: seq<Sys>, j: nat, k: nat, t: nat)
    requires SysRun(p, me, tr) && j <= k < |tr| && t < |tr[j].threads|
    requires tr[j].threads[t].Replied? && tr[j].threads[t].ok
    ensures OnChain(p, tr[j].shared.chain, tr[j].threads[t].hash)
    ensures OnChain(p, tr[k].shared.chain, tr[j].threads[t].hash)
  {
    hide Reached, Local, SysRun, OnChain, Holds;
    var h := tr[j].threads[t].hash;
    EveryInterleaving(p, me, tr, j);
    assert Promise(p, tr[j].committed, tr[j].shared, tr[j].threads[t]);
    CommittedGrows(p, me, tr, j, k);
    SharedExtendsCommitted(p, me, tr, j);
    SharedExtendsCommitted(p, me, tr, k);
    OnChainLater(p, tr[j].committed.chain, tr[j].shared.chain, h);
    OnChainLater(p, tr[j].committed.chain, tr[k].shared.chain, h);
  }

  // ---------------------------------------------------------------- no deadlock

  /** The declared order of the locks; `peermu` is only ever taken alone. */
  function Rank(l: Lock): nat {
    match l
    case Mu => 0
    case BcMu => 1
    case UtxoMu => 2
    case PeerMu => 3
  }

  /** Every handler takes its locks in the declared order, and `peermu` alone. */
  lemma LocksAreOrdered(pc: Pc)
    ensures forall l | Wants(pc).Some? && l in Holds(pc) :: Rank(l) < Rank(Wants(pc).value)
    ensures Wants(pc) == Some(PeerMu) ==> Holds(pc) == {}
    ensures PeerMu in Holds(pc) ==> Holds(pc) == {PeerMu} && Wants(pc).None?
  {
  }

  /** What keeps a waiting handler waiting is, at the end of the chain of holders, a
      handler that can go on. */
  lemma {:induction false} SomeoneCanRun(sys: Sys, i: nat) returns (t: nat)
    requires i < |sys.threads| && !IsFinished(sys.threads[i])
    ensures t < |sys.threads| && !IsFinished(sys.threads[t]) && Runnable(sys, t)
    ensures t == i || (Wants(sys.threads[i]).Some? && exists l | l in Holds(sys.threads[t]) ::
      Rank(l) >= Rank(Wants(sys.threads[i]).value))
    decreases if Wants(sys.threads[i]).Some? then 4 - Rank(Wants(sys.threads[i]).value) else 0
  {
    hide Holds, Wants, Rank;
    if Runnable(sys, i) {
      t := i;
    } else {
      var l := Wants(sys.threads[i]).value;
      var j :| 0 <= j < |sys.threads| && l in Holds(sys.threads[j]);
      FinishedHoldNothing(sys.threads[j], l);
      RankBound(l);
      if Runnable(sys, j) {
        t := j;
      } else {
        LocksAreOrdered(sys.threads[j]);
        RankBound(Wants(sys.threads[j]).value);
        t := SomeoneCanRun(sys, j);
      }
    }
  }

  lemma FinishedHoldNothing(pc: Pc, l: Lock)
    requires l in Holds(pc)
    ensures !IsFinished(pc)
  {
  }

  lemma RankBound(l: Lock)
    ensures Rank(l) <= 3
  {
  }

  /** A handler that waits for nothing has a next step. */
  lemma CanAct(p: Protocol, me: Address, c: State, s: State, pc: Pc)
    requires Inv(p, c) && (Mu in Holds(pc) ==> Local(p, me, c, s, pc)) && !IsFinished(pc)
    ensures Act(p, me, s, pc, Choice([], false, 0)) != Impossible
  {
    hide Inv, Local, RecvMove, MineMove, AppMove, ReadMove;
    if pc.RecvBody? {
      BodyActs(p, me, c, s, pc.b);
    } else if pc.MineFree? {
      FreeActs(p, me, c, s, pc.order, pc.keys, pc.prev);
    } else if Wants(pc).None? {
      OthersAct(p, me, s, pc);
    }
  }

  lemma OthersAct(p: Protocol, me: Address, s: State, pc: Pc)
    requires Wants(pc).None? && !IsFinished(pc) && !pc.RecvBody? && !pc.MineFree?
    ensures RecvMove(p, s, pc) != Impossible || MineMove(p, me, s, pc, Choice([], false, 0)) != Impossible
         || AppMove(p, s, pc) != Impossible || ReadMove(s, pc) != Impossible
  {
    hide Receive, ApplyTx, Works, Admit, Poll, MarkKey, MarkTx, Collect, IsOrder, Extends, Appended, PrevHash;
  }

  lemma BodyActs(p: Protocol, me: Address, c: State, s: State, b: Block)
    requires Inv(p, c) && Local(p, me, c, s, RecvBody(b))
    ensures RecvMove(p, s, RecvBody(b)) != Impossible
  {
    hide Inv, Receive, ValidateBlock, CheckExtension;
    ReceiveKeepsInv(p, c, b);
  }

  lemma FreeActs(p: Protocol, me: Address, c: State, s: State, o: seq<Bytes>, k: seq<Bytes>, prev: Bytes)
    requires Local(p, me, c, s, MineFree(o, k, prev))
    ensures forall ch :: MineMove(p, me, s, MineFree(o, k, prev), ch) != Impossible
  {
    hide Collect, IsOrder, Template, TxsOf;
    assert AllIn(k, s.pending);
  }

  /** In every reachable state of a node that has not crashed, every unfinished handler can
      move, or waits for one that can. */
  lemma NoDeadlock(p: Protocol, me: Address, tr: seq<Sys>, k: nat, i: nat) returns (t: nat, sys': Sys)
    requires SysRun(p, me, tr) && k < |tr| && !tr[k].crashed
    requires i < |tr[k].threads| && !IsFinished(tr[k].threads[i])
    ensures t < |tr[k].threads| && Moves(p, me, tr[k], t, Choice([], false, 0), sys')
    ensures t == i || (Wants(tr[k].threads[i]).Some? && exists l | l in Holds(tr[k].threads[t]) ::
      Rank(l) >= Rank(Wants(tr[k].threads[i]).value))
  {
    hide Reached, Inv, Local, Promise, SysRun, Act, Holds, Wants, Runnable;
    var sys := tr[k];
    EveryInterleaving(p, me, tr, k);
    ReachedInv(p, me, sys.committed);
    t := SomeoneCanRun(sys, i);
    CanAct(p, me, sys.committed, sys.shared, sys.threads[t]);
    match Act(p, me, sys.shared, sys.threads[t], Choice([], false, 0))
    case Go(s, pc) => sys' := Sys(sys.threads[t := pc], s, Committed(sys, sys.threads[t], s, pc), false);
    case Panics => sys' := sys.(crashed := true);
  }
}
