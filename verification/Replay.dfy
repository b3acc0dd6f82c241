/** Joining the network: a node that replays another node's log, from its own bootstrap,
    ends with the same chain and the same index (`replayLog` in src/node/miner.go). */
module Replay {
  import opened Wire
  import opened Transactions
  import opened Blocks
  import opened Utxo
  import opened Validation
  import opened Ledger
  import opened Invariants

  /** Receiving every block of a log in order. */
  function ReplayLog(p: Protocol, s: State, log: seq<Block>): Outcome {
    if log == [] then Next(s)
    else
      match ReplayLog(p, s, log[..|log| - 1])
      case Next(s') => Receive(p, s', log[|log| - 1])
      case stopped => stopped
  }

  /** The same main chain and index, and the same side-chain lists. */
  ghost predicate SameLedger(s: State, t: State) {
    && s.chain == t.chain && s.entries == t.entries
    && s.sideChains == t.sideChains && s.orphanChains == t.orphanChains
  }

  /** What a block does to the ledger depends on the ledger alone. */
  lemma ReceiveSame(p: Protocol, s: State, t: State, b: Block)
    requires SameLedger(s, t) && Receive(p, s, b).Next?
    ensures Receive(p, t, b).Next? && SameLedger(Receive(p, s, b).state, Receive(p, t, b).state)
  {
    hide ValidateBlock, CheckBlockTxs, MarkSuccess, ApplyTxs;
  }

  /** A mined block carries no pending transaction of type COINBASE. */
  ghost predicate PlainlyMined(b: Block) {
    b.transactions != [] && forall tx | tx in Ordinary(b) :: tx.kind != COINBASE
  }

  /** A node in the miner's state accepts the miner's block and ends where the miner is. */
  lemma MinedIsReceivable(p: Protocol, me: Address, s: State, order: seq<Bytes>, b: Block, s': State)
    requires Inv(p, s) && Mines(p, me, s, order, b, Next(s')) && PlainlyMined(b)
    ensures Receive(p, s, b).Next? && SameLedger(Receive(p, s, b).state, s')
    ensures s'.log == s.log + [b]
  {
    hide Inv, MarkSuccess, MarkKeys, CheckTx, ValidComponents, ValidateBlock, CheckBlockTxs, ApplyTxs;
    var c := Collect(p, AllTxs(s.chain), s.entries, s.pending, order);
    CollectedPending(p, s, order);
    MinedPasses(p, me, s, TxsOf(c.pending, c.keys), b);
  }

  lemma MinedPasses(p: Protocol, me: Address, s: State, txs: seq<Transaction>, b: Block)
    requires Inv(p, s) && Generated(p, PrevHash(s.chain), txs, me, b) && PlainlyMined(b)
    requires forall tx | tx in txs :: CheckTx(p, AllTxs(s.chain), s.entries, tx) == Accept && ValidComponents(tx)
    ensures ValidateBlock(p, b) == Accept && CheckExtension(p, s, b) == Accept && Extends(s.chain, b)
  {
    hide CheckTx, Agrees, History, PendingInv, Sealed, LeastWorking, ValidateBlock, CheckBlockTxs;
    ReadTipExtends(p, s.chain, b);
    assert Ordinary(b) == txs;
    MinerAgreesWithValidator(p, PrevHash(s.chain), txs, me, b);
    MinerAgreesWithReceiver(p, AllTxs(s.chain), s.entries, PrevHash(s.chain), txs, me, b);
  }

  lemma ReplayLast(p: Protocol, s: State, log: seq<Block>, b: Block, t: State)
    requires ReplayLog(p, s, log) == Next(t)
    ensures ReplayLog(p, s, log + [b]) == Receive(p, t, b)
  {
    assert (log + [b])[..|log|] == log;
  }

  /** Every step appends to the log exactly the block whose receipt has the same effect. */
  lemma StepReplays(p: Protocol, me: Address, s: State, ev: Event, s': State, boot: State, t: State)
    requires Inv(p, s) && Step(p, me, s, ev, s')
    requires ev.Mined? ==> PlainlyMined(ev.b)
    requires ReplayLog(p, boot, s.log) == Next(t) && SameLedger(s, t)
    ensures ReplayLog(p, boot, s'.log).Next? && SameLedger(s', ReplayLog(p, boot, s'.log).state)
  {
    hide Inv, Mines, Receive;
    match ev
    case Received(b) =>
      ReceiveLogs(p, s, b);
      ReceiveSame(p, s, t, b);
      ReplayLast(p, boot, s.log, b, t);
    case Mined(order, b) =>
      MinedIsReceivable(p, me, s, order, b, s');
      ReceiveSame(p, s, t, b);
      ReplayLast(p, boot, s.log, b, t);
    case Admitted(tx, clerkId) =>
    case Polled(h) =>
  }

  lemma ReceiveLogs(p: Protocol, s: State, b: Block)
    requires Receive(p, s, b).Next?
    ensures Receive(p, s, b).state.log == s.log + [b]
  {
    hide ValidateBlock, CheckBlockTxs, MarkSuccess, ApplyTxs;
  }

  /** Two nodes bootstrap into the same state. */
  lemma BootUnique(p: Protocol, s: State, t: State)
    requires Boot(p, s) && Boot(p, t)
    ensures s == t
  {
    GenesisUnique(p, s.chain[0], t.chain[0]);
    assert s.chain == [s.chain[0]] && t.chain == [t.chain[0]];
  }

  /** The log starts with the genesis block, which the replaying node rejects. */
  lemma BootReplays(p: Protocol, s: State)
    requires Boot(p, s)
    ensures ReplayLog(p, s, s.log).Next? && SameLedger(s, ReplayLog(p, s, s.log).state)
  {
    GenesisRejected(p, s.chain[0]);
    assert s.log == [] + [s.chain[0]];
    ReplayLast(p, s, [], s.chain[0], s);
  }

  /** For any run of a node without peers that mined no COINBASE pending transaction,
      replaying its log from a fresh bootstrap gives its chain and its index: rejected,
      early and duplicate blocks included. */
  lemma {:induction false} ReplayReproduces(p: Protocol, me: Address, tr: seq<State>, evs: seq<Event>, k: nat,
      joiner: State)
    requires Run(p, me, tr, evs) && k < |tr| && Boot(p, joiner)
    requires forall j | 0 <= j < k && evs[j].Mined? :: PlainlyMined(evs[j].b)
    ensures ReplayLog(p, joiner, tr[k].log).Next? && SameLedger(tr[k], ReplayLog(p, joiner, tr[k].log).state)
    decreases k
  {
    hide Boot, Step, Receive, PlainlyMined;
    if k == 0 {
      BootUnique(p, tr[0], joiner);
      BootReplays(p, joiner);
    } else {
      ReplayReproduces(p, me, tr, evs, k - 1, joiner);
      RunKeepsInv(p, me, tr, evs, k - 1);
      StepReplays(p, me, tr[k - 1], evs[k - 1], tr[k], joiner, ReplayLog(p, joiner, tr[k - 1].log).state);
    }
  }

  // ---------------------------------------------------------------- the exact condition

  /** The block a node mines is one that others take exactly when it is plain. */
  lemma MinedIsValidExactly(p: Protocol, me: Address, s: State, order: seq<Bytes>, b: Block, s': State)
    requires Inv(p, s) && Mines(p, me, s, order, b, Next(s'))
    ensures ValidateBlock(p, b) == Accept <==> PlainlyMined(b)
    ensures !PlainlyMined(b) ==> |b.transactions| > 1
    ensures b in s'.chain
  {
    hide Inv, CheckTx, ValidateBlock, ApplyTxs, MarkKeys, Sealed, LeastWorking;
    var c := Collect(p, AllTxs(s.chain), s.entries, s.pending, order);
    var txs := TxsOf(c.pending, c.keys);
    CollectedPending(p, s, order);
    assert Ordinary(b) == txs;
    MinerAgreesWithValidator(p, PrevHash(s.chain), txs, me, b);
    MineKeepsInv(p, me, s, order, b, Next(s'));
  }

  /** Replay puts only blocks on the chain that pass the validator. */
  lemma {:induction false} ReplayedIsValid(p: Protocol, s: State, log: seq<Block>)
    requires ReplayLog(p, s, log).Next?
    ensures forall b | b in ReplayLog(p, s, log).state.chain :: b in s.chain || ValidateBlock(p, b) == Accept
  {
    hide ValidateBlock, CheckBlockTxs, MarkSuccess, ApplyTxs;
    if log != [] {
      ReplayedIsValid(p, s, log[..|log| - 1]);
    }
  }

  /** A block that is not plain is on the miner's chain for good and on no replayed one. */
  lemma NotReplayed(p: Protocol, me: Address, tr: seq<State>, evs: seq<Event>, j: nat, k: nat, joiner: State)
    requires Run(p, me, tr, evs) && j < k < |tr| && Boot(p, joiner)
    requires evs[j].Mined? && !PlainlyMined(evs[j].b)
    ensures !(ReplayLog(p, joiner, tr[k].log).Next? && SameLedger(tr[k], ReplayLog(p, joiner, tr[k].log).state))
  {
    hide Receive, Inv, ValidateBlock, PlainlyMined, ReplayLog, Mines, Sealed, LeastWorking, Admit, Poll, ApplyTxs;
    var b := evs[j].b;
    RunKeepsInv(p, me, tr, evs, j);
    assert Step(p, me, tr[j], evs[j], tr[j + 1]);
    MinedIsValidExactly(p, me, tr[j], evs[j].order, b, tr[j + 1]);
    ChainOnlyGrows(p, me, tr, evs, j + 1, k);
    assert b in tr[k].chain;
    BootTxs(p, joiner.chain[0]);
    assert b !in joiner.chain;
    if ReplayLog(p, joiner, tr[k].log).Next? {
      ReplayedIsValid(p, joiner, tr[k].log);
    }
  }

  /** Replay reproduces the ledger at a point of a run if and only if no block mined before
      it carries a pending transaction of type COINBASE. */
  lemma ReplayReproducesExactly(p: Protocol, me: Address, tr: seq<State>, evs: seq<Event>, k: nat, joiner: State)
    requires Run(p, me, tr, evs) && k < |tr| && Boot(p, joiner)
    ensures ReplayLog(p, joiner, tr[k].log).Next? && SameLedger(tr[k], ReplayLog(p, joiner, tr[k].log).state)
            <==> forall j | 0 <= j < k && evs[j].Mined? :: PlainlyMined(evs[j].b)
  {
    hide Boot, Step, SameLedger, PlainlyMined, ReplayLog;
    if forall j | 0 <= j < k && evs[j].Mined? :: PlainlyMined(evs[j].b) {
      ReplayReproduces(p, me, tr, evs, k, joiner);
    } else {
      var j :| 0 <= j < k && evs[j].Mined? && !PlainlyMined(evs[j].b);
      NotReplayed(p, me, tr, evs, j, k, joiner);
    }
  }
}
