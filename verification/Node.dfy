/** `DRNode` itself (src/node/miner.go): the fields and the methods that update them in
    place, each proved to do what the state machine of module `Ledger` says.  One method
    is one critical section; `Snapshot` is the ledger the object holds. */
module Node {
  import opened Lists
  import opened Wire
  import opened Transactions
  import opened Blocks
  import opened Utxo
  import opened Validation
  import opened Ledger
  import opened Invariants
  import opened Replay
  import Gossip

  // ---------------------------------------------------------------- early exits

  lemma {:induction false} SpendStops(e: Entries, ins: seq<TxIn>, k: nat)
    requires k <= |ins| && SpendAll(e, ins[..k]).None?
    ensures SpendAll(e, ins).None?
    decreases |ins| - k
  {
    if k == |ins| {
      assert ins[..k] == ins;
    } else {
      assert ins[..k + 1][..k] == ins[..k];
      SpendStops(e, ins, k + 1);
    }
  }

  lemma {:induction false} ScanStops(p: Protocol, e: Entries, tx: Transaction, ins: seq<TxIn>, k: nat)
    requires k <= |ins| && ScanInputs(p, e, tx, ins[..k]).Stop?
    ensures ScanInputs(p, e, tx, ins) == ScanInputs(p, e, tx, ins[..k])
    decreases |ins| - k
  {
    hide CheckInput;
    if k == |ins| {
      assert ins[..k] == ins;
    } else {
      assert ins[..k + 1][..k] == ins[..k];
      ScanStops(p, e, tx, ins, k + 1);
    }
  }

  lemma {:induction false} EachStops(p: Protocol, past: seq<Transaction>, e: Entries, n: nat, txs: seq<Transaction>,
      k: nat)
    requires k <= |txs| && CheckEach(p, past, e, n, txs[..k]) != Accept
    ensures CheckEach(p, past, e, n, txs) == CheckEach(p, past, e, n, txs[..k])
    decreases |txs| - k
  {
    hide CheckOne;
    if k == |txs| {
      assert txs[..k] == txs;
    } else {
      assert txs[..k + 1][..k] == txs[..k];
      EachStops(p, past, e, n, txs, k + 1);
    }
  }

  lemma {:induction false} ApplyStops(p: Protocol, e: Entries, txs: seq<Transaction>, k: nat)
    requires k <= |txs| && ApplyTxs(p, e, txs[..k]).None?
    ensures ApplyTxs(p, e, txs).None?
    decreases |txs| - k
  {
    hide ApplyTx;
    if k == |txs| {
      assert txs[..k] == txs;
    } else {
      assert txs[..k + 1][..k] == txs[..k];
      ApplyStops(p, e, txs, k + 1);
    }
  }

  lemma {:induction false} CollectStops(p: Protocol, past: seq<Transaction>, e: Entries, pending: map<Bytes, TxNode>,
      order: seq<Bytes>, rest: seq<Bytes>)
    requires Collect(p, past, e, pending, order).BatchCrash?
    ensures Collect(p, past, e, pending, order + rest).BatchCrash?
    decreases |rest|
  {
    hide CheckTx;
    if rest == [] {
      assert order + rest == order;
    } else {
      var all := order + rest;
      assert all[..|all| - 1] == order + rest[..|rest| - 1];
      CollectStops(p, past, e, pending, order, rest[..|rest| - 1]);
    }
  }

  lemma {:induction false} FoundEarly(p: Protocol, a: seq<Transaction>, b: seq<Transaction>, h: Bytes)
    requires a <= b && FindTx(p, a, h).Some?
    ensures FindTx(p, b, h) == FindTx(p, a, h)
    decreases |b|
  {
    hide TxHash;
    if a != b {
      var n := |b| - 1;
      assert a <= b[..n];
      FoundEarly(p, a, b[..n], h);
    }
  }

  lemma {:induction false} FindTxConcat(p: Protocol, a: seq<Transaction>, b: seq<Transaction>, h: Bytes)
    ensures FindTx(p, a + b, h) == if FindTx(p, a, h).Some? then FindTx(p, a, h) else FindTx(p, b, h)
    decreases |b|
  {
    hide TxHash;
    if b == [] {
      assert a + b == a;
    } else {
      var n := |b| - 1;
      assert (a + b)[..|a + b| - 1] == a + b[..n];
      FindTxConcat(p, a, b[..n], h);
    }
  }

  // ---------------------------------------------------------------- the node

  class DRNode {
    const p: Protocol
    const me: Address
    const port: Gossip.Port

    var chain: seq<Block>
    var entries: Entries
    var pending: map<Bytes, TxNode>
    var seen: set<Bytes>
    var log: seq<Block>
    var sideChains: seq<SideChain>
    var orphanChains: seq<SideChain>
    var ports: seq<Gossip.Port>

    function Snapshot(): State
      reads this
    {
      State(chain, entries, pending, seen, log, sideChains, orphanChains)
    }

    /** `StartDRNode` without peers, up to and including `bootstrap`. */
    constructor (p: Protocol, me: Address, port: Gossip.Port)
      requires exists n: U32 :: Works(p, Template(p, Zeros(HASH_NUM_BYTES), [GenesisTx(p)], GENESIS_TIME), n)
      ensures this.p == p && this.me == me && this.port == port
      ensures Boot(p, Snapshot()) && ports == []
    {
      this.p, this.me, this.port := p, me, port;
      pending, seen, ports := map[], {}, [];
      sideChains, orphanChains := [], [];
      var genesis := GenerateGenesisBlock(p);
      chain, log, entries := [genesis], [genesis], map[];
      new;
      hide Sealed, LeastWorking, Snapshot;
      var tx := genesis.transactions[0];
      var panicked := UpdateUtxoDb(tx);
      FirstTx(p, tx);
    }

    /** Marks one output spent and drops its entry if that was the last one. */
    method SpendOne(i: TxIn) returns (panicked: bool)
      modifies this`entries
      ensures panicked <==> Spend(old(entries), i).None?
      ensures !panicked ==> entries == Spend(old(entries), i).value
    {
      var h, k := i.prevTxHash, i.prevTxOutIndex;
      if h !in entries || k !in entries[h] {
        return true;
      }
      var entry := entries[h][k := entries[h][k].(spent := true)];
      assert entries[h := entry] - {h} == entries - {h};
      entries := entries[h := entry];
      if AllSpent(entry) {
        entries := entries - {h};
      }
      panicked := false;
    }

    /** Marks the inputs spent, drops exhausted entries, then files the outputs. */
    method UpdateUtxoDb(tx: Transaction) returns (panicked: bool)
      modifies this`entries
      ensures panicked <==> ApplyTx(p, old(entries), tx).None?
      ensures !panicked ==> entries == ApplyTx(p, old(entries), tx).value
    {
      hide TxHash, AddOne, Spend;
      for k := 0 to |tx.txIns|
        invariant SpendAll(old(entries), tx.txIns[..k]) == Some(entries)
      {
        assert tx.txIns[..k + 1][..k] == tx.txIns[..k];
        panicked := SpendOne(tx.txIns[k]);
        if panicked {
          SpendStops(old(entries), tx.txIns, k + 1);
          return;
        }
      }
      assert tx.txIns[..|tx.txIns|] == tx.txIns;
      ghost var spent := entries;
      var h := TxHash(p, tx);
      for k := 0 to |tx.txOuts|
        invariant entries == AddAll(spent, h, tx.txOuts[..k])
      {
        assert tx.txOuts[..k + 1][..k] == tx.txOuts[..k];
        entries := AddOne(entries, h, k, tx.txOuts[k]);
      }
      assert tx.txOuts[..|tx.txOuts|] == tx.txOuts;
      panicked := false;
    }

    /** The first transaction on the chain with the given hash. */
    method FindTxInBlockChain(h: Bytes) returns (r: Option<Transaction>)
      ensures r == FindTx(p, AllTxs(chain), h)
    {
      hide FindTx, AllTxs;
      NothingFound(p, h);
      for i := 0 to |chain|
        invariant FindTx(p, AllTxs(chain[..i]), h).None?
      {
        FindInNext(p, chain, i, h);
        r := FindInBlock(chain[i].transactions, h);
        if r.Some? {
          return;
        }
      }
      assert chain[..|chain|] == chain;
      r := None;
    }

    method FindInBlock(txs: seq<Transaction>, h: Bytes) returns (r: Option<Transaction>)
      ensures r == FindTx(p, txs, h)
    {
      hide TxHash;
      for j := 0 to |txs|
        invariant FindTx(p, txs[..j], h).None?
      {
        assert txs[..j + 1][..j] == txs[..j];
        if TxHash(p, txs[j]) == h {
          FoundEarly(p, txs[..j + 1], txs, h);
          return Some(txs[j]);
        }
      }
      assert txs[..|txs|] == txs;
      r := None;
    }

    /** One input: present, unspent, signed, and paid to the key that signed. */
    method CheckTxIn(tx: Transaction, i: TxIn) returns (v: Verdict)
      ensures v == CheckInput(p, entries, tx, i)
    {
      hide HashNoSig;
      if i.prevTxHash !in entries {
        return Reject;
      }
      if i.prevTxOutIndex !in entries[i.prevTxHash] {
        return Panic;
      }
      var output := entries[i.prevTxHash][i.prevTxOutIndex];
      if output.spent {
        return Reject;
      }
      var m := HashTransactionNoSig(p, tx);
      if m.None? || !p.verify(i.sig, m.value, i.pubKey) {
        return Reject;
      }
      v := if output.pubKeyHash == p.pkHash(i.pubKey) then Accept else Reject;
    }

    /** The sum of the inputs, or why their scan stopped. */
    method ScanTxIns(tx: Transaction) returns (r: Scan)
      ensures r == ScanInputs(p, entries, tx, tx.txIns)
    {
      hide CheckInput;
      var sum: U32 := 0;
      for k := 0 to |tx.txIns|
        invariant ScanInputs(p, entries, tx, tx.txIns[..k]) == Total(sum)
      {
        var i := tx.txIns[k];
        assert tx.txIns[..k + 1][..k] == tx.txIns[..k];
        var v := CheckTxIn(tx, i);
        if v != Accept {
          ScanStops(p, entries, tx, tx.txIns, k + 1);
          return Stop(v);
        }
        AcceptedIsThere(p, entries, tx, i);
        sum := Wrap(sum + entries[i.prevTxHash][i.prevTxOutIndex].value);
      }
      assert tx.txIns[..|tx.txIns|] == tx.txIns;
      r := Total(sum);
    }

    method SumTxOuts(outs: seq<TxOut>) returns (sum: U32)
      ensures sum == OutputSum(outs)
    {
      sum := 0;
      for k := 0 to |outs|
        invariant sum == OutputSum(outs[..k])
      {
        assert outs[..k + 1][..k] == outs[..k];
        sum := Wrap(sum + outs[k].value);
      }
      assert outs[..|outs|] == outs;
    }

    method ValidateTransaction(tx: Transaction) returns (v: Verdict)
      ensures v == CheckTx(p, AllTxs(chain), entries, tx)
    {
      hide ScanInputs, FindTx;
      if |tx.txIns| == 0 || |tx.txOuts| == 0 {
        return Reject;
      }
      var scan := ScanTxIns(tx);
      if scan.Stop? {
        return scan.verdict;
      }
      var outputSum := SumTxOuts(tx.txOuts);
      if Wrap(scan.sum + TX_FEE) < outputSum {
        return Reject;
      }
      v := ValidateStructure(p, tx);
      if v == Accept && (tx.kind == COMMENT || tx.kind == UPVOTE) {
        var parent := FindTxInBlockChain(tx.parent);
        if parent.None? || !(parent.value.kind == POST || parent.value.kind == COMMENT) {
          return Reject;
        }
        if tx.kind == UPVOTE {
          if parent.value.txOuts == [] {
            return Panic;
          }
          if tx.txOuts[0].pubKeyHash != parent.value.txOuts[0].pubKeyHash {
            return Reject;
          }
        }
      }
    }

    method ValidateBlockTxs(b: Block) returns (v: Verdict)
      ensures v == CheckBlockTxs(p, AllTxs(chain), entries, b)
    {
      hide CheckTx, ValidateStructure;
      var txs := b.transactions;
      ghost var past := AllTxs(chain);
      for k := 0 to |txs|
        invariant CheckEach(p, past, entries, |txs|, txs[..k]) == Accept
      {
        var tx := txs[k];
        assert txs[..k + 1][..k] == txs[..k];
        if tx.kind != COINBASE {
          v := ValidateStructure(p, tx);
          if v == Accept {
            v := ValidateTransaction(tx);
          }
        } else if tx.txOuts == [] {
          v := Panic;
        } else if tx.txOuts[0].value != Wrap((|txs| - 1) * TX_FEE + TX_COINBASE) {
          v := Reject;
        } else {
          v := Accept;
        }
        assert v == CheckOne(p, past, entries, |txs|, tx);
        if v != Accept {
          EachStops(p, past, entries, |txs|, txs, k + 1);
          return;
        }
      }
      assert txs[..|txs|] == txs;
      v := Accept;
    }

    /** Where a block that does not extend the chain falls; nothing is recorded. */
    method PlaceBlockAside(b: Block) returns (r: Outcome)
      ensures r == PlaceAside(Snapshot(), b)
    {
      hide FindIn;
      var parentIndex := -1;
      for k := 0 to |chain|
        invariant LastIndex(chain[..k], b.blockHash) == -1
        invariant parentIndex == LastIndex(chain[..k], b.prevBlock)
      {
        assert chain[..k + 1][..k] == chain[..k];
        if chain[k].blockHash == b.blockHash {
          assert chain[k] in chain;
          return Next(Snapshot());
        }
        if chain[k].blockHash == b.prevBlock {
          parentIndex := k;
        }
      }
      assert chain[..|chain|] == chain;
      var found := FindIn(sideChains + orphanChains, b.prevBlock, b.blockHash);
      if found == Seen {
        return Next(Snapshot());
      }
      if found.At? || exists oc | oc in orphanChains :: oc.block.prevBlock == b.blockHash {
        return TreeEdit;
      }
      if parentIndex != -1 && 0 + parentIndex + 2 > |chain| {
        return Reorganise;
      }
      r := Next(Snapshot());
    }

    /** `SendBlock`, under `mu` and `bcmu`. */
    method SendBlock(b: Block) returns (r: Outcome)
      modifies this`chain, this`entries, this`pending, this`log
      ensures r == Receive(p, old(Snapshot()), b)
      ensures r.Next? ==> Snapshot() == r.state
    {
      hide CheckBlockTxs, PlaceAside, ApplyTxs, MarkSuccess;
      log := log + [b];
      var v := ValidateBlock(p, b);
      hide ValidateBlock;
      if v != Accept {
        return if v == Panic then Crash else Next(Snapshot());
      }
      if !(chain == [] || b.prevBlock == chain[|chain| - 1].blockHash) {
        r := PlaceBlockAside(b);
        AsideIsSame(Snapshot(), b);
        return;
      }
      v := ValidateBlockTxs(b);
      if v != Accept {
        return if v == Panic then Crash else Next(Snapshot());
      }
      chain := chain + [b];
      var panicked := EnterTxs(b.transactions);
      r := if panicked then Crash else Next(Snapshot());
    }

    /** The loop of `SendBlock` under `utxoMu`: marks and applies each transaction. */
    method EnterTxs(txs: seq<Transaction>) returns (panicked: bool)
      modifies this`entries, this`pending
      ensures panicked <==> ApplyTxs(p, old(entries), txs).None?
      ensures !panicked ==> entries == ApplyTxs(p, old(entries), txs).value
      ensures !panicked ==> pending == MarkSuccess(p, old(pending), txs)
    {
      hide ApplyTx, TxHash;
      for k := 0 to |txs|
        invariant ApplyTxs(p, old(entries), txs[..k]) == Some(entries)
        invariant pending == MarkSuccess(p, old(pending), txs[..k])
      {
        var tx := txs[k];
        assert txs[..k + 1][..k] == txs[..k];
        if tx.kind != COINBASE {
          var h := TxHash(p, tx);
          if h in pending {
            pending := pending[h := pending[h].(status := Success)];
          }
        }
        panicked := UpdateUtxoDb(tx);
        if panicked {
          ApplyStops(p, old(entries), txs, k + 1);
          return;
        }
      }
      assert txs[..|txs|] == txs;
      panicked := false;
    }

    /** A joining node runs the log it was sent through `SendBlock`; each block is logged
        again on the way. */
    method Replay(received: seq<Block>) returns (r: Outcome)
      modifies this`chain, this`entries, this`pending, this`log
      ensures r == ReplayLog(p, old(Snapshot()).(log := received), received)
      ensures r.Next? ==> Snapshot() == r.state
    {
      hide Receive;
      log := received;
      ghost var start := Snapshot();
      r := Next(Snapshot());
      for k := 0 to |received|
        invariant r == ReplayLog(p, start, received[..k]) && r == Next(Snapshot())
      {
        assert received[..k + 1][..k] == received[..k];
        r := SendBlock(received[k]);
        if !r.Next? {
          ReplayStops(p, start, received, k + 1);
          return;
        }
      }
      assert received[..|received|] == received;
    }

    /** The selection loop of `mine`: every pending transaction is validated, in the order
        the map yields them, and marked invalid or selected. */
    method CollectPending() returns (r: Batch, ghost order: seq<Bytes>)
      modifies this`pending
      ensures IsOrder(order, old(pending))
      ensures r == Collect(p, AllTxs(chain), entries, old(pending), order)
      ensures r.Batch? ==> pending == r.pending
    {
      hide CheckTx, Collect, IsOrder, Visited;
      ghost var past := AllTxs(chain);
      ghost var all := old(pending);
      var keys, todo: set<Bytes> := [], pending.Keys;
      order := [];
      VisitNone(p, past, entries, all);
      while todo != {}
        invariant pending.Keys == all.Keys && todo <= all.Keys
        invariant Visited(order, todo, all.Keys)
        invariant Collect(p, past, entries, all, order) == Batch(keys, pending)
        decreases |todo|
      {
        var h :| h in todo;
        VisitOne(order, todo, all.Keys, h);
        CollectOne(p, past, entries, all, order, h);
        todo, order := todo - {h}, order + [h];
        if pending[h].status == Pending {
          var v := ValidateTransaction(pending[h].tx);
          if v == Panic {
            r, order := BatchCrash, GiveUp(p, past, entries, all, order, todo);
            return;
          } else if v == Reject {
            pending := pending[h := pending[h].(status := Invalid)];
          } else {
            keys := keys + [h];
          }
        }
      }
      VisitedIsOrder(order, all);
      r := Batch(keys, pending);
    }

    /** One pass of the mining loop, with enough transactions pending.  The tip is read, the
        block generated, and the tip looked at again before the block is committed. */
    method MineOnce(now: U32) returns (r: Outcome, ghost order: seq<Bytes>, b: Block)
      requires Inv(p, Snapshot()) && WorkCanBeDone(p, me, now, Snapshot())
      modifies this`chain, this`entries, this`pending, this`log
      ensures Mines(p, me, old(Snapshot()), order, b, r)
      ensures r.Next? ==> Snapshot() == r.state
    {
      hide Inv, Collect, IsOrder, Generated, WorkCanBeDone, ApplyTxs, MarkKeys;
      ghost var start := Snapshot();
      var batch;
      batch, order := CollectPending();
      b := Block([], [], 0, 0, 0, [], []);
      if batch.BatchCrash? {
        r := Crash;
        return;
      }
      CollectedPending(p, start, order);
      CollectKeys(p, AllTxs(chain), entries, start.pending, order);
      var keys := batch.keys;
      var txs := TxsOf(pending, keys);
      var prev := PrevHash(chain);
      CanGenerate(p, me, now, start, order);
      b := GenerateBlock(p, prev, txs, me, now);
      if chain == [] || b.prevBlock == chain[|chain| - 1].blockHash {
        chain := chain + [b];
        log := log + [b];
        var panicked := EnterMined(keys, b);
        r := if panicked then Crash else Next(Snapshot());
      } else {
        r := Next(Snapshot());
      }
    }

    /** Enters the mined transactions one by one, then the reward. */
    method EnterMined(keys: seq<Bytes>, b: Block) returns (panicked: bool)
      requires forall h | h in keys :: h in pending
      requires |b.transactions| == |keys| + 1 && b.transactions[..|keys|] == TxsOf(pending, keys)
      modifies this`entries, this`pending
      ensures panicked <==> ApplyTxs(p, old(entries), b.transactions).None?
      ensures !panicked ==> entries == ApplyTxs(p, old(entries), b.transactions).value
      ensures !panicked ==> pending == MarkKeys(old(pending), keys)
    {
      hide ApplyTx, MarkKeys, MarkKey;
      var txs := b.transactions;
      NoKeys(pending);
      for k := 0 to |keys|
        invariant ApplyTxs(p, old(entries), txs[..k]) == Some(entries)
        invariant pending == MarkKeys(old(pending), keys[..k])
      {
        assert txs[..k + 1][..k] == txs[..k];
        OneMoreKey(old(pending), keys, k);
        pending := MarkKey(pending, keys[k]);
        panicked := UpdateUtxoDb(txs[k]);
        if panicked {
          ApplyStops(p, old(entries), txs, k + 1);
          return;
        }
      }
      assert keys[..|keys|] == keys && txs[..|txs|] == txs && txs[..|txs|][..|keys|] == txs[..|keys|];
      panicked := UpdateUtxoDb(txs[|txs| - 1]);
    }

    /** The first critical section of `AppendTx`. */
    method AppendTx(tx: Transaction, clerkId: int) returns (taken: bool)
      modifies this`pending, this`seen
      ensures (Snapshot(), taken) == Admit(p, old(Snapshot()), tx, clerkId)
    {
      hide TxHash;
      if !ValidComponents(tx) {
        return false;
      }
      var h := TxHash(p, tx);
      if h in seen {
        return false;
      }
      seen := seen + {h};
      pending := pending[h := TxNode(tx, clerkId, Pending, h)];
      taken := true;
    }

    /** One look at the status in `AppendTx`'s waiting loop. */
    method PollStatus(h: Bytes) returns (reply: Option<bool>)
      requires h in pending
      modifies this`pending
      ensures (Snapshot(), reply) == Poll(old(Snapshot()), h)
    {
      if pending[h].status == Success {
        reply := Some(true);
        pending := pending[h := pending[h].(status := Handled)];
      } else if pending[h].status == Invalid {
        reply := Some(false);
        pending := pending[h := pending[h].(status := Handled)];
      } else {
        reply := None;
      }
    }

    /** Merges a list of peers into the node's own; `dial` says which ports answer. */
    method MergePeers(heard: seq<Gossip.Port>, dial: Gossip.Port -> bool)
      modifies this`ports
      ensures ports == Gossip.Merge(port, old(ports), heard, dial)
    {
      for k := 0 to |heard|
        invariant ports == Gossip.Merge(port, old(ports), heard[..k], dial)
      {
        var q := heard[k];
        assert heard[..k + 1][..k] == heard[..k];
        if q != port {
          var found := false;
          for j := 0 to |ports|
            invariant found <==> q in ports[..j]
          {
            if ports[j] == q {
              found := true;
            }
          }
          assert ports[..|ports|] == ports;
          if !found && dial(q) {
            ports := ports + [q];
          }
        }
      }
      assert heard[..|heard|] == heard;
    }
  }

  // ---------------------------------------------------------------- helpers of the loops

  lemma {:induction false} ReplayStops(p: Protocol, s: State, log: seq<Block>, k: nat)
    requires k <= |log| && !ReplayLog(p, s, log[..k]).Next?
    ensures ReplayLog(p, s, log) == ReplayLog(p, s, log[..k])
    decreases |log| - k
  {
    hide Receive;
    if k == |log| {
      assert log[..k] == log;
    } else {
      assert log[..k + 1][..k] == log[..k];
      ReplayStops(p, s, log, k + 1);
    }
  }

  /** `order` lists, once each, the keys that are no longer to do. */
  ghost predicate Visited(order: seq<Bytes>, todo: set<Bytes>, all: set<Bytes>) {
    && todo <= all
    && (forall h :: h in order <==> h in all && h !in todo)
    && NoRepeats(order)
  }

  lemma VisitNone(p: Protocol, past: seq<Transaction>, e: Entries, pending: map<Bytes, TxNode>)
    ensures Visited([], pending.Keys, pending.Keys)
    ensures Collect(p, past, e, pending, []) == Batch([], pending)
  {
  }

  lemma VisitOne(order: seq<Bytes>, todo: set<Bytes>, all: set<Bytes>, h: Bytes)
    requires Visited(order, todo, all) && h in todo
    ensures Visited(order + [h], todo - {h}, all)
  {
    var next := order + [h];
    assert forall g :: g in next <==> g in order || g == h;
    forall j, k | 0 <= j < k < |next| ensures next[j] != next[k] {
      assert next[j] in order;
    }
  }

  lemma VisitedIsOrder(order: seq<Bytes>, pending: map<Bytes, TxNode>)
    requires Visited(order, {}, pending.Keys)
    ensures IsOrder(order, pending)
  {
  }

  lemma CollectOne(p: Protocol, past: seq<Transaction>, e: Entries, pending: map<Bytes, TxNode>, order: seq<Bytes>,
      h: Bytes)
    requires Collect(p, past, e, pending, order).Batch? && h in Collect(p, past, e, pending, order).pending
    ensures var m := Collect(p, past, e, pending, order).pending;
      var keys := Collect(p, past, e, pending, order).keys;
      Collect(p, past, e, pending, order + [h]) ==
        if m[h].status != Pending then Batch(keys, m)
        else match CheckTx(p, past, e, m[h].tx)
          case Panic => BatchCrash
          case Reject => Batch(keys, m[h := m[h].(status := Invalid)])
          case Accept => Batch(keys + [h], m)
  {
    hide CheckTx;
    assert (order + [h])[..|order|] == order;
  }

  /** After a panic the keys left over complete the order in any way. */
  ghost function GiveUp(p: Protocol, past: seq<Transaction>, e: Entries, pending: map<Bytes, TxNode>,
      order: seq<Bytes>, todo: set<Bytes>): (r: seq<Bytes>)
    requires Visited(order, todo, pending.Keys) && Collect(p, past, e, pending, order).BatchCrash?
    ensures IsOrder(r, pending) && Collect(p, past, e, pending, r).BatchCrash?
    decreases |todo|
  {
    hide Collect, Visited, IsOrder;
    if todo == {} then
      VisitedIsOrder(order, pending);
      order
    else
      var h :| h in todo;
      VisitOne(order, todo, pending.Keys, h);
      CollectStops(p, past, e, pending, order, [h]);
      GiveUp(p, past, e, pending, order + [h], todo - {h})
  }

  /** Whichever order the map yields, some nonce works for the block it leads to. */
  ghost predicate WorkCanBeDone(p: Protocol, me: Address, now: U32, s: State) {
    forall order | IsOrder(order, s.pending) ::
      CanBeMined(p, me, now, s.chain, Collect(p, AllTxs(s.chain), s.entries, s.pending, order))
  }

  ghost predicate CanBeMined(p: Protocol, me: Address, now: U32, chain: seq<Block>, c: Batch) {
    c.Batch? && (forall h | h in c.keys :: h in c.pending) ==>
      var txs := TxsOf(c.pending, c.keys);
      exists n: U32 :: Works(p, Template(p, PrevHash(chain), txs + [MakeCoinbaseTx(|txs|, me)], now), n)
  }

  lemma CanGenerate(p: Protocol, me: Address, now: U32, s: State, order: seq<Bytes>)
    requires WorkCanBeDone(p, me, now, s) && IsOrder(order, s.pending)
    ensures CanBeMined(p, me, now, s.chain, Collect(p, AllTxs(s.chain), s.entries, s.pending, order))
  {
    hide IsOrder, CanBeMined;
  }

  lemma NoKeys(m: map<Bytes, TxNode>)
    ensures MarkKeys(m, []) == m
  {
  }

  lemma NothingFound(p: Protocol, h: Bytes)
    ensures FindTx(p, AllTxs([]), h).None?
  {
  }

  /** When the blocks before do not have it, the next block decides. */
  lemma FindInNext(p: Protocol, chain: seq<Block>, i: nat, h: Bytes)
    requires i < |chain| && FindTx(p, AllTxs(chain[..i]), h).None?
    ensures FindTx(p, AllTxs(chain[..i + 1]), h) == FindTx(p, chain[i].transactions, h)
    ensures FindTx(p, chain[i].transactions, h).Some? ==>
      FindTx(p, AllTxs(chain), h) == FindTx(p, chain[i].transactions, h)
  {
    hide FindTx, AllTxs;
    assert chain[..i + 1] == chain[..i] + [chain[i]];
    AllTxsLast(chain[..i], chain[i]);
    FindTxConcat(p, AllTxs(chain[..i]), chain[i].transactions, h);
    if FindTx(p, chain[i].transactions, h).Some? {
      AllTxsPrefix(chain[..i + 1], chain);
      FoundEarly(p, AllTxs(chain[..i + 1]), AllTxs(chain), h);
    }
  }

  lemma FirstTx(p: Protocol, tx: Transaction)
    ensures ApplyTxs(p, map[], [tx]) == ApplyTx(p, map[], tx)
    ensures tx.txIns == [] ==> ApplyTx(p, map[], tx).Some?
  {
    assert [tx][..0] == [];
  }

  lemma AcceptedIsThere(p: Protocol, e: Entries, tx: Transaction, i: TxIn)
    requires CheckInput(p, e, tx, i) == Accept
    ensures i.prevTxHash in e && i.prevTxOutIndex in e[i.prevTxHash]
  {
  }
}
