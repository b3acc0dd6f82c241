/** The node as a state machine (src/node/miner.go): what receiving a block, mining one,
    admitting a transaction and polling its status do to the chain, the UTXO index, the
    pending table and the log.  The locks that make these four atomic are the subject of
    module `Interleaving`. */
module Ledger {
  import opened Lists
  import opened Wire
  import opened Transactions
  import opened Blocks
  import opened Utxo
  import opened Validation

  // ---------------------------------------------------------------- state

  datatype Status = Pending | Invalid | Success | Handled

  datatype TxNode = TxNode(tx: Transaction, clerkId: int, status: Status, hash: Bytes)

  datatype SideChain = SideChain(parentIndex: int, block: Block, depth: int, children: seq<SideChain>)

  datatype State = State(
    chain: seq<Block>,
    entries: Entries,
    pending: map<Bytes, TxNode>,
    seen: set<Bytes>,
    log: seq<Block>,
    sideChains: seq<SideChain>,
    orphanChains: seq<SideChain>)

  /** `Crash` is a panic.  `TreeEdit` and `Reorganise` stand for the edits of the side-chain
      trees and of the main chain that follow their guards; no run gets there. */
  datatype Outcome = Next(state: State) | Crash | TreeEdit | Reorganise

  function Tip(chain: seq<Block>): Block
    requires chain != []
  {
    chain[|chain| - 1]
  }

  /** The new block extends the main chain. */
  predicate Extends(chain: seq<Block>, b: Block) {
    chain == [] || b.prevBlock == Tip(chain).blockHash
  }

  // ---------------------------------------------------------------- receiving a block

  datatype Found = Missing | Seen | At(parentIndex: int, depth: int)

  function FindParent(sc: SideChain, prev: Bytes, cur: Bytes): Found {
    if sc.block.blockHash == cur then Seen
    else if sc.block.blockHash == prev then At(sc.parentIndex, sc.depth)
    else FindIn(sc.children, prev, cur)
  }

  function FindIn(scs: seq<SideChain>, prev: Bytes, cur: Bytes): Found {
    if scs == [] then Missing
    else
      var found := FindParent(scs[0], prev, cur);
      if found != Missing then found else FindIn(scs[1..], prev, cur)
  }

  /** The last block with the given hash, or -1. */
  function LastIndex(chain: seq<Block>, h: Bytes): (r: int)
    ensures -1 <= r < |chain|
    ensures r == -1 <==> forall b | b in chain :: b.blockHash != h
    ensures r >= 0 ==> chain[r].blockHash == h
  {
    if chain == [] then -1
    else if Tip(chain).blockHash == h then |chain| - 1
    else LastIndex(chain[..|chain| - 1], h)
  }

  /** Where a block that does not extend the main chain falls, and the guards on the way. */
  function PlaceAside(s: State, b: Block): Outcome {
    var trees := s.sideChains + s.orphanChains;
    if LastIndex(s.chain, b.blockHash) != -1 || FindIn(trees, b.prevBlock, b.blockHash) == Seen then Next(s)
    else if FindIn(trees, b.prevBlock, b.blockHash).At? then TreeEdit
    else if exists oc | oc in s.orphanChains :: oc.block.prevBlock == b.blockHash then TreeEdit
    else
      var parentIndex, depth := LastIndex(s.chain, b.prevBlock), 0;
      if parentIndex == -1 then Next(s)
      else if depth + parentIndex + 2 > |s.chain| then Reorganise
      else Next(s)
  }

  /** Being set aside changes nothing by itself. */
  lemma AsideIsSame(s: State, b: Block)
    ensures PlaceAside(s, b).Next? ==> PlaceAside(s, b).state == s
  {
  }

  /** A received block turns the pending entry of each of its ordinary transactions,
      where there is one, into a success. */
  function MarkSuccess(p: Protocol, pending: map<Bytes, TxNode>, txs: seq<Transaction>): map<Bytes, TxNode> {
    if txs == [] then pending
    else MarkTx(p, MarkSuccess(p, pending, txs[..|txs| - 1]), txs[|txs| - 1])
  }

  function MarkTx(p: Protocol, pending: map<Bytes, TxNode>, tx: Transaction): map<Bytes, TxNode> {
    var h := TxHash(p, tx);
    if tx.kind != COINBASE && h in pending then MarkKey(pending, h) else pending
  }

  function MarkKey(pending: map<Bytes, TxNode>, h: Bytes): map<Bytes, TxNode>
    requires h in pending
  {
    pending[h := pending[h].(status := Success)]
  }

  /** The new block is on the chain, but neither the index nor the pending table shows it. */
  function Appended(s: State, b: Block): State {
    s.(chain := s.chain + [b], log := s.log + [b])
  }

  /** The check of the transactions of a block that extends the main chain. */
  function CheckExtension(p: Protocol, s: State, b: Block): Verdict {
    CheckBlockTxs(p, AllTxs(s.chain), s.entries, b)
  }

  function Receive(p: Protocol, s: State, b: Block): Outcome {
    var logged := s.(log := s.log + [b]);
    match ValidateBlock(p, b)
    case Panic => Crash
    case Reject => Next(logged)
    case Accept =>
      if !Extends(s.chain, b) then PlaceAside(logged, b)
      else
        match CheckExtension(p, s, b)
        case Panic => Crash
        case Reject => Next(logged)
        case Accept =>
          match ApplyTxs(p, s.entries, b.transactions)
          case None => Crash
          case Some(e) => Next(Appended(s, b).(entries := e, pending := MarkSuccess(p, s.pending, b.transactions)))
  }

  // ---------------------------------------------------------------- mining a block

  datatype Batch = Batch(keys: seq<Bytes>, pending: map<Bytes, TxNode>) | BatchCrash

  /** Validates the pending transactions in the order the map happens to yield them. */
  function Collect(p: Protocol, past: seq<Transaction>, e: Entries, pending: map<Bytes, TxNode>,
      order: seq<Bytes>): Batch {
    if order == [] then Batch([], pending)
    else Consider(p, past, e, Collect(p, past, e, pending, order[..|order| - 1]), order[|order| - 1])
  }

  /** One turn of the loop. */
  function Consider(p: Protocol, past: seq<Transaction>, e: Entries, c: Batch, h: Bytes): Batch {
    if c.BatchCrash? || h !in c.pending || c.pending[h].status != Pending then c
    else
      match CheckTx(p, past, e, c.pending[h].tx)
      case Panic => BatchCrash
      case Reject => c.(pending := c.pending[h := c.pending[h].(status := Invalid)])
      case Accept => c.(keys := c.keys + [h])
  }

  /** A map iteration visits every key once. */
  ghost predicate IsOrder(order: seq<Bytes>, pending: map<Bytes, TxNode>) {
    && (forall h :: h in order <==> h in pending)
    && NoRepeats(order)
  }

  function TxsOf(pending: map<Bytes, TxNode>, keys: seq<Bytes>): (txs: seq<Transaction>)
    requires forall h | h in keys :: h in pending
    ensures |txs| == |keys|
  {
    seq(|keys|, k requires 0 <= k < |keys| => pending[keys[k]].tx)
  }

  function MarkKeys(pending: map<Bytes, TxNode>, keys: seq<Bytes>): map<Bytes, TxNode>
    requires forall h | h in keys :: h in pending
  {
    map h | h in pending :: if h in keys then pending[h].(status := Success) else pending[h]
  }

  lemma OneMoreKey(m: map<Bytes, TxNode>, keys: seq<Bytes>, k: nat)
    requires k < |keys| && forall h | h in keys :: h in m
    ensures keys[k] in MarkKeys(m, keys[..k]) && MarkKeys(m, keys[..k + 1]) == MarkKey(MarkKeys(m, keys[..k]), keys[k])
  {
    assert keys[..k + 1] == keys[..k] + [keys[k]];
  }

  /** The parent hash the miner reads, in a buffer of 32 bytes. */
  function PrevHash(chain: seq<Block>): Bytes {
    if chain == [] then Zeros(HASH_NUM_BYTES) else Fit(Tip(chain).blockHash, HASH_NUM_BYTES)
  }

  lemma {:induction false} CollectKeys(p: Protocol, past: seq<Transaction>, e: Entries, pending: map<Bytes, TxNode>,
      order: seq<Bytes>)
    requires Collect(p, past, e, pending, order).Batch?
    ensures var c := Collect(p, past, e, pending, order);
      && c.pending.Keys == pending.Keys
      && (forall h | h in c.keys :: h in pending && CheckTx(p, past, e, pending[h].tx) == Accept)
      && (forall h | h in pending :: c.pending[h] == pending[h] || c.pending[h] == pending[h].(status := Invalid))
  {
    hide CheckTx;
    if order != [] {
      CollectKeys(p, past, e, pending, order[..|order| - 1]);
    }
  }

  /** A pending transaction that passes, fails, or crashes the check. */
  predicate Judged(p: Protocol, past: seq<Transaction>, e: Entries, n: TxNode, v: Verdict) {
    n.status == Pending && CheckTx(p, past, e, n.tx) == v
  }

  /** The table the loop leaves: exactly the transactions that fail are marked. */
  function Marked(p: Protocol, past: seq<Transaction>, e: Entries, pending: map<Bytes, TxNode>,
      order: seq<Bytes>): map<Bytes, TxNode> {
    map h | h in pending ::
      if h in order && Judged(p, past, e, pending[h], Reject) then pending[h].(status := Invalid) else pending[h]
  }

  /** The keys the loop selects: exactly the transactions that pass, once each. */
  ghost predicate Selects(p: Protocol, past: seq<Transaction>, e: Entries, pending: map<Bytes, TxNode>,
      order: seq<Bytes>, keys: seq<Bytes>) {
    forall h ::
      multiset(keys)[h] == if h in order && h in pending && Judged(p, past, e, pending[h], Accept) then 1 else 0
  }

  /** The selection loop, without its order: it crashes exactly when some pending
      transaction crashes the check, and otherwise marks exactly those that fail and
      selects, once each, exactly those that pass. */
  lemma {:induction false} CollectMeaning(p: Protocol, past: seq<Transaction>, e: Entries, pending: map<Bytes, TxNode>,
      order: seq<Bytes>)
    requires NoRepeats(order) && forall h | h in order :: h in pending
    ensures var c := Collect(p, past, e, pending, order);
      && (c.BatchCrash? <==> exists h :: h in order && Judged(p, past, e, pending[h], Panic))
      && (c.Batch? ==> c.pending == Marked(p, past, e, pending, order) && Selects(p, past, e, pending, order, c.keys))
  {
    hide Judged, Consider, Selects;
    if order == [] {
      SelectsNone(p, past, e, pending);
    } else {
      var rest, last := order[..|order| - 1], order[|order| - 1];
      assert order == rest + [last] && last !in rest;
      CollectMeaning(p, past, e, pending, rest);
      var c := Collect(p, past, e, pending, rest);
      if c.Batch? {
        assert c.pending[last] == pending[last];
        ConsiderMeaning(p, past, e, pending, rest, last, c);
      } else {
        assert Collect(p, past, e, pending, order) == BatchCrash by {
          StaysCrashed(p, past, e, last);
        }
      }
    }
  }

  lemma StaysCrashed(p: Protocol, past: seq<Transaction>, e: Entries, h: Bytes)
    ensures Consider(p, past, e, BatchCrash, h) == BatchCrash
  {
  }

  lemma SelectsNone(p: Protocol, past: seq<Transaction>, e: Entries, pending: map<Bytes, TxNode>)
    ensures Selects(p, past, e, pending, [], []) && Marked(p, past, e, pending, []) == pending
  {
  }

  lemma ConsiderMeaning(p: Protocol, past: seq<Transaction>, e: Entries, pending: map<Bytes, TxNode>, rest: seq<Bytes>,
      h: Bytes, c: Batch)
    requires h in pending && h !in rest && c.Batch?
    requires c.pending == Marked(p, past, e, pending, rest) && Selects(p, past, e, pending, rest, c.keys)
    ensures var r := Consider(p, past, e, c, h);
      && (r.BatchCrash? <==> Judged(p, past, e, pending[h], Panic))
      && (r.Batch? ==>
            r.pending == Marked(p, past, e, pending, rest + [h]) && Selects(p, past, e, pending, rest + [h], r.keys))
  {
    hide CheckTx, Selects;
    assert forall g :: g in rest + [h] <==> g in rest || g == h;
    assert c.pending[h] == pending[h];
    var r := Consider(p, past, e, c, h);
    if r.Batch? {
      assert r.keys == if Judged(p, past, e, pending[h], Accept) then c.keys + [h] else c.keys;
      SelectsOne(p, past, e, pending, rest, h, c.keys);
    }
  }

  lemma SelectsOne(p: Protocol, past: seq<Transaction>, e: Entries, pending: map<Bytes, TxNode>, rest: seq<Bytes>,
      h: Bytes, keys: seq<Bytes>)
    requires h in pending && h !in rest && Selects(p, past, e, pending, rest, keys)
    ensures var passes := Judged(p, past, e, pending[h], Accept);
      Selects(p, past, e, pending, rest + [h], if passes then keys + [h] else keys)
  {
    hide Judged;
    assert multiset(keys + [h]) == multiset(keys) + multiset{h};
  }

  /** Two iterations over the same table crash alike, leave the same table and select the
      same keys, in whatever order. */
  lemma CollectAnyOrder(p: Protocol, past: seq<Transaction>, e: Entries, pending: map<Bytes, TxNode>, o1: seq<Bytes>,
      o2: seq<Bytes>)
    requires IsOrder(o1, pending) && IsOrder(o2, pending)
    ensures var c1, c2 := Collect(p, past, e, pending, o1), Collect(p, past, e, pending, o2);
      && (c1.Batch? <==> c2.Batch?)
      && (c1.Batch? ==> c1.pending == c2.pending && multiset(c1.keys) == multiset(c2.keys))
  {
    hide Collect, Judged, Marked, Selects;
    CollectMeaning(p, past, e, pending, o1);
    CollectMeaning(p, past, e, pending, o2);
    assert forall h :: h in o1 <==> h in o2;
    var c1, c2 := Collect(p, past, e, pending, o1), Collect(p, past, e, pending, o2);
    if c1.Batch? {
      SameMarked(p, past, e, pending, o1, o2);
      SameSelected(p, past, e, pending, o1, o2, c1.keys, c2.keys);
    }
  }

  lemma SameMarked(p: Protocol, past: seq<Transaction>, e: Entries, pending: map<Bytes, TxNode>, o1: seq<Bytes>,
      o2: seq<Bytes>)
    requires forall h :: h in o1 <==> h in o2
    ensures Marked(p, past, e, pending, o1) == Marked(p, past, e, pending, o2)
  {
    hide Judged;
  }

  lemma SameSelected(p: Protocol, past: seq<Transaction>, e: Entries, pending: map<Bytes, TxNode>, o1: seq<Bytes>,
      o2: seq<Bytes>, k1: seq<Bytes>, k2: seq<Bytes>)
    requires forall h :: h in o1 <==> h in o2
    requires Selects(p, past, e, pending, o1, k1) && Selects(p, past, e, pending, o2, k2)
    ensures multiset(k1) == multiset(k2)
  {
    hide Judged;
    assert forall h :: multiset(k1)[h] == multiset(k2)[h];
  }

  /** What the miner does with a block it generated, after its second look at the tip. */
  function Commit(p: Protocol, s: State, keys: seq<Bytes>, b: Block): Outcome
    requires forall h | h in keys :: h in s.pending
  {
    if !Extends(s.chain, b) then Next(s)
    else
      match ApplyTxs(p, s.entries, b.transactions)
      case None => Crash
      case Some(e) => Next(Appended(s, b).(entries := e, pending := MarkKeys(s.pending, keys)))
  }

  /** One pass of the mining loop over the threshold: collect, generate, commit. */
  ghost predicate Mines(p: Protocol, me: Address, s: State, order: seq<Bytes>, b: Block, r: Outcome) {
    && IsOrder(order, s.pending)
    && match Collect(p, AllTxs(s.chain), s.entries, s.pending, order)
       case BatchCrash => r == Crash
       case Batch(keys, m) =>
         && m.Keys == s.pending.Keys
         && (forall h | h in keys :: h in m)
         && Generated(p, PrevHash(s.chain), TxsOf(m, keys), me, b)
         && r == Commit(p, s.(pending := m), keys, b)
  }

  // ---------------------------------------------------------------- transactions from clerks

  /** The first critical section of `AppendTx`; the second result says whether the
      request was taken on, and is to be waited for. */
  function Admit(p: Protocol, s: State, tx: Transaction, clerkId: int): (State, bool) {
    var h := TxHash(p, tx);
    if !ValidComponents(tx) || h in s.seen then (s, false)
    else (s.(seen := s.seen + {h}, pending := s.pending[h := TxNode(tx, clerkId, Pending, h)]), true)
  }

  /** One look at the status; the second result is the reply, once there is one. */
  function Poll(s: State, h: Bytes): (State, Option<bool>)
    requires h in s.pending
  {
    var n := s.pending[h];
    match n.status
    case Success => (s.(pending := s.pending[h := n.(status := Handled)]), Some(true))
    case Invalid => (s.(pending := s.pending[h := n.(status := Handled)]), Some(false))
    case _ => (s, None)
  }

  // ---------------------------------------------------------------- runs

  datatype Event =
    | Received(b: Block)
    | Mined(order: seq<Bytes>, b: Block)
    | Admitted(tx: Transaction, clerkId: int)
    | Polled(hash: Bytes)

  /** A node of a network without peers, after `bootstrap`. */
  ghost predicate Boot(p: Protocol, s: State) {
    && |s.chain| == 1
    && IsGenesis(p, s.chain[0])
    && s.log == s.chain
    && ApplyTxs(p, map[], s.chain[0].transactions) == Some(s.entries)
    && s.pending == map[] && s.seen == {}
    && s.sideChains == [] && s.orphanChains == []
  }

  ghost predicate Step(p: Protocol, me: Address, s: State, ev: Event, s': State) {
    match ev
    case Received(b) => Receive(p, s, b) == Next(s')
    case Mined(order, b) => Mines(p, me, s, order, b, Next(s'))
    case Admitted(tx, clerkId) => Admit(p, s, tx, clerkId).0 == s'
    case Polled(h) => h in s.pending && Poll(s, h).0 == s'
  }

  /** A run: states and the events between them. */
  ghost predicate Run(p: Protocol, me: Address, tr: seq<State>, evs: seq<Event>) {
    && |tr| == |evs| + 1
    && Boot(p, tr[0])
    && forall k | 0 <= k < |evs| :: Step(p, me, tr[k], evs[k], tr[k + 1])
  }

  lemma RunPrefix(p: Protocol, me: Address, tr: seq<State>, evs: seq<Event>, n: nat)
    requires Run(p, me, tr, evs) && n <= |evs|
    ensures Run(p, me, tr[..n + 1], evs[..n])
  {
  }
}
