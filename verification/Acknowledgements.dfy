/** What becomes of a clerk's request: which steps change the status of a pending
    transaction, and what the waiting loop of `AppendTx` answers (src/node/miner.go). */
module Acknowledgements {
  import opened Lists
  import opened Wire
  import opened Transactions
  import opened Blocks
  import opened Utxo
  import opened Validation
  import opened Ledger
  import opened Invariants

  // ---------------------------------------------------------------- single steps

  /** A received block leaves the node as it was, but for the log, or it is appended and
      turns exactly the pending transactions it carries into successes. */
  lemma ReceiveEffect(p: Protocol, s: State, b: Block)
    requires Inv(p, s) && Receive(p, s, b).Next?
    ensures var t := Receive(p, s, b).state;
      && t.log == s.log + [b] && t.seen == s.seen
      && (t.chain != s.chain <==>
            ValidateBlock(p, b) == Accept && Extends(s.chain, b) && CheckExtension(p, s, b) == Accept)
      && (t.chain == s.chain ==> t.entries == s.entries && t.pending == s.pending)
      && (t.chain != s.chain ==>
            && t.chain == s.chain + [b] && t.pending.Keys == s.pending.Keys
            && forall h | h in s.pending ::
                 t.pending[h] ==
                   if Carries(p, b.transactions, h) then s.pending[h].(status := Success) else s.pending[h])
  {
    hide ValidateBlock, CheckBlockTxs, ApplyTxs, MarkSuccess, PlaceAside, ChainInv, PendingInv, Carries;
    MarkSuccessMeaning(p, s.pending, b.transactions);
    AsideIsSame(s.(log := s.log + [b]), b);
    assert s.chain + [b] != s.chain;
  }

  /** A pass of the miner turns exactly the pending transactions that pass the check into
      successes, carries exactly those, and marks exactly those that fail as invalid. */
  lemma MineEffect(p: Protocol, me: Address, s: State, order: seq<Bytes>, b: Block, t: State)
    requires Inv(p, s) && Mines(p, me, s, order, b, Next(t))
    ensures t.chain == s.chain + [b] && t.log == s.log + [b] && t.seen == s.seen && b.transactions != []
    ensures t.pending.Keys == s.pending.Keys
    ensures forall h | h in s.pending :: t.pending[h] == Remarked(p, AllTxs(s.chain), s.entries, s.pending[h])
    ensures forall h | h in s.pending && Judged(p, AllTxs(s.chain), s.entries, s.pending[h], Accept) ::
      s.pending[h].tx in Ordinary(b)
    ensures forall tx | tx in Ordinary(b) ::
      && TxHash(p, tx) in s.pending && s.pending[TxHash(p, tx)].tx == tx
      && Judged(p, AllTxs(s.chain), s.entries, s.pending[TxHash(p, tx)], Accept)
  {
    hide Inv, CheckTx, Sealed, LeastWorking, ApplyTxs, Collect, Judged, TxHash, Selects, IsOrder;
    var past := AllTxs(s.chain);
    var c := Collect(p, past, s.entries, s.pending, order);
    CollectedPending(p, s, order);
    MineKeepsInv(p, me, s, order, b, Next(t));
    OrderHasAll(order, s.pending);
    CollectMeaning(p, past, s.entries, s.pending, order);
    assert Ordinary(b) == TxsOf(c.pending, c.keys);
    SelectedAre(p, past, s.entries, s.pending, order, c.keys);
    forall h | h in s.pending
      ensures t.pending[h] == Remarked(p, past, s.entries, s.pending[h])
    {
      JudgedOnce(p, past, s.entries, s.pending[h]);
    }
    SelectedTxs(p, s, c.pending, c.keys);
  }

  /** What a pass of the miner makes of an entry. */
  function Remarked(p: Protocol, past: seq<Transaction>, e: Entries, n: TxNode): TxNode {
    if Judged(p, past, e, n, Accept) then n.(status := Success)
    else if Judged(p, past, e, n, Reject) then n.(status := Invalid)
    else n
  }

  lemma OrderHasAll(order: seq<Bytes>, pending: map<Bytes, TxNode>)
    requires IsOrder(order, pending)
    ensures NoRepeats(order) && forall h :: h in order <==> h in pending
  {
  }

  lemma JudgedOnce(p: Protocol, past: seq<Transaction>, e: Entries, n: TxNode)
    ensures !(Judged(p, past, e, n, Accept) && Judged(p, past, e, n, Reject))
  {
    hide CheckTx;
  }

  lemma SelectedAre(p: Protocol, past: seq<Transaction>, e: Entries, pending: map<Bytes, TxNode>, order: seq<Bytes>,
      keys: seq<Bytes>)
    requires Selects(p, past, e, pending, order, keys) && forall h :: h in order <==> h in pending
    ensures forall h :: h in keys <==> h in pending && Judged(p, past, e, pending[h], Accept)
  {
    hide Judged;
    forall h
      ensures h in keys <==> h in pending && Judged(p, past, e, pending[h], Accept)
    {
      assert h in keys <==> multiset(keys)[h] > 0;
    }
  }

  lemma SelectedTxs(p: Protocol, s: State, m: map<Bytes, TxNode>, keys: seq<Bytes>)
    requires Inv(p, s) && m.Keys == s.pending.Keys
    requires forall h | h in m :: m[h].tx == s.pending[h].tx
    requires forall h | h in keys :: h in m
    ensures forall h | h in keys :: s.pending[h].tx in TxsOf(m, keys)
    ensures forall tx | tx in TxsOf(m, keys) :: TxHash(p, tx) in keys && s.pending[TxHash(p, tx)].tx == tx
  {
    hide ChainInv, TxHash, OnChain;
    forall h | h in keys
      ensures s.pending[h].tx in TxsOf(m, keys)
    {
      var k :| 0 <= k < |keys| && keys[k] == h;
      assert TxsOf(m, keys)[k] == m[h].tx;
    }
  }

  /** A request is taken on exactly when it is well-formed and its hash is new; then it is
      recorded as seen and pending, and nothing else changes. */
  lemma AdmitEffect(p: Protocol, s: State, tx: Transaction, clerkId: int)
    ensures var (t, taken), h := Admit(p, s, tx, clerkId), TxHash(p, tx);
      && (taken <==> ValidComponents(tx) && h !in s.seen)
      && (!taken ==> t == s)
      && (taken ==>
            && t == s.(seen := t.seen, pending := t.pending) && t.seen == s.seen + {h}
            && t.pending.Keys == s.pending.Keys + {h} && t.pending[h] == TxNode(tx, clerkId, Pending, h)
            && forall g | g in s.pending && g != h :: t.pending[g] == s.pending[g])
  {
    hide TxHash, ValidComponents;
  }

  /** A look answers true for a success, false for an invalid transaction, and otherwise
      not at all; an answer is remembered. */
  lemma PollEffect(s: State, h: Bytes)
    requires h in s.pending
    ensures var (t, reply), before := Poll(s, h), s.pending[h].status;
      && (reply == Some(true) <==> before == Success)
      && (reply == Some(false) <==> before == Invalid)
      && (reply == None <==> before == Pending || before == Handled)
      && t == s.(pending := t.pending) && t.pending.Keys == s.pending.Keys
      && t.pending[h] == s.pending[h].(status := t.pending[h].status)
      && t.pending[h].status == (if before == Pending then Pending else Handled)
      && forall g | g in s.pending && g != h :: t.pending[g] == s.pending[g]
  {
  }

  // ---------------------------------------------------------------- statuses along a run

  /** The step appends a block that carries the pending transaction `h`. */
  ghost predicate Enters(p: Protocol, s: State, ev: Event, t: State, h: Bytes) {
    && t.chain != s.chain
    && match ev
       case Received(b) => Carries(p, b.transactions, h)
       case Mined(_, b) => b.transactions != [] && exists tx :: tx in Ordinary(b) && TxHash(p, tx) == h
       case _ => false
  }

  /** The step is a pass of the miner in which the pending transaction `h` fails the check. */
  ghost predicate Fails(p: Protocol, s: State, ev: Event, h: Bytes) {
    ev.Mined? && h in s.pending && Judged(p, AllTxs(s.chain), s.entries, s.pending[h], Reject)
  }

  /** Every way a status can change: a block with the transaction makes it a success, a
      failed check makes it invalid, an answer makes it handled. */
  lemma StatusStep(p: Protocol, me: Address, s: State, ev: Event, t: State, h: Bytes)
    requires Inv(p, s) && Step(p, me, s, ev, t) && h in s.pending
    ensures h in t.pending && t.pending[h].tx == s.pending[h].tx && t.pending[h].clerkId == s.pending[h].clerkId
    ensures t.pending[h].status ==
            if Enters(p, s, ev, t, h) then Success
            else if Fails(p, s, ev, h) then Invalid
            else if ev == Polled(h) && s.pending[h].status != Pending then Handled
            else s.pending[h].status
  {
    hide Inv, Receive, Mines, Admit, Poll, TxHash, Judged, Carries;
    match ev
    case Received(b) => ReceiveEffect(p, s, b);
    case Mined(order, b) => MinedStatus(p, me, s, order, b, t, h);
    case Admitted(tx, clerkId) =>
      AdmitEffect(p, s, tx, clerkId);
      SeenIsPending(p, s);
      AdmitKeepsInv(p, s, tx, clerkId);
    case Polled(g) =>
      PollEffect(s, g);
      PollKeepsInv(p, s, g);
  }

  lemma MinedStatus(p: Protocol, me: Address, s: State, order: seq<Bytes>, b: Block, t: State, h: Bytes)
    requires Inv(p, s) && Mines(p, me, s, order, b, Next(t)) && h in s.pending
    ensures h in t.pending && t.pending[h].tx == s.pending[h].tx && t.pending[h].clerkId == s.pending[h].clerkId
    ensures Enters(p, s, Mined(order, b), t, h) <==> Judged(p, AllTxs(s.chain), s.entries, s.pending[h], Accept)
    ensures t.pending[h].status ==
            if Enters(p, s, Mined(order, b), t, h) then Success
            else if Judged(p, AllTxs(s.chain), s.entries, s.pending[h], Reject) then Invalid
            else s.pending[h].status
  {
    hide Inv, Mines, Judged, TxHash;
    MineEffect(p, me, s, order, b, t);
    PendingHash(p, s, h);
    if Judged(p, AllTxs(s.chain), s.entries, s.pending[h], Accept) {
      assert s.pending[h].tx in Ordinary(b);
    }
  }

  lemma PendingHash(p: Protocol, s: State, h: Bytes)
    requires Inv(p, s) && h in s.pending
    ensures TxHash(p, s.pending[h].tx) == h
  {
    hide ChainInv, TxHash, OnChain;
  }

  lemma SeenIsPending(p: Protocol, s: State)
    requires Inv(p, s)
    ensures s.seen == s.pending.Keys
  {
    hide ChainInv, PendingInv;
  }

  /** Nothing but an answer takes a success away. */
  lemma {:induction false} SuccessStays(p: Protocol, me: Address, tr: seq<State>, evs: seq<Event>, j: nat, k: nat,
      h: Bytes)
    requires Run(p, me, tr, evs) && j <= k < |tr| && h in tr[j].pending && tr[j].pending[h].status == Success
    requires forall i | j <= i < k :: evs[i] != Polled(h)
    ensures h in tr[k].pending && tr[k].pending[h].status == Success
    decreases k - j
  {
    hide Inv, Boot, Step, Enters, Fails;
    if j < k {
      SuccessStays(p, me, tr, evs, j, k - 1, h);
      RunKeepsInv(p, me, tr, evs, k - 1);
      StatusStep(p, me, tr[k - 1], evs[k - 1], tr[k], h);
      OnlyPendingFails(p, tr[k - 1], evs[k - 1], h);
    }
  }

  lemma OnlyPendingFails(p: Protocol, s: State, ev: Event, h: Bytes)
    ensures Fails(p, s, ev, h) ==> h in s.pending && s.pending[h].status == Pending
  {
    hide CheckTx;
  }

  /** Once a mined or received block carries a pending transaction, the first look at it
      afterwards answers true. */
  lemma EntryIsAnswered(p: Protocol, me: Address, tr: seq<State>, evs: seq<Event>, j: nat, k: nat, h: Bytes)
    requires Run(p, me, tr, evs) && j < k < |tr| && h in tr[j].pending && Enters(p, tr[j], evs[j], tr[j + 1], h)
    requires forall i | j < i < k :: evs[i] != Polled(h)
    ensures h in tr[k].pending && Poll(tr[k], h).1 == Some(true)
  {
    hide Inv, Boot, Step, Enters, Fails, Poll;
    RunKeepsInv(p, me, tr, evs, j);
    StatusStep(p, me, tr[j], evs[j], tr[j + 1], h);
    SuccessStays(p, me, tr, evs, j + 1, k, h);
    PollEffect(tr[k], h);
  }

  /** Invalid and answered transactions stay so, until a block carries them or they are
      looked at. */
  lemma {:induction false} SettledStays(p: Protocol, me: Address, tr: seq<State>, evs: seq<Event>, j: nat, k: nat,
      h: Bytes)
    requires Run(p, me, tr, evs) && j <= k < |tr| && h in tr[j].pending && tr[j].pending[h].status != Pending
    requires forall i | j <= i < k :: !Enters(p, tr[i], evs[i], tr[i + 1], h)
    requires tr[j].pending[h].status == Handled || forall i | j <= i < k :: evs[i] != Polled(h)
    ensures h in tr[k].pending && tr[k].pending[h].status == tr[j].pending[h].status
    decreases k - j
  {
    hide Inv, Boot, Step, Enters, Fails;
    if j < k {
      SettledStays(p, me, tr, evs, j, k - 1, h);
      RunKeepsInv(p, me, tr, evs, k - 1);
      StatusStep(p, me, tr[k - 1], evs[k - 1], tr[k], h);
      OnlyPendingFails(p, tr[k - 1], evs[k - 1], h);
    }
  }

  /** Once a pass of the miner rejects a transaction, the first look at it afterwards answers
      false, unless a block with it arrived in between. */
  lemma FailureIsAnswered(p: Protocol, me: Address, tr: seq<State>, evs: seq<Event>, j: nat, k: nat, h: Bytes)
    requires Run(p, me, tr, evs) && j < k < |tr| && Fails(p, tr[j], evs[j], h)
    requires forall i | j <= i < k :: !Enters(p, tr[i], evs[i], tr[i + 1], h)
    requires forall i | j < i < k :: evs[i] != Polled(h)
    ensures h in tr[k].pending && Poll(tr[k], h).1 == Some(false)
  {
    hide Inv, Boot, Step, Enters, Judged, Poll;
    RunKeepsInv(p, me, tr, evs, j);
    StatusStep(p, me, tr[j], evs[j], tr[j + 1], h);
    SettledStays(p, me, tr, evs, j + 1, k, h);
    PollEffect(tr[k], h);
  }

  /** Nobody is answered twice about the same entry: after an answer a look gives none, until
      a block carries the transaction once more. */
  lemma AnsweredOnce(p: Protocol, me: Address, tr: seq<State>, evs: seq<Event>, j: nat, k: nat, h: Bytes)
    requires Run(p, me, tr, evs) && j < k < |tr| && evs[j] == Polled(h) && h in tr[j].pending
    requires Poll(tr[j], h).1 != None && forall i | j < i < k :: !Enters(p, tr[i], evs[i], tr[i + 1], h)
    ensures h in tr[k].pending && Poll(tr[k], h).1 == None
  {
    hide Inv, Boot, Step, Enters, Fails, Poll;
    PollEffect(tr[j], h);
    RunKeepsInv(p, me, tr, evs, j);
    StatusStep(p, me, tr[j], evs[j], tr[j + 1], h);
    PolledEntersNothing(p, tr[j], tr[j + 1], h);
    SettledStays(p, me, tr, evs, j + 1, k, h);
    PollEffect(tr[k], h);
  }

  lemma PolledEntersNothing(p: Protocol, s: State, t: State, h: Bytes)
    ensures !Enters(p, s, Polled(h), t, h) && !Fails(p, s, Polled(h), h)
  {
  }

  /** Nobody is told false without reason: an entry is invalid only if some earlier pass of
      the miner found its transaction to fail the check. */
  lemma {:induction false} InvalidHasFailed(p: Protocol, me: Address, tr: seq<State>, evs: seq<Event>, k: nat, h: Bytes)
      returns (j: nat)
    requires Run(p, me, tr, evs) && k < |tr| && h in tr[k].pending && tr[k].pending[h].status == Invalid
    ensures j < k && Fails(p, tr[j], evs[j], h) && tr[j].pending[h].tx == tr[k].pending[h].tx
    decreases k
  {
    hide Inv, Step, Enters, Judged;
    if k == 0 {
      assert false;
    } else {
      hide Boot;
      RunKeepsInv(p, me, tr, evs, k - 1);
      if h in tr[k - 1].pending {
        StatusStep(p, me, tr[k - 1], evs[k - 1], tr[k], h);
        if Fails(p, tr[k - 1], evs[k - 1], h) {
          j := k - 1;
        } else {
          j := InvalidHasFailed(p, me, tr, evs, k - 1, h);
        }
      } else {
        NewIsPending(p, me, tr[k - 1], evs[k - 1], tr[k], h);
        assert false;
      }
    }
  }

  lemma NewIsPending(p: Protocol, me: Address, s: State, ev: Event, t: State, h: Bytes)
    requires Inv(p, s) && Step(p, me, s, ev, t) && h !in s.pending && h in t.pending
    ensures ev.Admitted? && t.pending[h] == TxNode(ev.tx, ev.clerkId, Pending, h) && TxHash(p, ev.tx) == h
  {
    hide Inv, Receive, Mines, Admit, Poll, TxHash, Judged, Carries;
    match ev
    case Received(b) => ReceiveEffect(p, s, b);
    case Mined(order, b) => MineEffect(p, me, s, order, b, t);
    case Admitted(tx, clerkId) => AdmitEffect(p, s, tx, clerkId);
    case Polled(g) => PollEffect(s, g);
  }

  /** A negative answer is justified by an earlier pass of the miner. */
  lemma FalseIsJustified(p: Protocol, me: Address, tr: seq<State>, evs: seq<Event>, k: nat, h: Bytes) returns (j: nat)
    requires Run(p, me, tr, evs) && k < |tr| && h in tr[k].pending && Poll(tr[k], h).1 == Some(false)
    ensures j < k && Fails(p, tr[j], evs[j], h) && tr[j].pending[h].tx == tr[k].pending[h].tx
  {
    hide Run, Poll, Fails;
    PollEffect(tr[k], h);
    j := InvalidHasFailed(p, me, tr, evs, k, h);
  }
}
