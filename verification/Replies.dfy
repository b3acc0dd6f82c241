/** What clerks are told, in every interleaving: the answers of `AppendTx` and of `GetUtxo`
    (src/node/miner.go, src/node/utxodb.go). */
module Replies {
  import opened Wire
  import opened Transactions
  import opened Blocks
  import opened Utxo
  import opened Validation
  import opened Ledger
  import opened Invariants
  import opened Crashes
  import opened Acknowledgements
  import opened Interleaving
  import opened Concurrency

  // ---------------------------------------------------------------- one handler's history

  /** Handler `t` after a step: newly started, where it was, or moved on by itself. */
  lemma ThreadStep(p: Protocol, me: Address, sys: Sys, sys': Sys, t: nat)
    requires SysStep(p, me, sys, sys') && t < |sys'.threads|
    ensures |sys.threads| <= |sys'.threads|
    ensures t >= |sys.threads| ==> IsStart(sys'.threads[t])
    ensures t < |sys.threads| ==>
            || sys'.threads[t] == sys.threads[t]
            || exists ch :: Act(p, me, sys.shared, sys.threads[t], ch) == Go(sys'.shared, sys'.threads[t])
  {
    hide Act;
    if pc :| Spawns(sys, pc, sys') {
    } else {
      var u: nat, ch :| u < |sys.threads| && Moves(p, me, sys, u, ch, sys');
    }
  }

  predicate Answers(pc: Pc) {
    pc.Replied? || pc.UtxoHave? || pc.LogHave? || pc.ChainHave?
  }

  lemma BlocksNeverAnswer(p: Protocol, s: State, pc: Pc)
    ensures RecvMove(p, s, pc).Go? ==> !Answers(RecvMove(p, s, pc).pc)
  {
    hide Receive, ApplyTx, ValidateBlock, CheckExtension, Extends, Appended, MarkTx;
  }

  lemma MinerNeverAnswers(p: Protocol, me: Address, s: State, pc: Pc, ch: Choice)
    ensures MineMove(p, me, s, pc, ch).Go? ==> !Answers(MineMove(p, me, s, pc, ch).pc)
  {
    hide Collect, IsOrder, ApplyTx, Works, Template, TxsOf, Extends, Appended, MarkKey, PrevHash;
  }

  lemma LocksNeverAnswer(pc: Pc)
    ensures Wants(pc).Some? ==> !Answers(Got(pc))
  {
  }

  lemma ClerksAreAnswered(p: Protocol, s: State, pc: Pc)
    requires AppMove(p, s, pc).Go?
    ensures Answers(AppMove(p, s, pc).pc) ==> AppMove(p, s, pc).pc.Replied?
    ensures AppMove(p, s, pc).pc.Replied? ==>
            var h, ok := AppMove(p, s, pc).pc.hash, AppMove(p, s, pc).pc.ok;
            pc == AppReply(h, ok) || (pc.AppRefused? && pc.hash == h && !ok)
  {
    hide Admit, Poll, TxHash;
  }

  lemma ReadersAreAnswered(s: State, pc: Pc)
    requires ReadMove(s, pc).Go?
    ensures !ReadMove(s, pc).pc.Replied?
    ensures ReadMove(s, pc).pc.UtxoHave? ==> pc == UtxoRead && ReadMove(s, pc).pc.view == s.entries
    ensures ReadMove(s, pc).pc.LogHave? ==> pc == LogRead && ReadMove(s, pc).pc.log == s.log
    ensures ReadMove(s, pc).pc.ChainHave? ==> pc == ChainRead && ReadMove(s, pc).pc.chain == s.chain
  {
  }

  /** The last step before an answer. */
  lemma BeforeAnswer(p: Protocol, me: Address, s: State, pc: Pc, ch: Choice)
    requires Act(p, me, s, pc, ch).Go?
    ensures var next := Act(p, me, s, pc, ch).pc;
      && (next.Replied? ==>
            pc == AppReply(next.hash, next.ok) || (pc.AppRefused? && pc.hash == next.hash && !next.ok))
      && (next.UtxoHave? ==> pc == UtxoRead && next.view == s.entries)
      && (next.LogHave? ==> pc == LogRead && next.log == s.log)
      && (next.ChainHave? ==> pc == ChainRead && next.chain == s.chain)
  {
    hide RecvMove, MineMove, AppMove, ReadMove, Wants, Got;
    BlocksNeverAnswer(p, s, pc);
    MinerNeverAnswers(p, me, s, pc, ch);
    LocksNeverAnswer(pc);
    if Wants(pc).None? && RecvMove(p, s, pc) == Impossible && MineMove(p, me, s, pc, ch) == Impossible {
      if AppMove(p, s, pc) != Impossible {
        ClerksAreAnswered(p, s, pc);
      } else {
        ReadersAreAnswered(s, pc);
      }
    }
  }

  /** Whoever has replied was about to reply, or was refused, at some earlier moment. */
  lemma {:induction false} ReplyHasCause(p: Protocol, me: Address, tr: seq<Sys>, k: nat, t: nat) returns (j: nat)
    requires SysRun(p, me, tr) && k < |tr| && t < |tr[k].threads| && tr[k].threads[t].Replied?
    ensures j < k && t < |tr[j].threads|
    ensures var h, ok := tr[k].threads[t].hash, tr[k].threads[t].ok;
      || tr[j].threads[t] == AppReply(h, ok)
      || (tr[j].threads[t].AppRefused? && tr[j].threads[t].hash == h && !ok)
    decreases k
  {
    hide SysStep, Act;
    if k == 0 {
      assert false;
    } else {
      ThreadStep(p, me, tr[k - 1], tr[k], t);
      if tr[k - 1].threads[t] == tr[k].threads[t] {
        j := ReplyHasCause(p, me, tr, k - 1, t);
      } else {
        var ch :| Act(p, me, tr[k - 1].shared, tr[k - 1].threads[t], ch) == Go(tr[k].shared, tr[k].threads[t]);
        BeforeAnswer(p, me, tr[k - 1].shared, tr[k - 1].threads[t], ch);
        j := k - 1;
      }
    }
  }

  // ---------------------------------------------------------------- negative replies

  /** At some moment up to `k` the committed ledger held the transaction, and it failed the
      check there. */
  ghost predicate FailedBefore(p: Protocol, tr: seq<Sys>, k: nat, h: Bytes)
    requires k < |tr|
  {
    exists i | 0 <= i <= k :: FailedAt(p, tr[i].committed, h)
  }

  ghost predicate FailedAt(p: Protocol, c: State, h: Bytes) {
    h in c.pending && Judged(p, AllTxs(c.chain), c.entries, c.pending[h], Reject)
  }

  /** An answer of false was true to some committed ledger. */
  lemma NegativeAnswer(p: Protocol, me: Address, tr: seq<Sys>, k: nat, h: Bytes)
    requires SysRun(p, me, tr) && k < |tr|
    requires h in tr[k].committed.pending && Poll(tr[k].committed, h).1 == Some(false)
    ensures FailedBefore(p, tr, k, h)
  {
    hide SysRun, Run, Poll, Judged;
    var run, evs, at := InterleavingIsOneRun(p, me, tr, k);
    var n := FalseIsJustified(p, me, run, evs, at[k], h);
    assert n in at;
    var i :| 0 <= i < |at| && at[i] == n;
    assert FailedAt(p, tr[i].committed, h);
  }

  /** Why a request was refused at the door: it was malformed, or its hash had been seen. */
  ghost predicate Refused(p: Protocol, c: State, pc: Pc) {
    pc.AppRefused? && pc.hash == TxHash(p, pc.tx) && (!ValidComponents(pc.tx) || pc.hash in c.seen)
  }

  /** `AppendTx` never replies false without reason, in any interleaving: the request was
      malformed or repeated, or its transaction had failed the check against a committed
      ledger. */
  lemma FalseRepliesAreJustified(p: Protocol, me: Address, tr: seq<Sys>, k: nat, t: nat) returns (j: nat)
    requires SysRun(p, me, tr) && k < |tr| && t < |tr[k].threads|
    requires tr[k].threads[t].Replied? && !tr[k].threads[t].ok
    ensures j < k && t < |tr[j].threads|
    ensures var h := tr[k].threads[t].hash;
      || (Refused(p, tr[j].committed, tr[j].threads[t]) && tr[j].threads[t].hash == h)
      || (tr[j].threads[t] == AppReply(h, false) && FailedBefore(p, tr, j, h))
  {
    hide SysRun, FailedBefore;
    j := ReplyHasCause(p, me, tr, k, t);
    EveryInterleaving(p, me, tr, j);
    LocalOf(p, me, tr[j], t);
    if tr[j].threads[t].AppRefused? {
      RefusedIsRefused(p, me, tr[j].committed, tr[j].shared, tr[j].threads[t]);
    } else {
      AnswerIsCommitted(p, me, tr[j].committed, tr[j].shared, tr[k].threads[t].hash, false);
      NegativeAnswer(p, me, tr, j, tr[k].threads[t].hash);
    }
  }

  lemma LocalOf(p: Protocol, me: Address, sys: Sys, t: nat)
    requires SysInv(p, me, sys) && t < |sys.threads|
    ensures Mu in Holds(sys.threads[t]) ==> Local(p, me, sys.committed, sys.shared, sys.threads[t])
  {
    hide Local, Promise, Reached, Exclusive, Holds;
  }

  lemma RefusedIsRefused(p: Protocol, me: Address, c: State, s: State, pc: Pc)
    requires pc.AppRefused? && (Mu in Holds(pc) ==> Local(p, me, c, s, pc))
    ensures Refused(p, c, pc)
  {
    hide Admit, TxHash, ValidComponents;
    AdmitEffect(p, c, pc.tx, pc.clerkId);
  }

  lemma AnswerIsCommitted(p: Protocol, me: Address, c: State, s: State, h: Bytes, ok: bool)
    requires Mu in Holds(AppReply(h, ok)) ==> Local(p, me, c, s, AppReply(h, ok))
    ensures h in c.pending && Poll(c, h) == (s, Some(ok))
  {
    hide Poll;
  }

  // ---------------------------------------------------------------- positive replies

  /** A handler that looks at its transaction, and finds a success, goes on to reply true. */
  lemma SuccessIsReported(p: Protocol, me: Address, s: State, h: Bytes, ch: Choice)
    requires h in s.pending && s.pending[h].status == Success
    ensures Act(p, me, s, AppLook(h), ch).Go? && Act(p, me, s, AppLook(h), ch).pc == AppReply(h, true)
  {
    hide Poll;
    PollEffect(s, h);
  }

  lemma AnswerIsReplied(p: Protocol, me: Address, s: State, h: Bytes, ok: bool, ch: Choice)
    ensures Act(p, me, s, AppReply(h, ok), ch) == Go(s, Replied(h, ok))
  {
  }

  /** Once the run behind an interleaving has entered a block with the transaction, and until
      somebody was told, the first handler that looks at it replies true; all it does after
      the look is reply. */
  lemma EntryIsAcknowledged(p: Protocol, me: Address, tr: seq<Sys>, k: nat, t: nat, h: Bytes,
      run: seq<State>, evs: seq<Event>, at: seq<nat>, n: nat, ch: Choice, sys': Sys)
    requires SysRun(p, me, tr) && k < |tr| && OnRun(p, me, tr, k, run, evs, at)
    requires t < |tr[k].threads| && tr[k].threads[t] == AppLook(h) && Moves(p, me, tr[k], t, ch, sys')
    requires n < at[k] && h in run[n].pending && Enters(p, run[n], evs[n], run[n + 1], h)
    requires forall i | n < i < at[k] :: evs[i] != Polled(h)
    ensures !sys'.crashed && sys'.threads[t] == AppReply(h, true)
    ensures forall ch', sys'' | Moves(p, me, sys', t, ch', sys'') ::
      !sys''.crashed && sys''.threads[t] == Replied(h, true)
  {
    hide SysRun, Run, Enters, Poll, Act;
    EveryInterleaving(p, me, tr, k);
    LocalOf(p, me, tr[k], t);
    LooksAtCommitted(p, me, tr[k].committed, tr[k].shared, h);
    EntryIsAnswered(p, me, run, evs, n, at[k], h);
    PollEffect(tr[k].shared, h);
    SuccessIsReported(p, me, tr[k].shared, h, ch);
    forall ch', sys'' | Moves(p, me, sys', t, ch', sys'')
      ensures !sys''.crashed && sys''.threads[t] == Replied(h, true)
    {
      AnswerIsReplied(p, me, sys'.shared, h, true, ch');
    }
  }

  lemma LooksAtCommitted(p: Protocol, me: Address, c: State, s: State, h: Bytes)
    requires Mu in Holds(AppLook(h)) ==> Local(p, me, c, s, AppLook(h))
    ensures s == c
  {
  }

  // ---------------------------------------------------------------- views handed back

  /** What `GetUtxo` answers from is the index as it was at some earlier moment, and then it
      showed whole blocks: the full chain, or all of it but the last block. */
  lemma {:induction false} ViewsAreWholeBlocks(p: Protocol, me: Address, tr: seq<Sys>, k: nat, t: nat) returns (j: nat)
    requires SysRun(p, me, tr) && k < |tr| && t < |tr[k].threads| && tr[k].threads[t].UtxoHave?
    ensures j < k && t < |tr[j].threads| && tr[j].threads[t] == UtxoRead
    ensures tr[k].threads[t].view == tr[j].shared.entries && ShowsWholeBlocks(p, tr[j].shared)
    decreases k
  {
    hide SysStep, Act, ShowsWholeBlocks;
    if k == 0 {
      assert false;
    } else {
      ThreadStep(p, me, tr[k - 1], tr[k], t);
      if tr[k - 1].threads[t] == tr[k].threads[t] {
        j := ViewsAreWholeBlocks(p, me, tr, k - 1, t);
      } else {
        var ch :| Act(p, me, tr[k - 1].shared, tr[k - 1].threads[t], ch) == Go(tr[k].shared, tr[k].threads[t]);
        BeforeAnswer(p, me, tr[k - 1].shared, tr[k - 1].threads[t], ch);
        j := k - 1;
        ReadersSeeWholeBlocks(p, me, tr, j, t);
      }
    }
  }

  // ---------------------------------------------------------------- logs and chains handed back

  /** Whoever holds a log or a chain to hand back took it from the node at some moment. */
  lemma {:induction false} TakenFrom(p: Protocol, me: Address, tr: seq<Sys>, k: nat, t: nat) returns (j: nat)
    requires SysRun(p, me, tr) && k < |tr| && t < |tr[k].threads|
    requires tr[k].threads[t].LogHave? || tr[k].threads[t].ChainHave?
    ensures j < k && t < |tr[j].threads|
    ensures tr[k].threads[t].LogHave? ==> tr[j].threads[t] == LogRead && tr[k].threads[t].log == tr[j].shared.log
    ensures tr[k].threads[t].ChainHave? ==>
            tr[j].threads[t] == ChainRead && tr[k].threads[t].chain == tr[j].shared.chain
    decreases k
  {
    hide SysStep, Act;
    if k == 0 {
      assert false;
    } else {
      ThreadStep(p, me, tr[k - 1], tr[k], t);
      if tr[k - 1].threads[t] == tr[k].threads[t] {
        j := TakenFrom(p, me, tr, k - 1, t);
      } else {
        var ch :| Act(p, me, tr[k - 1].shared, tr[k - 1].threads[t], ch) == Go(tr[k].shared, tr[k].threads[t]);
        BeforeAnswer(p, me, tr[k - 1].shared, tr[k - 1].threads[t], ch);
        j := k - 1;
      }
    }
  }

  /** Without `bcmu` the holder of `mu` leaves the log as that of a ledger some run reaches. */
  lemma LogOutsideBlocks(p: Protocol, me: Address, c: State, s: State, pc: Pc) returns (r: State)
    requires Reached(p, me, c) && Local(p, me, c, s, pc) && BcMu !in Holds(pc)
    ensures Reached(p, me, r) && r.log == s.log
  {
    hide Reached, Local, Step, Holds, Completed;
    if Completed(pc).Some? {
      CompletedStep(p, me, c, s, pc);
      ReachedStep(p, me, c, Completed(pc).value, s);
      r := s;
    } else {
      NotYetCompleted(p, me, c, s, pc);
      r := c;
    }
  }

  /** The log that `GetBlockLog` sends to a joining node is, in every interleaving, the log of
      a ledger that some sequential run reaches: what is proved of replaying such logs holds
      of it. */
  lemma LogsComeFromRuns(p: Protocol, me: Address, tr: seq<Sys>, k: nat, t: nat) returns (r: State)
    requires SysRun(p, me, tr) && k < |tr| && t < |tr[k].threads| && tr[k].threads[t].LogHave?
    ensures Reached(p, me, r) && r.log == tr[k].threads[t].log
  {
    hide SysRun, Reached, Local, Promise;
    var j := TakenFrom(p, me, tr, k, t);
    var sys := tr[j];
    EveryInterleaving(p, me, tr, j);
    if Free(sys, Mu) {
      r := sys.committed;
    } else {
      var u :| 0 <= u < |sys.threads| && Mu in Holds(sys.threads[u]);
      assert u != t && Holds(sys.threads[u]) !! Holds(sys.threads[t]);
      r := LogOutsideBlocks(p, me, sys.committed, sys.shared, sys.threads[u]);
    }
  }

  /** The chain that `GetBlockchain` sends to a client is one that had been committed. */
  lemma ChainsAreCommitted(p: Protocol, me: Address, tr: seq<Sys>, k: nat, t: nat) returns (j: nat)
    requires SysRun(p, me, tr) && k < |tr| && t < |tr[k].threads| && tr[k].threads[t].ChainHave?
    ensures j < k && tr[k].threads[t].chain == tr[j].committed.chain && Grown(p, tr[j].committed.chain)
  {
    hide SysRun, Inv;
    j := TakenFrom(p, me, tr, k, t);
    EveryInterleaving(p, me, tr, j);
    LocalOf(p, me, tr[j], t);
    ReadsCommitted(p, me, tr[j].committed, tr[j].shared);
    ReachedInv(p, me, tr[j].committed);
    InvIsGrown(p, tr[j].committed);
  }

  lemma ReadsCommitted(p: Protocol, me: Address, c: State, s: State)
    requires Mu in Holds(ChainRead) ==> Local(p, me, c, s, ChainRead)
    ensures s == c
  {
  }
}
