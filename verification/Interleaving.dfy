/** The node under concurrency (src/node/miner.go, src/node/utxodb.go): any number of
    handlers, the miner among them, step by step over `mu`, `bcmu`, `utxoMu` and `peermu`.

    A lock is held by whoever's program counter says so.  The history variable
    `committed` is the ledger as of the last release of `mu`; it is what ties every
    interleaving to a run of the sequential machine of module `Ledger`. */
module Interleaving {
  import opened Wire
  import opened Transactions
  import opened Blocks
  import opened Utxo
  import opened Validation
  import opened Ledger

  datatype Lock = Mu | BcMu | UtxoMu | PeerMu

  /** Where a handler is. */
  datatype Pc =
    // SendBlock
    | RecvStart(b: Block) | RecvBc(b: Block) | RecvBody(b: Block) | RecvUtxo(b: Block)
    | RecvApply(b: Block, done: nat) | RecvOut(b: Block) | RecvUnlock(b: Block) | RecvLast(b: Block)
    // mine
    | MineStart | MineCollect | MineIdle
    | MineBc(order: seq<Bytes>, keys: seq<Bytes>) | MineRead(order: seq<Bytes>, keys: seq<Bytes>)
    | MineFree(order: seq<Bytes>, keys: seq<Bytes>, prev: Bytes)
    | MineWork(order: seq<Bytes>, keys: seq<Bytes>, t: Block)
    | MineAgain(order: seq<Bytes>, keys: seq<Bytes>, b: Block)
    | MineCheck(order: seq<Bytes>, keys: seq<Bytes>, b: Block)
    | MineUtxo(order: seq<Bytes>, keys: seq<Bytes>, b: Block)
    | MineApply(order: seq<Bytes>, keys: seq<Bytes>, b: Block, done: nat)
    | MineOut(order: seq<Bytes>, b: Block) | MineUnlock(order: seq<Bytes>, b: Block)
    | MineLast(order: seq<Bytes>, b: Block)
    // AppendTx
    | AppStart(tx: Transaction, clerkId: int) | AppBody(tx: Transaction, clerkId: int)
    | AppAdmitted(tx: Transaction, clerkId: int, hash: Bytes) | AppRefused(tx: Transaction, clerkId: int, hash: Bytes)
    | AppPeers(hash: Bytes) | AppFlood(hash: Bytes)
    | AppWait(hash: Bytes) | AppLook(hash: Bytes) | AppNotYet(hash: Bytes) | AppReply(hash: Bytes, ok: bool)
    | Replied(hash: Bytes, ok: bool)
    // GetUtxo, GetBlockLog, GetBlockchain, Gossip
    | UtxoStart | UtxoRead | UtxoHave(view: Entries)
    | LogStart | LogRead | LogHave(log: seq<Block>)
    | ChainStart | ChainBc | ChainRead | ChainHave(chain: seq<Block>) | ChainLast
    | GossipStart | GossipHold
    | Finished

  function Holds(pc: Pc): set<Lock> {
    match pc
    case RecvBc(_) | RecvLast(_) => {Mu}
    case RecvBody(_) | RecvUtxo(_) | RecvUnlock(_) => {Mu, BcMu}
    case RecvApply(_, _) | RecvOut(_) => {Mu, BcMu, UtxoMu}
    case MineCollect | MineIdle | MineBc(_, _) | MineWork(_, _, _) | MineAgain(_, _, _) | MineLast(_, _) => {Mu}
    case MineRead(_, _) | MineFree(_, _, _) | MineCheck(_, _, _) | MineUtxo(_, _, _) | MineUnlock(_, _) => {Mu, BcMu}
    case MineApply(_, _, _, _) | MineOut(_, _) => {Mu, BcMu, UtxoMu}
    case AppBody(_, _) | AppAdmitted(_, _, _) | AppRefused(_, _, _) | AppLook(_) | AppNotYet(_) | AppReply(_, _) => {Mu}
    case AppFlood(_) | GossipHold => {PeerMu}
    case UtxoRead | UtxoHave(_) => {UtxoMu}
    case LogRead | LogHave(_) => {BcMu}
    case ChainBc | ChainLast => {Mu}
    case ChainRead | ChainHave(_) => {Mu, BcMu}
    case _ => {}
  }

  /** The lock a handler is waiting for. */
  function Wants(pc: Pc): Option<Lock> {
    match pc
    case RecvStart(_) | MineStart | AppStart(_, _) | AppWait(_) | ChainStart => Some(Mu)
    case RecvBc(_) | MineBc(_, _) | MineAgain(_, _, _) | LogStart | ChainBc => Some(BcMu)
    case RecvUtxo(_) | MineUtxo(_, _, _) | UtxoStart => Some(UtxoMu)
    case AppPeers(_) | GossipStart => Some(PeerMu)
    case _ => None
  }

  /** Where it continues once it has the lock. */
  function Got(pc: Pc): Pc
    requires Wants(pc).Some?
  {
    match pc
    case RecvStart(b) => RecvBc(b)
    case RecvBc(b) => RecvBody(b)
    case RecvUtxo(b) => RecvApply(b, 0)
    case MineStart => MineCollect
    case MineBc(o, k) => MineRead(o, k)
    case MineAgain(o, k, b) => MineCheck(o, k, b)
    case MineUtxo(o, k, b) => MineApply(o, k, b, 0)
    case AppStart(tx, c) => AppBody(tx, c)
    case AppPeers(h) => AppFlood(h)
    case AppWait(h) => AppLook(h)
    case UtxoStart => UtxoRead
    case LogStart => LogRead
    case ChainStart => ChainBc
    case ChainBc => ChainRead
    case GossipStart => GossipHold
  }

  /** Handlers start here. */
  predicate IsStart(pc: Pc) {
    pc.RecvStart? || pc.MineStart? || pc.AppStart? || pc.UtxoStart? || pc.LogStart? || pc.ChainStart? || pc.GossipStart?
  }

  predicate IsFinished(pc: Pc) {
    pc.Replied? || pc.Finished?
  }

  // ---------------------------------------------------------------- steps of one handler

  /** What the environment decides: the miner's map iteration, whether enough transactions
      are pending, and the clock. */
  datatype Choice = Choice(order: seq<Bytes>, enough: bool, now: U32)

  datatype Move = Go(shared: State, pc: Pc) | Panics | Impossible

  predicate AllIn(keys: seq<Bytes>, m: map<Bytes, TxNode>) {
    forall h | h in keys :: h in m
  }

  /** A step of `SendBlock` with its locks. */
  function RecvMove(p: Protocol, s: State, pc: Pc): Move {
    match pc
    case RecvBody(b) =>
      if ValidateBlock(p, b) == Accept && Extends(s.chain, b) && CheckExtension(p, s, b) == Accept
      then Go(Appended(s, b), RecvUtxo(b))
      else
        (match Receive(p, s, b)
         case Next(s') => Go(s', RecvUnlock(b))
         case Crash => Panics
         case _ => Impossible)
    case RecvApply(b, n) =>
      if n >= |b.transactions| then Go(s, RecvOut(b))
      else
        (match ApplyTx(p, s.entries, b.transactions[n])
         case None => Panics
         case Some(e) => Go(s.(entries := e, pending := MarkTx(p, s.pending, b.transactions[n])), RecvApply(b, n + 1)))
    case RecvOut(b) => Go(s, RecvUnlock(b))
    case RecvUnlock(b) => Go(s, RecvLast(b))
    case RecvLast(b) => Go(s, Finished)
    case _ => Impossible
  }

  /** A step of the miner with its locks. */
  ghost function MineMove(p: Protocol, me: Address, s: State, pc: Pc, ch: Choice): Move {
    match pc
    case MineCollect =>
      if !ch.enough then Go(s, MineIdle)
      else if !IsOrder(ch.order, s.pending) then Impossible
      else
        (match Collect(p, AllTxs(s.chain), s.entries, s.pending, ch.order)
         case BatchCrash => Panics
         case Batch(keys, m) => Go(s.(pending := m), MineBc(ch.order, keys)))
    case MineIdle => Go(s, MineStart)
    case MineRead(o, k) => Go(s, MineFree(o, k, PrevHash(s.chain)))
    case MineFree(o, k, prev) =>
      if !AllIn(k, s.pending) then Impossible
      else Go(s, MineWork(o, k, Template(p, prev, TxsOf(s.pending, k) + [MakeCoinbaseTx(|k|, me)], ch.now)))
    case MineWork(o, k, t) =>
      if t.bits <= HASH_NUM_BYTES && Works(p, t, t.nonce) then
        Go(s, MineAgain(o, k, t.(blockHash := p.hash(Header(t)))))
      else Go(s, MineWork(o, k, t.(nonce := Wrap(t.nonce + 1))))
    case MineCheck(o, k, b) =>
      if Extends(s.chain, b) then Go(Appended(s, b), MineUtxo(o, k, b)) else Go(s, MineUnlock(o, b))
    case MineApply(o, k, b, n) =>
      if n >= |b.transactions| then Go(s, MineOut(o, b))
      else if n < |k| && k[n] !in s.pending then Panics
      else
        (match ApplyTx(p, s.entries, b.transactions[n])
         case None => Panics
         case Some(e) =>
           var marked := if n < |k| then MarkKey(s.pending, k[n]) else s.pending;
           Go(s.(entries := e, pending := marked), MineApply(o, k, b, n + 1)))
    case MineOut(o, b) => Go(s, MineUnlock(o, b))
    case MineUnlock(o, b) => Go(s, MineLast(o, b))
    case MineLast(o, b) => Go(s, MineStart)
    case _ => Impossible
  }

  /** A step of `AppendTx` with its locks. */
  function AppMove(p: Protocol, s: State, pc: Pc): Move {
    match pc
    case AppBody(tx, c) =>
      var (s', taken) := Admit(p, s, tx, c);
      Go(s', if taken then AppAdmitted(tx, c, TxHash(p, tx)) else AppRefused(tx, c, TxHash(p, tx)))
    case AppAdmitted(tx, c, h) => Go(s, AppPeers(h))
    case AppRefused(tx, c, h) => Go(s, Replied(h, false))
    case AppFlood(h) => Go(s, AppWait(h))
    case AppLook(h) =>
      if h !in s.pending then Panics
      else
        (match Poll(s, h)
         case (s', None) => Go(s', AppNotYet(h))
         case (s', Some(ok)) => Go(s', AppReply(h, ok)))
    case AppNotYet(h) => Go(s, AppWait(h))
    case AppReply(h, ok) => Go(s, Replied(h, ok))
    case _ => Impossible
  }

  /** A step of a handler that only reads. */
  function ReadMove(s: State, pc: Pc): Move {
    match pc
    case UtxoRead => Go(s, UtxoHave(s.entries))
    case UtxoHave(v) => Go(s, Finished)
    case LogRead => Go(s, LogHave(s.log))
    case LogHave(log) => Go(s, Finished)
    case ChainRead => Go(s, ChainHave(s.chain))
    case ChainHave(chain) => Go(s, ChainLast)
    case ChainLast => Go(s, Finished)
    case GossipHold => Go(s, Finished)
    case _ => Impossible
  }

  ghost function Act(p: Protocol, me: Address, s: State, pc: Pc, ch: Choice): Move {
    if Wants(pc).Some? then Go(s, Got(pc))
    else if RecvMove(p, s, pc) != Impossible then RecvMove(p, s, pc)
    else if MineMove(p, me, s, pc, ch) != Impossible then MineMove(p, me, s, pc, ch)
    else if AppMove(p, s, pc) != Impossible then AppMove(p, s, pc)
    else ReadMove(s, pc)
  }

  // ---------------------------------------------------------------- the whole node

  datatype Sys = Sys(threads: seq<Pc>, shared: State, committed: State, crashed: bool)

  ghost predicate Free(sys: Sys, l: Lock) {
    forall t | 0 <= t < |sys.threads| :: l !in Holds(sys.threads[t])
  }

  /** Thread `t` can go on: it waits for nothing, or for a free lock. */
  ghost predicate Runnable(sys: Sys, t: nat)
    requires t < |sys.threads|
  {
    Wants(sys.threads[t]).Some? ==> Free(sys, Wants(sys.threads[t]).value)
  }

  /** The ledger counts as committed when `mu` is released. */
  function Committed(sys: Sys, pc: Pc, s: State, pc': Pc): State {
    if Mu in Holds(pc) && Mu !in Holds(pc') then s else sys.committed
  }

  ghost predicate Moves(p: Protocol, me: Address, sys: Sys, t: nat, ch: Choice, sys': Sys)
    requires t < |sys.threads|
  {
    && !sys.crashed && Runnable(sys, t)
    && match Act(p, me, sys.shared, sys.threads[t], ch)
       case Go(s, pc) => sys' == Sys(sys.threads[t := pc], s, Committed(sys, sys.threads[t], s, pc), false)
       case Panics => sys' == sys.(crashed := true)
       case Impossible => false
  }

  ghost predicate Spawns(sys: Sys, pc: Pc, sys': Sys) {
    !sys.crashed && IsStart(pc) && sys' == sys.(threads := sys.threads + [pc])
  }

  ghost predicate SysStep(p: Protocol, me: Address, sys: Sys, sys': Sys) {
    || (exists pc :: Spawns(sys, pc, sys'))
    || (exists t: nat, ch :: t < |sys.threads| && Moves(p, me, sys, t, ch, sys'))
  }

  ghost predicate SysInit(p: Protocol, sys: Sys) {
    sys.threads == [] && Boot(p, sys.shared) && sys.committed == sys.shared && !sys.crashed
  }

  ghost predicate SysRun(p: Protocol, me: Address, tr: seq<Sys>) {
    && tr != []
    && SysInit(p, tr[0])
    && forall k | 0 <= k < |tr| - 1 :: SysStep(p, me, tr[k], tr[k + 1])
  }
}
