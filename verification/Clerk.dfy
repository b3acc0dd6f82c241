/** The clerk: choosing coins, computing change and signing (src/clerk/clerk.go), and the
    query it builds on (`GetUnspentTxs` in src/node/utxodb.go). */
module Clerk {
  import opened Wire
  import opened Transactions
  import opened Utxo
  import opened Validation

  /** A private key, seen from outside. */
  datatype Keys = Keys(pubKey: Bytes, sign: Digest -> Bytes)

  /** A correct signature scheme: what the key signs verifies under its public key. */
  ghost predicate SignaturesVerify(p: Protocol, keys: Keys) {
    forall m: Digest :: p.verify(keys.sign(m), m, keys.pubKey)
  }

  // ---------------------------------------------------------------- the query

  datatype UnspentTx = UnspentTx(txHash: Bytes, index: U32, value: U32)

  function Where(u: UnspentTx): OutPoint {
    OutPoint(u.txHash, u.index)
  }

  predicate Owned(e: Entries, owner: Bytes, o: OutPoint) {
    Unspent(e, o) && Coin(e, o).pubKeyHash == owner
  }

  /** Each unspent output of the owner, once, with its value. */
  ghost predicate IsWallet(e: Entries, owner: Bytes, us: seq<UnspentTx>) {
    && (forall u | u in us :: Owned(e, owner, Where(u)) && u.value == Coin(e, Where(u)).value)
    && (forall j, k | 0 <= j < k < |us| :: Where(us[j]) != Where(us[k]))
    && (forall o: OutPoint | Owned(e, owner, o) :: UnspentTx(o.txHash, o.index, Coin(e, o).value) in us)
  }

  /** The nested loops over the two maps, in whatever order they iterate. */
  method GetUnspentTxs(e: Entries, owner: Bytes) returns (out: seq<UnspentTx>, succ: bool)
    ensures IsWallet(e, owner, out)
    ensures succ <==> out != []
  {
    out := [];
    var hashes := e.Keys;
    while hashes != {}
      invariant hashes <= e.Keys
      invariant Listed(e, owner, out, map h | h in e && h !in hashes :: e[h].Keys)
      decreases |hashes|
    {
      var h :| h in hashes;
      hashes := hashes - {h};
      out := ListEntry(e, owner, h, out, map g | g in e && g !in hashes && g != h :: e[g].Keys);
      assert (map g | g in e && g !in hashes && g != h :: e[g].Keys)[h := e[h].Keys]
        == (map g | g in e && g !in hashes :: e[g].Keys);
    }
    assert forall h | h in e :: h !in hashes;
    succ := |out| != 0;
  }

  /** `out` lists the owner's outputs among those numbered in `part`. */
  ghost predicate Listed(e: Entries, owner: Bytes, out: seq<UnspentTx>, part: map<Bytes, set<U32>>) {
    && (forall u | u in out ::
          && Owned(e, owner, Where(u)) && u.value == Coin(e, Where(u)).value
          && u.txHash in part && u.index in part[u.txHash])
    && (forall j, k | 0 <= j < k < |out| :: Where(out[j]) != Where(out[k]))
    && (forall o: OutPoint | Owned(e, owner, o) && o.txHash in part && o.index in part[o.txHash] ::
      UnspentTx(o.txHash, o.index, Coin(e, o).value) in out)
  }

  method ListEntry(e: Entries, owner: Bytes, h: Bytes, before: seq<UnspentTx>, ghost part: map<Bytes, set<U32>>)
      returns (out: seq<UnspentTx>)
    requires h in e && h !in part && Listed(e, owner, before, part)
    ensures Listed(e, owner, out, part[h := e[h].Keys])
  {
    hide Listed, Owned;
    out := before;
    var entry: Entry, todo: set<U32> := e[h], e[h].Keys;
    ghost var seen: set<U32> := {};
    ListNone(e, owner, before, part, h);
    while todo != {}
      invariant todo <= entry.Keys && seen == entry.Keys - todo
      invariant Listed(e, owner, out, part[h := seen])
      decreases |todo|
    {
      var k: U32 :| k in todo;
      ListOne(e, owner, out, part[h := seen], h, k);
      if !entry[k].spent && entry[k].pubKeyHash == owner {
        out := out + [UnspentTx(h, k, entry[k].value)];
      }
      todo := todo - {k};
      seen := seen + {k};
      assert part[h := seen - {k}][h := seen - {k} + {k}] == part[h := seen];
    }
    assert seen == e[h].Keys;
  }

  lemma ListNone(e: Entries, owner: Bytes, out: seq<UnspentTx>, part: map<Bytes, set<U32>>, h: Bytes)
    requires h !in part && Listed(e, owner, out, part)
    ensures Listed(e, owner, out, part[h := {}])
  {
    hide Owned, Coin;
  }

  /** One more output number looked at. */
  lemma ListOne(e: Entries, owner: Bytes, out: seq<UnspentTx>, part: map<Bytes, set<U32>>, h: Bytes, k: U32)
    requires h in e && k in e[h] && h in part && k !in part[h] && Listed(e, owner, out, part)
    ensures var owned := !e[h][k].spent && e[h][k].pubKeyHash == owner;
      Listed(e, owner, if owned then out + [UnspentTx(h, k, e[h][k].value)] else out, part[h := part[h] + {k}])
  {
    hide Owned, Coin;
    OwnedEntry(e, owner, h, k);
  }

  lemma OwnedEntry(e: Entries, owner: Bytes, h: Bytes, k: U32)
    requires h in e && k in e[h]
    ensures Owned(e, owner, OutPoint(h, k)) <==> !e[h][k].spent && e[h][k].pubKeyHash == owner
    ensures Owned(e, owner, OutPoint(h, k)) ==>
          Unspent(e, OutPoint(h, k)) && Coin(e, OutPoint(h, k)).value == e[h][k].value
  {
  }

  // ---------------------------------------------------------------- coin selection

  function Balance(us: seq<UnspentTx>): nat {
    if us == [] then 0 else Balance(us[..|us| - 1]) + us[|us| - 1].value
  }

  function InsOf(us: seq<UnspentTx>, pubKey: Bytes): (ins: seq<TxIn>)
    ensures |ins| == |us|
  {
    seq(|us|, k requires 0 <= k < |us| => TxIn(us[k].txHash, us[k].index, [], pubKey))
  }

  /** How many coins, from number `k` on and with `sum` in hand, are taken until the sum
      exceeds `need`, in uint32. */
  function Take(us: seq<UnspentTx>, need: U32, k: nat, sum: U32): (n: nat)
    requires k <= |us|
    ensures k <= n <= |us|
    decreases |us| - k
  {
    if k == |us| then k
    else
      var s := Wrap(sum + us[k].value);
      if s > need then k + 1 else Take(us, need, k + 1, s)
  }

  lemma NoIns(pubKey: Bytes)
    ensures InsOf([], pubKey) == []
  {
  }

  lemma OneMoreIn(us: seq<UnspentTx>, pubKey: Bytes, k: nat)
    requires k < |us|
    ensures InsOf(us[..k + 1], pubKey) == InsOf(us[..k], pubKey) + [TxIn(us[k].txHash, us[k].index, [], pubKey)]
  {
  }

  lemma NoCoins()
    ensures Wrap(Balance([])) == 0
  {
  }

  lemma OneMoreCoin(us: seq<UnspentTx>, k: nat)
    requires k < |us|
    ensures Wrap(Balance(us[..k + 1])) == Wrap(Wrap(Balance(us[..k])) + us[k].value)
  {
    assert us[..k + 1][..k] == us[..k];
    WrapSum(Balance(us[..k]), us[k].value);
  }

  method SelectCoins(us: seq<UnspentTx>, need: U32, pubKey: Bytes) returns (ins: seq<TxIn>, sum: U32)
    ensures |ins| == Take(us, need, 0, 0)
    ensures ins == InsOf(us[..|ins|], pubKey) && sum == Wrap(Balance(us[..|ins|]))
    ensures forall j | 0 < j < |ins| :: Wrap(Balance(us[..j])) <= need
    ensures |ins| < |us| ==> Wrap(Balance(us[..|ins|])) > need
  {
    hide InsOf, Take, Balance, Wrap;
    TakesTheLeast(us, need);
    ins, sum := [], 0;
    NoIns(pubKey);
    NoCoins();
    var k := 0;
    assert us[..0] == [];
    while k < |us|
      invariant 0 <= k <= |us|
      invariant ins == InsOf(us[..k], pubKey) && sum == Wrap(Balance(us[..k]))
      invariant Take(us, need, k, sum) == Take(us, need, 0, 0)
    {
      var u := us[k];
      TakeStep(us, need, k, sum);
      OneMoreCoin(us, k);
      OneMoreIn(us, pubKey, k);
      sum := Wrap(sum + u.value);
      ins := ins + [TxIn(u.txHash, u.index, [], pubKey)];
      k := k + 1;
      if sum > need {
        break;
      }
    }
    TakeStep(us, need, k, sum);
  }

  lemma TakeStep(us: seq<UnspentTx>, need: U32, k: nat, sum: U32)
    requires k <= |us|
    ensures k == |us| ==> Take(us, need, k, sum) == k
    ensures k < |us| ==>
            var s := Wrap(sum + us[k].value);
            Take(us, need, k, sum) == if s > need then k + 1 else Take(us, need, k + 1, s)
  {
  }

  /** The selection ends with the first coin that brings the sum above the need, and with
      the whole wallet only if no coin does. */
  lemma TakesTheLeast(us: seq<UnspentTx>, need: U32)
    ensures var n := Take(us, need, 0, 0);
      && (forall j | 0 < j < n :: Wrap(Balance(us[..j])) <= need)
      && (n < |us| ==> Wrap(Balance(us[..n])) > need)
  {
    hide Take, Balance, Wrap;
    NoCoins();
    assert us[..0] == [];
    TakesTheLeastFrom(us, need, 0);
  }

  lemma {:induction false} TakesTheLeastFrom(us: seq<UnspentTx>, need: U32, k: nat)
    requires k <= |us|
    ensures var n := Take(us, need, k, Wrap(Balance(us[..k])));
      && (forall j | k < j < n :: Wrap(Balance(us[..j])) <= need)
      && (n < |us| ==> Wrap(Balance(us[..n])) > need)
    decreases |us| - k
  {
    hide Take, Balance, Wrap;
    TakeStep(us, need, k, Wrap(Balance(us[..k])));
    if k < |us| {
      OneMoreCoin(us, k);
      TakesTheLeastFrom(us, need, k + 1);
    }
  }

  lemma {:induction false} BalanceMonotone(us: seq<UnspentTx>, n: nat)
    requires n <= |us|
    ensures Balance(us[..n]) <= Balance(us)
    decreases |us| - n
  {
    if n == |us| {
      assert us[..n] == us;
    } else {
      assert us[..n + 1][..n] == us[..n];
      BalanceMonotone(us, n + 1);
    }
  }

  /** Without wrap-around, the selection stops short of the whole wallet only once it has
      more than it needs. */
  lemma {:induction false} TakeEnough(us: seq<UnspentTx>, need: U32, k: nat)
    requires k <= |us| && Balance(us) < TWO32
    ensures var n := Take(us, need, k, Wrap(Balance(us[..k])));
      n == |us| || Balance(us[..n]) > need
    ensures us != [] && k == 0 ==> Take(us, need, 0, 0) > 0
    decreases |us| - k
  {
    if k < |us| {
      BalanceMonotone(us, k);
      BalanceMonotone(us, k + 1);
      assert us[..k + 1][..k] == us[..k];
      WrapSmall(Balance(us[..k + 1]));
      WrapSmall(Balance(us[..k]));
      if Balance(us[..k + 1]) <= need {
        TakeEnough(us, need, k + 1);
      }
    }
  }

  // ---------------------------------------------------------------- signing

  /** The transaction with the signature in every input, or as it was when its components
      are malformed. */
  function Signed(p: Protocol, keys: Keys, tx: Transaction): Transaction {
    match HashNoSig(p, tx)
    case None => tx
    case Some(m) => tx.(txIns := WithSig(tx.txIns, keys.sign(m)))
  }

  function WithSig(ins: seq<TxIn>, sig: Bytes): (r: seq<TxIn>)
    ensures |r| == |ins|
  {
    seq(|ins|, k requires 0 <= k < |ins| => ins[k].(sig := sig))
  }

  method SignTx(p: Protocol, keys: Keys, tx: Transaction) returns (signed: Transaction)
    ensures signed == Signed(p, keys, tx)
  {
    hide HashNoSig;
    signed := tx;
    var m := HashTransactionNoSig(p, tx);
    if m.None? {
      return;
    }
    var sig, ins := keys.sign(m.value), tx.txIns;
    for k := 0 to |tx.txIns|
      invariant |ins| == |tx.txIns|
      invariant forall j | 0 <= j < |ins| :: ins[j] == if j < k then tx.txIns[j].(sig := sig) else tx.txIns[j]
    {
      ins := ins[k := ins[k].(sig := sig)];
    }
    assert ins == WithSig(tx.txIns, sig);
    signed := tx.(txIns := ins);
  }

  // ---------------------------------------------------------------- the four requests

  function Owner(p: Protocol, keys: Keys): Address {
    p.pkHash(keys.pubKey)
  }

  /** Pays `value` to `dest` and the rest, less the fee, back. */
  function PayTx(p: Protocol, keys: Keys, us: seq<UnspentTx>, kind: U32, value: U32, dest: Bytes,
      parent: Bytes): Transaction {
    var sum := Wrap(Balance(us));
    Signed(p, keys, Transaction(kind, InsOf(us, keys.pubKey),
      [TxOut(value, dest), TxOut(Wrap(sum - TX_FEE - value), Owner(p, keys))], parent, []))
  }

  /** Spends one output and takes it back, less the fee. */
  function SayTx(p: Protocol, keys: Keys, u: UnspentTx, kind: U32, parent: Bytes, content: Bytes): Transaction {
    Signed(p, keys, Transaction(kind, InsOf([u], keys.pubKey),
      [TxOut(Wrap(u.value - TX_FEE), Owner(p, keys))], parent, content))
  }

  /** The coins chosen for a payment. */
  function Chosen(us: seq<UnspentTx>, value: U32): seq<UnspentTx> {
    us[..Take(us, Wrap(value + TX_FEE), 0, 0)]
  }

  /** A payment takes coins from the front of the wallet until they exceed the value and the
      fee, and not one more. */
  lemma ChosenIsLeast(us: seq<UnspentTx>, value: U32)
    ensures var cs, need := Chosen(us, value), Wrap(value + TX_FEE);
      && cs <= us
      && (forall j | 0 < j < |cs| :: Wrap(Balance(us[..j])) <= need)
      && (|cs| < |us| ==> Wrap(Balance(cs)) > need)
  {
    hide Take, Balance, Wrap;
    TakesTheLeast(us, Wrap(value + TX_FEE));
  }

  method Transfer(p: Protocol, keys: Keys, us: seq<UnspentTx>, dest: Bytes, value: U32)
      returns (tx: Option<Transaction>)
    ensures tx == if us == [] || value == 0 || Wrap(Balance(Chosen(us, value))) < Wrap(value + TX_FEE) then None
                  else Some(PayTx(p, keys, Chosen(us, value), TRANSFER, value, dest, []))
  {
    if us == [] || value == 0 {
      return None;
    }
    var ins, sum := SelectCoins(us, Wrap(value + TX_FEE), keys.pubKey);
    if sum < Wrap(value + TX_FEE) {
      return None;
    }
    var outs := [TxOut(value, dest), TxOut(Wrap(sum - TX_FEE - value), Owner(p, keys))];
    var t := Transaction(TRANSFER, ins, outs, [], []);
    var signed := SignTx(p, keys, t);
    tx := Some(signed);
  }

  method Upvote(p: Protocol, keys: Keys, us: seq<UnspentTx>, parent: Bytes, dest: Bytes)
      returns (tx: Option<Transaction>)
    ensures tx == if us == [] || Wrap(Balance(Chosen(us, TX_UPVOTE))) < TX_UPVOTE + TX_FEE then None
                  else Some(PayTx(p, keys, Chosen(us, TX_UPVOTE), UPVOTE, TX_UPVOTE, dest, parent))
  {
    if us == [] {
      return None;
    }
    var ins, sum := SelectCoins(us, TX_UPVOTE + TX_FEE, keys.pubKey);
    if sum < TX_UPVOTE + TX_FEE {
      return None;
    }
    var outs := [TxOut(TX_UPVOTE, dest), TxOut(Wrap(sum - TX_FEE - TX_UPVOTE), Owner(p, keys))];
    var t := Transaction(UPVOTE, ins, outs, parent, []);
    var signed := SignTx(p, keys, t);
    tx := Some(signed);
  }

  /** `Post`, and `Comment` under a parent. */
  method Say(p: Protocol, keys: Keys, us: seq<UnspentTx>, kind: U32, parent: Bytes, content: Bytes)
      returns (tx: Option<Transaction>)
    ensures tx == if us == [] then None else Some(SayTx(p, keys, us[0], kind, parent, content))
  {
    if us == [] {
      return None;
    }
    var u := us[0];
    var ins := [TxIn(u.txHash, u.index, [], keys.pubKey)];
    assert ins == InsOf([u], keys.pubKey);
    var t := Transaction(kind, ins, [TxOut(Wrap(u.value - TX_FEE), Owner(p, keys))], parent, content);
    var signed := SignTx(p, keys, t);
    tx := Some(signed);
  }
}
