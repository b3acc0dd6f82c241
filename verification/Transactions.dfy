/** Transactions, their serialisation and their stand-alone checks (src/node/transaction.go). */
module Transactions {
  import opened Wire

  const COINBASE: U32 := 0
  const TRANSFER: U32 := 1
  const POST: U32 := 2
  const COMMENT: U32 := 3
  const UPVOTE: U32 := 4

  const TX_FEE: U32 := 1
  const TX_UPVOTE: U32 := 10
  const TX_COINBASE: U32 := 100

  datatype TxIn = TxIn(prevTxHash: Bytes, prevTxOutIndex: U32, sig: Bytes, pubKey: Bytes)

  datatype TxOut = TxOut(value: U32, pubKeyHash: Bytes)

  /** A nil slice and an empty one are the same value here, as they are after gob. */
  datatype Transaction = Transaction(
    kind: U32,
    txIns: seq<TxIn>,
    txOuts: seq<TxOut>,
    parent: Bytes,
    content: Bytes)

  // ---------------------------------------------------------------- serialisation

  /** `pack` slices a buffer sized by the fields; it stays in range exactly when the
      previous hash is not too short, and then a longer hash is cut to 32 bytes and
      leaves zeros at the end. */
  function PackTxIn(i: TxIn): Bytes {
    Fit(i.prevTxHash, HASH_NUM_BYTES) + PackInt(i.prevTxOutIndex) + i.sig + i.pubKey
    + Surplus(i.prevTxHash, HASH_NUM_BYTES)
  }

  function PackTxInNoSig(i: TxIn): Bytes {
    Fit(i.prevTxHash, HASH_NUM_BYTES) + PackInt(i.prevTxOutIndex) + i.pubKey + Surplus(i.prevTxHash, HASH_NUM_BYTES)
  }

  function PackTxOut(o: TxOut): Bytes {
    PackInt(o.value) + Fit(o.pubKeyHash, PKHASH_NUM_BYTES) + Surplus(o.pubKeyHash, PKHASH_NUM_BYTES)
  }

  function Surplus(b: Bytes, n: nat): Bytes {
    if |b| > n then Zeros(|b| - n) else []
  }

  function PackTxIns(ins: seq<TxIn>): Bytes {
    if ins == [] then [] else PackTxIns(ins[..|ins| - 1]) + PackTxIn(ins[|ins| - 1])
  }

  function PackTxInsNoSig(ins: seq<TxIn>): Bytes {
    if ins == [] then [] else PackTxInsNoSig(ins[..|ins| - 1]) + PackTxInNoSig(ins[|ins| - 1])
  }

  function PackTxOuts(outs: seq<TxOut>): Bytes {
    if outs == [] then [] else PackTxOuts(outs[..|outs| - 1]) + PackTxOut(outs[|outs| - 1])
  }

  /** `tx.Hash()` stays inside its buffers; otherwise it panics. */
  predicate Hashable(tx: Transaction) {
    && (forall i | i in tx.txIns :: |i.prevTxHash| >= HASH_NUM_BYTES)
    && (forall o | o in tx.txOuts :: |o.pubKeyHash| >= PKHASH_NUM_BYTES)
  }

  /** The bytes of a transaction that are hashed. */
  function TxBytes(tx: Transaction): Bytes {
    PackInt(tx.kind) + PackTxIns(tx.txIns) + PackTxOuts(tx.txOuts) + tx.parent + tx.content
  }

  function TxHash(p: Protocol, tx: Transaction): Digest {
    p.hash(TxBytes(tx))
  }

  predicate ValidComponents(tx: Transaction) {
    && (forall o | o in tx.txOuts :: |o.pubKeyHash| == PKHASH_NUM_BYTES)
    && (forall i | i in tx.txIns :: |i.prevTxHash| == HASH_NUM_BYTES)
  }

  /** The bytes of a transaction that are signed: all but the signatures. */
  function SignedBytes(tx: Transaction): Bytes {
    PackInt(tx.kind) + PackTxInsNoSig(tx.txIns) + PackTxOuts(tx.txOuts) + tx.parent + tx.content
  }

  function HashNoSig(p: Protocol, tx: Transaction): Option<Digest> {
    if !ValidComponents(tx) then None else Some(p.hash(SignedBytes(tx)))
  }

  /** The loop over the inputs, appending to the buffer that is hashed. */
  method AppendTxIns(head: Bytes, ins: seq<TxIn>) returns (data: Bytes)
    requires forall i | i in ins :: |i.prevTxHash| >= HASH_NUM_BYTES
    ensures data == head + PackTxIns(ins)
  {
    hide PackTxIn;
    data := head;
    for k := 0 to |ins|
      invariant data == head + PackTxIns(ins[..k])
    {
      assert ins[..k + 1][..k] == ins[..k];
      var packed := PackTxInBuffer(ins[k]);
      data := data + packed;
    }
    assert ins[..|ins|] == ins;
  }

  method AppendTxInsNoSig(head: Bytes, ins: seq<TxIn>) returns (data: Bytes)
    requires forall i | i in ins :: |i.prevTxHash| >= HASH_NUM_BYTES
    ensures data == head + PackTxInsNoSig(ins)
  {
    hide PackTxInNoSig;
    data := head;
    for k := 0 to |ins|
      invariant data == head + PackTxInsNoSig(ins[..k])
    {
      assert ins[..k + 1][..k] == ins[..k];
      var packed := PackTxInNoSigInBuffer(ins[k]);
      data := data + packed;
    }
    assert ins[..|ins|] == ins;
  }

  method AppendTxOuts(head: Bytes, outs: seq<TxOut>) returns (data: Bytes)
    requires forall o | o in outs :: |o.pubKeyHash| >= PKHASH_NUM_BYTES
    ensures data == head + PackTxOuts(outs)
  {
    hide PackTxOut;
    data := head;
    for k := 0 to |outs|
      invariant data == head + PackTxOuts(outs[..k])
    {
      assert outs[..k + 1][..k] == outs[..k];
      var packed := PackTxOutInBuffer(outs[k]);
      data := data + packed;
    }
    assert outs[..|outs|] == outs;
  }

  /** The buffer that is hashed, field by field. */
  method HashTransaction(p: Protocol, tx: Transaction) returns (h: Digest)
    requires Hashable(tx)
    ensures h == TxHash(p, tx)
  {
    hide PackInt, PackTxIns, PackTxOuts;
    var data: Bytes := PackInt(tx.kind);
    data := AppendTxIns(data, tx.txIns);
    data := AppendTxOuts(data, tx.txOuts);
    data := data + tx.parent;
    data := data + tx.content;
    h := p.hash(data);
  }

  /** The same without the signatures, after the check of the components. */
  method HashTransactionNoSig(p: Protocol, tx: Transaction) returns (h: Option<Digest>)
    ensures h == HashNoSig(p, tx)
  {
    hide PackInt, PackTxInsNoSig, PackTxOuts;
    if !ValidComponents(tx) {
      return None;
    }
    var data: Bytes := PackInt(tx.kind);
    data := AppendTxInsNoSig(data, tx.txIns);
    data := AppendTxOuts(data, tx.txOuts);
    data := data + tx.parent;
    data := data + tx.content;
    h := Some(p.hash(data));
  }

  /** `copy(data[at:at+len(src)], src)` on a buffer in range. */
  method Copy(data: array<Byte>, at: nat, src: Bytes)
    requires at + |src| <= data.Length
    modifies data
    ensures data[..] == old(data[..at]) + src + old(data[at + |src|..])
  {
    for k := 0 to |src|
      invariant data[..at] == old(data[..at])
      invariant data[at..at + k] == src[..k]
      invariant data[at + k..] == old(data[at + k..])
    {
      data[at + k] := src[k];
    }
  }

  method PackTxInBuffer(i: TxIn) returns (packed: Bytes)
    requires |i.prevTxHash| >= HASH_NUM_BYTES
    ensures packed == PackTxIn(i)
  {
    var h, n := i.prevTxHash[..HASH_NUM_BYTES], PackInt(i.prevTxOutIndex);
    packed := Concatenate(|i.prevTxHash| + 4 + |i.sig| + |i.pubKey|, h, n, i.sig, i.pubKey);
  }

  method PackTxInNoSigInBuffer(i: TxIn) returns (packed: Bytes)
    requires |i.prevTxHash| >= HASH_NUM_BYTES
    ensures packed == PackTxInNoSig(i)
  {
    var h, n := i.prevTxHash[..HASH_NUM_BYTES], PackInt(i.prevTxOutIndex);
    packed := Concatenate(|i.prevTxHash| + 4 + |i.pubKey|, h, n, i.pubKey, []);
  }

  method PackTxOutInBuffer(o: TxOut) returns (packed: Bytes)
    requires |o.pubKeyHash| >= PKHASH_NUM_BYTES
    ensures packed == PackTxOut(o)
  {
    packed := Concatenate(4 + |o.pubKeyHash|, PackInt(o.value), o.pubKeyHash[..PKHASH_NUM_BYTES], [], []);
  }

  /** A zeroed buffer of `size` bytes with four fields copied in from the front. */
  method Concatenate(size: nat, a: Bytes, b: Bytes, c: Bytes, d: Bytes) returns (packed: Bytes)
    requires |a| + |b| + |c| + |d| <= size
    ensures packed == a + b + c + d + Zeros(size - |a| - |b| - |c| - |d|)
  {
    var data := new Byte[size](_ => 0);
    assert data[..] == [] + Zeros(size);
    var head := Append(data, [], a);
    assert head == a;
    head := Append(data, head, b);
    head := Append(data, head, c);
    head := Append(data, head, d);
    packed := data[..];
  }

  /** One more field behind those already written; the tail stays zero. */
  method Append(data: array<Byte>, head: Bytes, field: Bytes) returns (head': Bytes)
    requires |head| + |field| <= data.Length
    requires data[..] == head + Zeros(data.Length - |head|)
    modifies data
    ensures head' == head + field
    ensures data[..] == head' + Zeros(data.Length - |head'|)
  {
    Copy(data, |head|, field);
    head' := head + field;
  }

  // ---------------------------------------------------------------- signatures

  /** The same inputs with the signatures replaced, as `SignTx` leaves them. */
  predicate SameButSigs(a: seq<TxIn>, b: seq<TxIn>) {
    && |a| == |b|
    && forall k | 0 <= k < |a| :: a[k].(sig := b[k].sig) == b[k]
  }

  lemma {:induction false} NoSigIgnoresSigs(a: seq<TxIn>, b: seq<TxIn>)
    requires SameButSigs(a, b)
    ensures PackTxInsNoSig(a) == PackTxInsNoSig(b)
  {
    if a != [] {
      var n := |a| - 1;
      assert a[n].(sig := b[n].sig) == b[n];
      NoSigIgnoresSigs(a[..n], b[..n]);
    }
  }

  /** What is signed does not depend on the signatures. */
  lemma HashNoSigIgnoresSigs(p: Protocol, tx: Transaction, ins: seq<TxIn>)
    requires SameButSigs(tx.txIns, ins)
    ensures HashNoSig(p, tx.(txIns := ins)) == HashNoSig(p, tx)
  {
    NoSigIgnoresSigs(tx.txIns, ins);
    forall k | 0 <= k < |ins|
      ensures |ins[k].prevTxHash| == |tx.txIns[k].prevTxHash|
    {
      assert tx.txIns[k].(sig := ins[k].sig) == ins[k];
    }
    assert ValidComponents(tx.(txIns := ins)) <==> ValidComponents(tx);
  }

  // ---------------------------------------------------------------- what a hash covers

  /** Fields of the same lengths, signatures aside. */
  ghost predicate SameShape(a: Transaction, b: Transaction) {
    && |a.txIns| == |b.txIns| && |a.txOuts| == |b.txOuts| && |a.parent| == |b.parent|
    && forall k | 0 <= k < |a.txIns| :: |a.txIns[k].pubKey| == |b.txIns[k].pubKey|
  }

  /** Everything but the signatures is the same. */
  ghost predicate SameButSigned(a: Transaction, b: Transaction) {
    && a.kind == b.kind && a.txOuts == b.txOuts && a.parent == b.parent && a.content == b.content
    && SameButSigs(a.txIns, b.txIns)
  }

  lemma SplitBytes(a: Bytes, b: Bytes, c: Bytes, d: Bytes, e: Bytes, f: Bytes)
    requires |a| == |d| && |b| == |e| && a + b + c == d + e + f
    ensures a == d && b == e && c == f
  {
    ConcatInjective(a + b, c, d + e, f);
    ConcatInjective(a, b, d, e);
  }

  lemma PackIntInjective(m: U32, n: U32)
    requires PackInt(m) == PackInt(n)
    ensures m == n
  {
    PackIntRoundTrip(m);
    PackIntRoundTrip(n);
  }

  lemma PackTxOutInjective(a: TxOut, b: TxOut)
    requires |a.pubKeyHash| == PKHASH_NUM_BYTES == |b.pubKeyHash|
    ensures |PackTxOut(a)| == |PackTxOut(b)|
    ensures PackTxOut(a) == PackTxOut(b) ==> a == b
  {
    assert PackTxOut(a) == PackInt(a.value) + a.pubKeyHash && PackTxOut(b) == PackInt(b.value) + b.pubKeyHash;
    if PackTxOut(a) == PackTxOut(b) {
      ConcatInjective(PackInt(a.value), a.pubKeyHash, PackInt(b.value), b.pubKeyHash);
      PackIntInjective(a.value, b.value);
    }
  }

  lemma {:induction false} PackTxOutsInjective(a: seq<TxOut>, b: seq<TxOut>)
    requires |a| == |b| && forall k | 0 <= k < |a| :: |a[k].pubKeyHash| == PKHASH_NUM_BYTES == |b[k].pubKeyHash|
    ensures |PackTxOuts(a)| == |PackTxOuts(b)|
    ensures PackTxOuts(a) == PackTxOuts(b) ==> a == b
  {
    hide PackTxOut;
    if a != [] {
      var n := |a| - 1;
      PackTxOutsInjective(a[..n], b[..n]);
      PackTxOutInjective(a[n], b[n]);
      if PackTxOuts(a) == PackTxOuts(b) {
        ConcatInjective(PackTxOuts(a[..n]), PackTxOut(a[n]), PackTxOuts(b[..n]), PackTxOut(b[n]));
        assert a == a[..n] + [a[n]] && b == b[..n] + [b[n]];
      }
    }
  }

  lemma PackTxInNoSigInjective(a: TxIn, b: TxIn)
    requires |a.prevTxHash| == HASH_NUM_BYTES == |b.prevTxHash| && |a.pubKey| == |b.pubKey|
    ensures |PackTxInNoSig(a)| == |PackTxInNoSig(b)|
    ensures PackTxInNoSig(a) == PackTxInNoSig(b) ==> a.(sig := b.sig) == b
  {
    assert PackTxInNoSig(a) == a.prevTxHash + PackInt(a.prevTxOutIndex) + a.pubKey;
    assert PackTxInNoSig(b) == b.prevTxHash + PackInt(b.prevTxOutIndex) + b.pubKey;
    if PackTxInNoSig(a) == PackTxInNoSig(b) {
      SplitBytes(a.prevTxHash, PackInt(a.prevTxOutIndex), a.pubKey, b.prevTxHash, PackInt(b.prevTxOutIndex), b.pubKey);
      PackIntInjective(a.prevTxOutIndex, b.prevTxOutIndex);
    }
  }

  lemma {:induction false} PackTxInsNoSigInjective(a: seq<TxIn>, b: seq<TxIn>)
    requires |a| == |b|
    requires forall k | 0 <= k < |a| ::
      |a[k].prevTxHash| == HASH_NUM_BYTES == |b[k].prevTxHash| && |a[k].pubKey| == |b[k].pubKey|
    ensures |PackTxInsNoSig(a)| == |PackTxInsNoSig(b)|
    ensures PackTxInsNoSig(a) == PackTxInsNoSig(b) ==> SameButSigs(a, b)
  {
    hide PackTxInNoSig;
    if a != [] {
      var n := |a| - 1;
      PackTxInsNoSigInjective(a[..n], b[..n]);
      PackTxInNoSigInjective(a[n], b[n]);
      if PackTxInsNoSig(a) == PackTxInsNoSig(b) {
        ConcatInjective(PackTxInsNoSig(a[..n]), PackTxInNoSig(a[n]), PackTxInsNoSig(b[..n]), PackTxInNoSig(b[n]));
        forall k | 0 <= k < |a|
          ensures a[k].(sig := b[k].sig) == b[k]
        {
          assert k < n ==> a[..n][k] == a[k] && b[..n][k] == b[k];
        }
      }
    }
  }

  /** The bytes `x` and `y` are different and have the same hash. */
  ghost predicate Collide(p: Protocol, x: Bytes, y: Bytes) {
    x != y && p.hash(x) == p.hash(y)
  }

  /** A signature covers everything but the signatures: two transactions of the same shape
      with the same signature-free hash have the same type, outpoints, keys, outputs, parent
      and content, or the very bytes that were signed collide. */
  lemma SignatureCovers(p: Protocol, a: Transaction, b: Transaction)
    requires ValidComponents(a) && ValidComponents(b) && SameShape(a, b) && HashNoSig(p, a) == HashNoSig(p, b)
    ensures SameButSigned(a, b) || Collide(p, SignedBytes(a), SignedBytes(b))
  {
    if SignedBytes(a) == SignedBytes(b) {
      SignedBytesInjective(a, b);
    }
  }

  lemma SignedBytesInjective(a: Transaction, b: Transaction)
    requires ValidComponents(a) && ValidComponents(b) && SameShape(a, b) && SignedBytes(a) == SignedBytes(b)
    ensures SameButSigned(a, b)
  {
    hide PackInt, PackTxInsNoSig, PackTxOuts, SameButSigs;
    PackTxInsNoSigInjective(a.txIns, b.txIns);
    PackTxOutsInjective(a.txOuts, b.txOuts);
    var i, o := PackTxInsNoSig(a.txIns), PackTxOuts(a.txOuts);
    var j, q := PackTxInsNoSig(b.txIns), PackTxOuts(b.txOuts);
    FiveFields(PackInt(a.kind), i, o, a.parent, a.content, PackInt(b.kind), j, q, b.parent, b.content);
    PackIntInjective(a.kind, b.kind);
  }

  lemma FiveFields(a: Bytes, b: Bytes, c: Bytes, d: Bytes, e: Bytes,
      a': Bytes, b': Bytes, c': Bytes, d': Bytes, e': Bytes)
    requires |a| == |a'| && |b| == |b'| && |c| == |c'| && |d| == |d'|
    requires a + b + c + d + e == a' + b' + c' + d' + e'
    ensures a == a' && b == b' && c == c' && d == d' && e == e'
  {
    ConcatInjective(a + b + c + d, e, a' + b' + c' + d', e');
    ConcatInjective(a + b + c, d, a' + b' + c', d');
    SplitBytes(a, b, c, a', b', c');
  }

  lemma PackTxInInjective(a: TxIn, b: TxIn)
    requires |a.prevTxHash| == HASH_NUM_BYTES == |b.prevTxHash| && |a.pubKey| == |b.pubKey| && |a.sig| == |b.sig|
    ensures |PackTxIn(a)| == |PackTxIn(b)|
    ensures PackTxIn(a) == PackTxIn(b) ==> a == b
  {
    assert PackTxIn(a) == a.prevTxHash + PackInt(a.prevTxOutIndex) + a.sig + a.pubKey;
    assert PackTxIn(b) == b.prevTxHash + PackInt(b.prevTxOutIndex) + b.sig + b.pubKey;
    if PackTxIn(a) == PackTxIn(b) {
      var m, n := PackInt(a.prevTxOutIndex), PackInt(b.prevTxOutIndex);
      ConcatInjective(a.prevTxHash + m + a.sig, a.pubKey, b.prevTxHash + n + b.sig, b.pubKey);
      SplitBytes(a.prevTxHash, m, a.sig, b.prevTxHash, n, b.sig);
      PackIntInjective(a.prevTxOutIndex, b.prevTxOutIndex);
    }
  }

  lemma {:induction false} PackTxInsInjective(a: seq<TxIn>, b: seq<TxIn>)
    requires |a| == |b|
    requires forall k | 0 <= k < |a| ::
      && |a[k].prevTxHash| == HASH_NUM_BYTES == |b[k].prevTxHash|
      && |a[k].pubKey| == |b[k].pubKey| && |a[k].sig| == |b[k].sig|
    ensures |PackTxIns(a)| == |PackTxIns(b)|
    ensures PackTxIns(a) == PackTxIns(b) ==> a == b
  {
    hide PackTxIn;
    if a != [] {
      var n := |a| - 1;
      PackTxInsInjective(a[..n], b[..n]);
      PackTxInInjective(a[n], b[n]);
      if PackTxIns(a) == PackTxIns(b) {
        ConcatInjective(PackTxIns(a[..n]), PackTxIn(a[n]), PackTxIns(b[..n]), PackTxIn(b[n]));
        assert a == a[..n] + [a[n]] && b == b[..n] + [b[n]];
      }
    }
  }

  /** The hash of a transaction covers all of it: two well-formed transactions of the same
      shape, signatures included, with the same hash are the same, or their very bytes
      collide. */
  lemma HashCovers(p: Protocol, a: Transaction, b: Transaction)
    requires ValidComponents(a) && ValidComponents(b) && SameShape(a, b) && TxHash(p, a) == TxHash(p, b)
    requires forall k | 0 <= k < |a.txIns| :: |a.txIns[k].sig| == |b.txIns[k].sig|
    ensures a == b || Collide(p, TxBytes(a), TxBytes(b))
  {
    hide PackInt, PackTxIns, PackTxOuts;
    if TxBytes(a) == TxBytes(b) {
      PackTxInsInjective(a.txIns, b.txIns);
      PackTxOutsInjective(a.txOuts, b.txOuts);
      var i, o := PackTxIns(a.txIns), PackTxOuts(a.txOuts);
      var j, q := PackTxIns(b.txIns), PackTxOuts(b.txOuts);
      FiveFields(PackInt(a.kind), i, o, a.parent, a.content, PackInt(b.kind), j, q, b.parent, b.content);
      PackIntInjective(a.kind, b.kind);
    }
  }

  /** The shape matters: fields are joined without their lengths, so the last byte of the
      parent can as well be the first of the content. */
  lemma ShapesMatter(a: Transaction, x: Byte)
    ensures var b, c := a.(parent := a.parent + [x]), a.(content := [x] + a.content);
      b != c && TxBytes(b) == TxBytes(c) && SignedBytes(b) == SignedBytes(c)
  {
    hide PackInt, PackTxIns, PackTxInsNoSig, PackTxOuts;
    var b, c := a.(parent := a.parent + [x]), a.(content := [x] + a.content);
    assert |b.parent| != |c.parent|;
    assert a.parent + [x] + a.content == a.parent + ([x] + a.content);
    var i := PackInt(a.kind) + PackTxIns(a.txIns) + PackTxOuts(a.txOuts);
    var j := PackInt(a.kind) + PackTxInsNoSig(a.txIns) + PackTxOuts(a.txOuts);
    assert i + (a.parent + [x]) + a.content == i + a.parent + ([x] + a.content);
    assert j + (a.parent + [x]) + a.content == j + a.parent + ([x] + a.content);
  }

  // ---------------------------------------------------------------- structure

  function ValidateStructure(p: Protocol, tx: Transaction): Verdict {
    if (tx.kind == POST || tx.kind == COMMENT) && |tx.txOuts| != 1 then Reject
    else if (tx.kind == POST || tx.kind == COMMENT) && tx.txIns == [] then Panic
    else if (tx.kind == POST || tx.kind == COMMENT) && p.pkHash(tx.txIns[0].pubKey) != tx.txOuts[0].pubKeyHash
    then Reject
    else if tx.kind == UPVOTE && |tx.txOuts| != 2 then Reject
    else if tx.kind == UPVOTE && tx.txIns == [] then Panic
    else if tx.kind == UPVOTE && p.pkHash(tx.txIns[0].pubKey) != tx.txOuts[1].pubKeyHash then Reject
    else if (tx.kind == COMMENT || tx.kind == UPVOTE) != (tx.parent != []) then Reject
    else Accept
  }
}
