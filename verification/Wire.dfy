/** Bytes, 32-bit words and the foreign cryptography the node is built on.

    scrypt, ECDSA and the network's tunable difficulty are parameters: a `Protocol`
    value is passed to everything that hashes, verifies or mines.  Nothing is assumed
    about it beyond the fixed length of its digests. */
module Wire {

  const TWO32 := 0x1_0000_0000

  const HASH_NUM_BYTES := 32
  const PKHASH_NUM_BYTES := 20
  const DATA_NUM_BYTES := 80

  type Byte = b: int | 0 <= b < 256
  type Bytes = seq<Byte>
  type U32 = n: int | 0 <= n < TWO32

  /** What `Hash` returns. */
  type Digest = b: Bytes | |b| == HASH_NUM_BYTES witness seq(HASH_NUM_BYTES, _ => 0)

  /** What `PKHash` returns. */
  type Address = b: Bytes | |b| == PKHASH_NUM_BYTES witness seq(PKHASH_NUM_BYTES, _ => 0)

  /** The ten addresses that the genesis block pays. */
  type Founders = s: seq<Address> | |s| == 10 witness seq<Address>(10, _ => seq(PKHASH_NUM_BYTES, _ => 0))

  /** A leading-zero requirement a 32-byte hash can be asked to meet. */
  type Difficulty = n: int | 0 <= n <= HASH_NUM_BYTES

  datatype Option<+T> = None | Some(value: T)

  /** The outcome of a check in the node.  `Panic` is a Go run-time panic: a nil
      dereference or a slice out of range, which ends the process. */
  datatype Verdict = Accept | Reject | Panic

  datatype Protocol = Protocol(
    hash: Bytes -> Digest,
    pkHash: Bytes -> Address,
    verify: (Bytes, Digest, Bytes) -> bool,  // signature, message, public key
    difficulty: Difficulty,
    founders: Founders)

  /** Go's conversion to, and arithmetic in, uint32. */
  function Wrap(n: int): U32 {
    n % TWO32
  }

  function Zeros(n: nat): Bytes {
    seq(n, _ => 0)
  }

  /** The contents of a zeroed buffer of `n` bytes after `copy(buffer, b)`. */
  function Fit(b: Bytes, n: nat): (r: Bytes)
    ensures |r| == n
    ensures |b| == n ==> r == b
  {
    if |b| >= n then b[..n] else b + Zeros(n - |b|)
  }

  /** Little-endian encoding of a 32-bit word. */
  function PackInt(n: U32): (r: Bytes)
    ensures |r| == 4
  {
    [n % 256, n / 256 % 256, n / 0x1_0000 % 256, n / 0x100_0000]
  }

  function UnpackInt(b: Bytes): int
    requires |b| == 4
  {
    var b0: int, b1: int, b2: int, b3: int := b[0], b[1], b[2], b[3];
    b0 + 256 * b1 + 0x1_0000 * b2 + 0x100_0000 * b3
  }

  lemma PackIntRoundTrip(n: U32)
    ensures UnpackInt(PackInt(n)) == n
  {
    var q1 := n / 256;
    var q2 := q1 / 256;
    assert q2 == n / 0x1_0000;
    assert q2 / 256 == n / 0x100_0000;
  }

  lemma ConcatInjective(a: Bytes, b: Bytes, c: Bytes, d: Bytes)
    requires |a| == |c| && a + b == c + d
    ensures a == c && b == d
  {
    assert a == (a + b)[..|a|] && b == (a + b)[|a|..];
    assert c == (c + d)[..|c|] && d == (c + d)[|c|..];
  }
}
