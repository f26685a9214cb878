/**
  SimpleSerialize (SSZ) hash_tree_root, as the Merkleization section of the
  Ethereum consensus specifications defines it, for the `DepositData`
  container that batchDeposit.js declares: pubkey (48-byte vector),
  withdrawal credentials (32-byte vector), amount (uint64), signature
  (96-byte vector). SHA-256 is not modelled: every function takes the
  two-chunk compression `h` as a parameter and holds for any `h`.
 */
module Ssz {
  import opened Bytes
  import opened Hex

  const BYTES_PER_CHUNK: nat := 32
  const TWO_TO_THE_64: int := 0x1_0000_0000_0000_0000

  type Chunk = s: seq<Byte> | |s| == BYTES_PER_CHUNK witness Zeros(32)

  /** `hash(a + b)` for two chunks: SHA-256 of their 64-byte concatenation. */
  type Hash = (Chunk, Chunk) -> Chunk

  const ZERO_CHUNK: Chunk := Zeros(32)

  /** `pack` for a byte vector: 32-byte chunks, the last one right-padded with zeros. */
  function Pack(bytes: seq<Byte>): (chunks: seq<Chunk>)
    ensures |chunks| == (|bytes| + 31) / 32
    ensures forall i, j :: 0 <= i < |chunks| && 0 <= j < 32 ==>
              chunks[i][j] == if 32 * i + j < |bytes| then bytes[32 * i + j] else 0
    decreases |bytes|
  {
    if bytes == [] then []
    else if |bytes| <= 32 then [bytes + Zeros(32 - |bytes|)]
    else
      [bytes[..32]] + Pack(bytes[32..])
  }

  ghost predicate IsPowerOfTwo(n: nat)
    decreases n
  {
    n == 1 || (n >= 2 && n % 2 == 0 && IsPowerOfTwo(n / 2))
  }

  /** `next_pow_of_two`: the least power of two that is at least `n` (1 for 0). */
  function NextPowerOfTwo(n: nat): (p: nat)
    ensures IsPowerOfTwo(p)
    ensures n <= p
    ensures p == 1 || p / 2 < n
    decreases n
  {
    if n <= 1 then 1 else 2 * NextPowerOfTwo((n + 1) / 2)
  }

  /** The root of a complete binary tree whose leaves are `leaves`. */
  function MerkleRoot(h: Hash, leaves: seq<Chunk>): (root: Chunk)
    requires IsPowerOfTwo(|leaves|)
    decreases |leaves|
  {
    if |leaves| == 1 then leaves[0]
    else
      var half := |leaves| / 2;
      h(MerkleRoot(h, leaves[..half]), MerkleRoot(h, leaves[half..]))
  }

  /** `merkleize(chunks)` with no limit: zero chunks up to the next power of two, then the tree's root. */
  function Merkleize(h: Hash, chunks: seq<Chunk>): (root: Chunk)
  {
    var width := NextPowerOfTwo(|chunks|);
    MerkleRoot(h, chunks + seq(width - |chunks|, _ => ZERO_CHUNK))
  }

  /** `hash_tree_root` of a byte vector. */
  function ByteVectorRoot(h: Hash, bytes: seq<Byte>): (root: Chunk)
  {
    Merkleize(h, Pack(bytes))
  }

  /** `serialize` of an unsigned integer over `width` bytes: little-endian. */
  function LittleEndian(n: nat, width: nat): (bytes: seq<Byte>)
    ensures |bytes| == width
    decreases width
  {
    if width == 0 then [] else [n % 256] + LittleEndian(n / 256, width - 1)
  }

  /** The number a little-endian byte string denotes. */
  function FromLittleEndian(bytes: seq<Byte>): (n: nat)
    decreases |bytes|
  {
    if bytes == [] then 0 else bytes[0] + 256 * FromLittleEndian(bytes[1..])
  }

  function Power256(width: nat): (p: nat)
    ensures p >= 1
  {
    if width == 0 then 1 else 256 * Power256(width - 1)
  }

  /** Little-endian serialisation loses nothing for a value that fits its width. */
  lemma {:induction false} LittleEndianRoundTrip(n: nat, width: nat)
    requires n < Power256(width)
    ensures FromLittleEndian(LittleEndian(n, width)) == n
    decreases width
  {
    if width > 0 {
      assert n / 256 < Power256(width - 1);
      LittleEndianRoundTrip(n / 256, width - 1);
      assert LittleEndian(n, width)[1..] == LittleEndian(n / 256, width - 1);
    }
  }

  /** `hash_tree_root` of a uint64: `pack` of its 8-byte serialisation, merkleized. */
  function Uint64Root(h: Hash, n: nat): (root: Chunk)
  {
    Merkleize(h, Pack(LittleEndian(n, 8)))
  }

  /** The fields of a deposit, as `depositParams` holds them. */
  datatype DepositData = DepositData(
    pubkey: seq<Byte>,
    withdrawalCredentials: seq<Byte>,
    amount: int,
    signature: seq<Byte>)

  /** The lengths and range the container type declares for its fields. */
  predicate WellFormed(d: DepositData) {
    && |d.pubkey| == 48
    && |d.withdrawalCredentials| == 32
    && 0 <= d.amount < TWO_TO_THE_64
    && |d.signature| == 96
  }

  /** `depositDataContainer.hashTreeRoot(d)`: the merkleization of the four field roots, in declaration order. */
  function HashTreeRoot(h: Hash, d: DepositData): (root: Chunk)
    requires WellFormed(d)
  {
    Merkleize(h, [
      ByteVectorRoot(h, d.pubkey),
      ByteVectorRoot(h, d.withdrawalCredentials),
      Uint64Root(h, d.amount),
      ByteVectorRoot(h, d.signature)])
  }

  /** The 0x-prefixed hex string handed to `contract.deposit` as `deposit_data_root`. */
  function DepositRootString(h: Hash, d: DepositData): (s: string)
    requires WellFormed(d)
  {
    "0x" + Buf2Hex(HashTreeRoot(h, d))
  }

  /** The root string is "0x" and 64 lower-case hex digits that decode to the container root. */
  lemma DepositRootStringForm(h: Hash, d: DepositData)
    requires WellFormed(d)
    ensures var s := DepositRootString(h, d);
            && |s| == 66 && s[..2] == "0x"
            && (forall i :: 2 <= i < 66 ==> IsLowerHexDigit(s[i]))
            && FromHex(s[2..]) == HashTreeRoot(h, d)
  {
    var root := HashTreeRoot(h, d);
    var s := DepositRootString(h, d);
    assert s[2..] == Buf2Hex(root);
    Buf2HexLowerCase(root);
    FromHexBuf2Hex(root);
  }
}
