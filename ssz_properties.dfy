/**
  What the `DepositData` root is, written out as the fixed tree it reduces
  to, and why it binds the deposit: two different deposits with the same
  root give away a collision of the hash.
 */
module SszProperties {
  import opened Bytes
  import opened Ssz

  /** Merkleizing a single chunk returns it unchanged (a 32-byte vector, the uint64 chunk). */
  lemma MerkleizeOne(h: Hash, a: Chunk)
    ensures Merkleize(h, [a]) == a
  {
    assert NextPowerOfTwo(1) == 1;
    assert [a] + seq(0, _ => ZERO_CHUNK) == [a];
  }

  /** Two chunks (the pubkey) hash once. */
  lemma MerkleizeTwo(h: Hash, a: Chunk, b: Chunk)
    ensures Merkleize(h, [a, b]) == h(a, b)
  {
    assert NextPowerOfTwo(2) == 2;
    var leaves := [a, b] + seq(0, _ => ZERO_CHUNK);
    assert leaves == [a, b];
    TwoLeaves(h, a, b);
  }

  lemma TwoLeaves(h: Hash, a: Chunk, b: Chunk)
    ensures MerkleRoot(h, [a, b]) == h(a, b)
  {
    assert IsPowerOfTwo(1) && IsPowerOfTwo(2);
    assert [a, b][..1] == [a] && [a, b][1..] == [b];
    assert MerkleRoot(h, [a]) == a && MerkleRoot(h, [b]) == b;
  }

  /** Four chunks (the container's field roots) form a two-level tree. */
  lemma MerkleizeFour(h: Hash, a: Chunk, b: Chunk, c: Chunk, d: Chunk)
    ensures Merkleize(h, [a, b, c, d]) == h(h(a, b), h(c, d))
  {
    assert NextPowerOfTwo(4) == 4;
    var leaves := [a, b, c, d] + seq(0, _ => ZERO_CHUNK);
    assert leaves == [a, b, c, d];
    FourLeaves(h, a, b, c, d);
  }

  /** Three chunks (the signature) are padded with one zero chunk to four leaves. */
  lemma MerkleizeThree(h: Hash, a: Chunk, b: Chunk, c: Chunk)
    ensures Merkleize(h, [a, b, c]) == h(h(a, b), h(c, ZERO_CHUNK))
  {
    assert NextPowerOfTwo(3) == 4;
    var leaves := [a, b, c] + seq(1, _ => ZERO_CHUNK);
    assert leaves == [a, b, c, ZERO_CHUNK];
    FourLeaves(h, a, b, c, ZERO_CHUNK);
  }

  lemma FourLeaves(h: Hash, a: Chunk, b: Chunk, c: Chunk, d: Chunk)
    ensures MerkleRoot(h, [a, b, c, d]) == h(h(a, b), h(c, d))
  {
    var leaves := [a, b, c, d];
    assert IsPowerOfTwo(2) && IsPowerOfTwo(4);
    assert leaves[..2] == [a, b] && leaves[2..] == [c, d];
    TwoLeaves(h, a, b);
    TwoLeaves(h, c, d);
    assert MerkleRoot(h, leaves) == h(MerkleRoot(h, [a, b]), MerkleRoot(h, [c, d]));
  }

  /** A byte vector of 1 to 32 bytes packs into one chunk, zero-padded on the right. */
  lemma PackShort(bytes: seq<Byte>)
    requires 0 < |bytes| <= 32
    ensures Pack(bytes) == [bytes + Zeros(32 - |bytes|)]
  {
  }

  /** The pubkey's 48 bytes pack into a full chunk and a chunk of 16 bytes and 16 zeros. */
  lemma PackPubkey(pubkey: seq<Byte>)
    requires |pubkey| == 48
    ensures Pack(pubkey) == [pubkey[..32], pubkey[32..] + Zeros(16)]
  {
    PackShort(pubkey[32..]);
  }

  /** The signature's 96 bytes pack into three full chunks. */
  lemma PackSignature(signature: seq<Byte>)
    requires |signature| == 96
    ensures Pack(signature) == [signature[..32], signature[32..64], signature[64..]]
  {
    var rest := signature[32..];
    assert rest[..32] == signature[32..64] && rest[32..] == signature[64..];
    PackShort(signature[64..]);
    assert signature[64..] + Zeros(0) == signature[64..];
    assert Pack(rest) == [rest[..32]] + Pack(rest[32..]);
    assert Pack(signature) == [signature[..32]] + Pack(rest);
  }

  /**
    The root `depositDataContainer.hashTreeRoot` computes, written out as the
    fixed tree it reduces to: leaves pubkey, withdrawal credentials, amount,
    signature, in that order.
   */
  function DepositTree(h: Hash, d: DepositData): (root: Chunk)
    requires WellFormed(d)
  {
    var pubkeyRoot := h(d.pubkey[..32], d.pubkey[32..] + Zeros(16));
    var amountChunk := LittleEndian(d.amount, 8) + Zeros(24);
    var signatureRoot := h(h(d.signature[..32], d.signature[32..64]), h(d.signature[64..], ZERO_CHUNK));
    h(h(pubkeyRoot, d.withdrawalCredentials), h(amountChunk, signatureRoot))
  }

  /** The generic SSZ merkleization of the container equals the fixed tree. */
  lemma HashTreeRootShape(h: Hash, d: DepositData)
    requires WellFormed(d)
    ensures HashTreeRoot(h, d) == DepositTree(h, d)
  {
    PackPubkey(d.pubkey);
    MerkleizeTwo(h, d.pubkey[..32], d.pubkey[32..] + Zeros(16));
    PackShort(d.withdrawalCredentials);
    assert d.withdrawalCredentials + Zeros(0) == d.withdrawalCredentials;
    MerkleizeOne(h, d.withdrawalCredentials);
    PackShort(LittleEndian(d.amount, 8));
    MerkleizeOne(h, LittleEndian(d.amount, 8) + Zeros(24));
    PackSignature(d.signature);
    MerkleizeThree(h, d.signature[..32], d.signature[32..64], d.signature[64..]);
    MerkleizeFour(h, ByteVectorRoot(h, d.pubkey), ByteVectorRoot(h, d.withdrawalCredentials),
                  Uint64Root(h, d.amount), ByteVectorRoot(h, d.signature));
  }

  /** The amount's chunk determines the amount. */
  lemma AmountChunkInjective(a1: int, a2: int)
    requires 0 <= a1 < TWO_TO_THE_64 && 0 <= a2 < TWO_TO_THE_64
    requires a1 != a2
    ensures LittleEndian(a1, 8) + Zeros(24) != LittleEndian(a2, 8) + Zeros(24)
  {
    assert Power256(8) == TWO_TO_THE_64;
    LittleEndianRoundTrip(a1, 8);
    LittleEndianRoundTrip(a2, 8);
    assert (LittleEndian(a1, 8) + Zeros(24))[..8] == LittleEndian(a1, 8);
    assert (LittleEndian(a2, 8) + Zeros(24))[..8] == LittleEndian(a2, 8);
  }

  /** Two different deposits differ in at least one leaf of the fixed tree. */
  lemma LeavesDiffer(d1: DepositData, d2: DepositData)
    requires WellFormed(d1) && WellFormed(d2) && d1 != d2
    ensures || d1.pubkey[..32] != d2.pubkey[..32]
            || d1.pubkey[32..] + Zeros(16) != d2.pubkey[32..] + Zeros(16)
            || d1.withdrawalCredentials != d2.withdrawalCredentials
            || LittleEndian(d1.amount, 8) + Zeros(24) != LittleEndian(d2.amount, 8) + Zeros(24)
            || d1.signature[..32] != d2.signature[..32]
            || d1.signature[32..64] != d2.signature[32..64]
            || d1.signature[64..] != d2.signature[64..]
  {
    if d1.pubkey != d2.pubkey {
      if d1.pubkey[..32] == d2.pubkey[..32] {
        assert d1.pubkey == d1.pubkey[..32] + d1.pubkey[32..];
        assert d2.pubkey == d2.pubkey[..32] + d2.pubkey[32..];
        assert (d1.pubkey[32..] + Zeros(16))[..16] == d1.pubkey[32..];
        assert (d2.pubkey[32..] + Zeros(16))[..16] == d2.pubkey[32..];
      }
    } else if d1.amount != d2.amount {
      AmountChunkInjective(d1.amount, d2.amount);
    } else if d1.signature != d2.signature {
      assert d1.signature == d1.signature[..32] + d1.signature[32..64] + d1.signature[64..];
      assert d2.signature == d2.signature[..32] + d2.signature[32..64] + d2.signature[64..];
    }
  }

  /**
    The deposit root binds every field: if two different well-formed deposits
    have the same root, the lemma returns two different inputs on which `h`
    collides. With a collision-resistant hash, a changed byte of any field
    changes the root.
   */
  lemma RootBinding(h: Hash, d1: DepositData, d2: DepositData) returns (x1: Chunk, y1: Chunk, x2: Chunk, y2: Chunk)
    requires WellFormed(d1) && WellFormed(d2)
    requires d1 != d2
    requires HashTreeRoot(h, d1) == HashTreeRoot(h, d2)
    ensures x1 != x2 || y1 != y2
    ensures h(x1, y1) == h(x2, y2)
  {
    HashTreeRootShape(h, d1);
    HashTreeRootShape(h, d2);
    LeavesDiffer(d1, d2);
    var p1, p2 := h(d1.pubkey[..32], d1.pubkey[32..] + Zeros(16)), h(d2.pubkey[..32], d2.pubkey[32..] + Zeros(16));
    var a1, a2 := LittleEndian(d1.amount, 8) + Zeros(24), LittleEndian(d2.amount, 8) + Zeros(24);
    var s1, s2 := h(d1.signature[..32], d1.signature[32..64]), h(d2.signature[..32], d2.signature[32..64]);
    var t1, t2 := h(d1.signature[64..], ZERO_CHUNK), h(d2.signature[64..], ZERO_CHUNK);
    var l1, l2 := h(p1, d1.withdrawalCredentials), h(p2, d2.withdrawalCredentials);
    var r1, r2 := h(a1, h(s1, t1)), h(a2, h(s2, t2));
    if l1 != l2 || r1 != r2 {
      x1, y1, x2, y2 := l1, r1, l2, r2;
    } else if p1 != p2 || d1.withdrawalCredentials != d2.withdrawalCredentials {
      x1, y1, x2, y2 := p1, d1.withdrawalCredentials, p2, d2.withdrawalCredentials;
    } else if a1 != a2 || h(s1, t1) != h(s2, t2) {
      x1, y1, x2, y2 := a1, h(s1, t1), a2, h(s2, t2);
    } else if d1.pubkey[..32] != d2.pubkey[..32] || d1.pubkey[32..] + Zeros(16) != d2.pubkey[32..] + Zeros(16) {
      x1, y1, x2, y2 := d1.pubkey[..32], d1.pubkey[32..] + Zeros(16), d2.pubkey[..32], d2.pubkey[32..] + Zeros(16);
    } else if s1 != s2 || t1 != t2 {
      x1, y1, x2, y2 := s1, t1, s2, t2;
    } else if d1.signature[..32] != d2.signature[..32] || d1.signature[32..64] != d2.signature[32..64] {
      x1, y1, x2, y2 := d1.signature[..32], d1.signature[32..64], d2.signature[..32], d2.signature[32..64];
    } else {
      x1, y1, x2, y2 := d1.signature[64..], ZERO_CHUNK, d2.signature[64..], ZERO_CHUNK;
    }
  }
}
