/** Coinbase bytes, merkle root and the 84-byte header, built in buffers as the miner builds them. */
module Coinbase {
  import opened Words
  import opened Arithmetic
  import opened Fips180

  /** `out[at..at + |src|].copy_from_slice(src)`. */
  method CopyFromSlice(out: array<Byte>, at: nat, src: Bytes)
    requires at + |src| <= out.Length
    modifies out
    ensures out[..] == old(out[..at]) + src + old(out[at + |src|..])
  {
    forall i | 0 <= i < |src| {
      out[at + i] := src[i];
    }
  }

  /** `build_coinbase_bytes`. */
  method BuildCoinbaseBytes(prefix: Bytes, extranonce: U64, suffix: Bytes) returns (out: Bytes)
    ensures out == prefix + Le64(extranonce) + suffix
  {
    out := [];
    out := out + prefix;
    out := out + Le64(extranonce);
    out := out + suffix;
  }

  method CoinbaseTxid(prefix: Bytes, extranonce: U64, suffix: Bytes) returns (txid: Hash)
    ensures txid == Sha256d(prefix + Le64(extranonce) + suffix)
  {
    var bytes := BuildCoinbaseBytes(prefix, extranonce, suffix);
    txid := Sha256d(bytes);
  }

  /** The root above a leaf at position `index`, given its sibling hashes bottom-up. */
  function MerkleRoot(leaf: Hash, branch: seq<Hash>, index: nat): Hash
    decreases |branch|
  {
    if branch == [] then leaf
    else MerkleRoot(Sha256d(if index % 2 == 0 then leaf + branch[0] else branch[0] + leaf), branch[1..], index / 2)
  }

  // ---------- The tree a branch belongs to ----------

  function Join(left: Bytes, right: Bytes): Hash {
    Sha256d(left + right)
  }

  /** The next level up: neighbouring hashes joined in order. */
  function Level(hashes: seq<Hash>): (up: seq<Hash>)
    ensures |up| == |hashes| / 2
  {
    seq(|hashes| / 2, i requires 0 <= i < |hashes| / 2 => Join(hashes[2 * i], hashes[2 * i + 1]))
  }

  /** The root of the tree over 2^depth leaves. */
  function TreeRoot(leaves: seq<Hash>, depth: nat): Hash
    requires |leaves| == Pow2(depth)
    decreases depth
  {
    if depth == 0 then leaves[0] else TreeRoot(Level(leaves), depth - 1)
  }

  /** The siblings on the way from leaf `index` to the root. */
  function Branch(leaves: seq<Hash>, depth: nat, index: nat): (branch: seq<Hash>)
    requires |leaves| == Pow2(depth) && index < |leaves|
    ensures |branch| == depth
    decreases depth
  {
    if depth == 0 then []
    else [leaves[if index % 2 == 0 then index + 1 else index - 1]] + Branch(Level(leaves), depth - 1, index / 2)
  }

  /** Folding any leaf of any tree up its branch gives the root. */
  lemma {:induction false} BranchLeadsToRoot(leaves: seq<Hash>, depth: nat, index: nat)
    requires |leaves| == Pow2(depth) && index < |leaves|
    ensures MerkleRoot(leaves[index], Branch(leaves, depth, index), index) == TreeRoot(leaves, depth)
    decreases depth
  {
    if depth > 0 {
      BranchLeadsToRoot(Level(leaves), depth - 1, index / 2);
      OneLevelUp(leaves, depth, index);
    }
  }

  lemma OneLevelUp(leaves: seq<Hash>, depth: nat, index: nat)
    requires depth > 0 && |leaves| == Pow2(depth) && index < |leaves|
    ensures index / 2 < |Level(leaves)| == Pow2(depth - 1)
    ensures MerkleRoot(leaves[index], Branch(leaves, depth, index), index)
            == MerkleRoot(Level(leaves)[index / 2], Branch(Level(leaves), depth - 1, index / 2), index / 2)
  {
    hide Sha256d, TreeRoot, MerkleRoot;
    var sibling := leaves[if index % 2 == 0 then index + 1 else index - 1];
    var rest := Branch(Level(leaves), depth - 1, index / 2);
    assert Branch(leaves, depth, index) == [sibling] + rest;
    hide Branch;
    FoldOne(leaves[index], sibling, rest, index);
    JoinedPair(leaves, index);
  }

  lemma FoldOne(leaf: Hash, sibling: Hash, rest: seq<Hash>, index: nat)
    ensures MerkleRoot(leaf, [sibling] + rest, index)
            == MerkleRoot(if index % 2 == 0 then Join(leaf, sibling) else Join(sibling, leaf), rest, index / 2)
  {
    hide Sha256d;
    assert ([sibling] + rest)[1..] == rest;
  }

  lemma JoinedPair(leaves: seq<Hash>, index: nat)
    requires |leaves| % 2 == 0 && index < |leaves|
    ensures index / 2 < |Level(leaves)| && (index % 2 == 0 ==> index + 1 < |leaves|)
    ensures Level(leaves)[index / 2]
            == if index % 2 == 0 then Join(leaves[index], leaves[index + 1]) else Join(leaves[index - 1], leaves[index])
  {
    hide Join;
    var h := index / 2;
    assert index == if index % 2 == 0 then 2 * h else 2 * h + 1;
  }

  /** `merkle_root_from_branch`. */
  method MerkleRootFromBranch(leaf: Hash, branch: seq<Hash>, leafIndex: nat) returns (h: Hash)
    ensures h == MerkleRoot(leaf, branch, leafIndex)
  {
    hide Sha256d;
    h := leaf;
    var idx := leafIndex;
    for i := 0 to |branch|
      invariant MerkleRoot(h, branch[i..], idx) == MerkleRoot(leaf, branch, leafIndex)
    {
      var buf := new Byte[64](_ => 0);
      var sib := branch[i];
      if idx % 2 == 0 {
        CopyFromSlice(buf, 0, h);
        CopyFromSlice(buf, 32, sib);
        assert buf[..] == h + sib;
      } else {
        CopyFromSlice(buf, 0, sib);
        CopyFromSlice(buf, 32, h);
        assert buf[..] == sib + h;
      }
      assert branch[i..][1..] == branch[i + 1..];
      h := Sha256d(buf[..]);
      idx := idx / 2;
    }
  }

  /** The wire form of a header: version, previous hash, merkle root, u64 time, bits, nonce. */
  function HeaderBytes(version: U32, prev: Hash, merkle: Hash, time: U64, bits: U32, nonce: U32): (h: Bytes)
    ensures |h| == 84
  {
    Le32(version) + prev + merkle + Le64(time) + Le32(bits) + Le32(nonce)
  }

  /** `header_84`. */
  method Header84(version: U32, prev: Hash, merkle: Hash, time: U64, bits: U32, nonce: U32)
    returns (out: array<Byte>)
    ensures fresh(out) && out.Length == 84
    ensures out[..] == HeaderBytes(version, prev, merkle, time, bits, nonce)
  {
    hide Le32, Le64;
    out := new Byte[84](_ => 0);
    CopyFromSlice(out, 0, Le32(version));
    CopyFromSlice(out, 4, prev);
    assert out[..36] == Le32(version) + prev;
    CopyFromSlice(out, 36, merkle);
    assert out[..68] == Le32(version) + prev + merkle;
    CopyFromSlice(out, 68, Le64(time));
    assert out[..76] == Le32(version) + prev + merkle + Le64(time);
    CopyFromSlice(out, 76, Le32(bits));
    assert out[..80] == Le32(version) + prev + merkle + Le64(time) + Le32(bits);
    CopyFromSlice(out, 80, Le32(nonce));
  }
}
