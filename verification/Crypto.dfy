/**
  Byte strings and idealised hashing.

  BLAKE3 is modelled by free constructors: a `ContentHash` remembers its preimage, so two
  hashes are equal exactly when what was hashed is equal.  The hash of a state key is the one
  digest whose individual bits the code looks at, so it stays a string of 256 bits, produced by
  a function `h` that every definition takes as a parameter.  No function from byte strings to
  256 bits is injective, so the results that need it ask for `CollisionFree` on the finitely
  many keys they talk about.
 */
module Crypto {

  newtype byte = x: int | 0 <= x < 256

  type Bytes = seq<byte>

  /** BLAKE3 of a byte string, as an ideal hash. */
  datatype ContentHash = Blake3(preimage: Bytes)

  const TREE_DEPTH: nat := 256

  /** The hash of a state key, as the path it takes from the root of the tree. */
  type KeyHash = s: seq<bool> | |s| == TREE_DEPTH witness seq(TREE_DEPTH, _ => false)

  /** A 32-byte digest, as stored. */
  type HashBytes = s: seq<bv8> | |s| == 32 witness seq(32, _ => 0)

  /** `bit_at`: bits are read from the most significant bit of the first byte. */
  predicate BitAt(k: HashBytes, depth: nat)
    requires depth < TREE_DEPTH
  {
    (k[depth / 8] >> (7 - depth % 8)) & 1 == 1
  }

  function PathOf(k: HashBytes): (p: KeyHash) {
    seq(TREE_DEPTH, d requires 0 <= d < TREE_DEPTH => BitAt(k, d))
  }

  /** At the first byte where they differ, the one is below the other. */
  ghost predicate DigestLess(a: HashBytes, b: HashBytes) {
    exists i :: 0 <= i < 32 && a[i] < b[i] && forall j :: 0 <= j < i ==> a[j] == b[j]
  }

  /** At the first level where they part, the one goes left and the other right. */
  ghost predicate PathLess(p: KeyHash, q: KeyHash) {
    exists d :: 0 <= d < TREE_DEPTH && !p[d] && q[d] && forall e :: 0 <= e < d ==> p[e] == q[e]
  }

  predicate ByteBit(x: bv8, j: nat)
    requires j < 8
  {
    (x >> (7 - j)) & 1 == 1
  }

  lemma EqualAbove(x: bv8, y: bv8, j: nat)
    requires j <= 8
    requires j >= 1 ==> (x >> 7) & 1 == (y >> 7) & 1
    requires j >= 2 ==> (x >> 6) & 1 == (y >> 6) & 1
    requires j >= 3 ==> (x >> 5) & 1 == (y >> 5) & 1
    requires j >= 4 ==> (x >> 4) & 1 == (y >> 4) & 1
    requires j >= 5 ==> (x >> 3) & 1 == (y >> 3) & 1
    requires j >= 6 ==> (x >> 2) & 1 == (y >> 2) & 1
    requires j >= 7 ==> (x >> 1) & 1 == (y >> 1) & 1
    requires j >= 8 ==> x & 1 == y & 1
    ensures forall i :: 0 <= i < j ==> ByteBit(x, i) == ByteBit(y, i)
  {
  }

  /** The smaller of two bytes has a zero at the first bit, from the most significant one, where they differ. */
  lemma FirstBit(x: bv8, y: bv8) returns (j: nat)
    requires x < y
    ensures j < 8 && !ByteBit(x, j) && ByteBit(y, j) && forall i :: 0 <= i < j ==> ByteBit(x, i) == ByteBit(y, i)
  {
    if (x >> 7) & 1 != (y >> 7) & 1 {
      j := 0;
    } else if (x >> 6) & 1 != (y >> 6) & 1 {
      j := 1;
    } else if (x >> 5) & 1 != (y >> 5) & 1 {
      j := 2;
    } else if (x >> 4) & 1 != (y >> 4) & 1 {
      j := 3;
    } else if (x >> 3) & 1 != (y >> 3) & 1 {
      j := 4;
    } else if (x >> 2) & 1 != (y >> 2) & 1 {
      j := 5;
    } else if (x >> 1) & 1 != (y >> 1) & 1 {
      j := 6;
    } else {
      j := 7;
    }
    EqualAbove(x, y, j);
  }

  lemma BitOfByte(k: HashBytes, i: nat, j: nat)
    requires i < 32 && j < 8
    ensures BitAt(k, 8 * i + j) == ByteBit(k[i], j)
  {
    assert (8 * i + j) / 8 == i && (8 * i + j) % 8 == j;
  }

  lemma SameBitBefore(a: HashBytes, b: HashBytes, i: nat, j: nat, e: nat)
    requires i < 32 && j < 8 && e < 8 * i + j && forall k :: 0 <= k < i ==> a[k] == b[k]
    requires forall k :: 0 <= k < j ==> ByteBit(a[i], k) == ByteBit(b[i], k)
    ensures BitAt(a, e) == BitAt(b, e)
  {
    var k, l := e / 8, e % 8;
    BitOfByte(a, k, l);
    BitOfByte(b, k, l);
    assert k < i || (k == i && l < j);
  }

  lemma LessGoesLeft(a: HashBytes, b: HashBytes)
    requires DigestLess(a, b)
    ensures PathLess(PathOf(a), PathOf(b))
  {
    var i :| 0 <= i < 32 && a[i] < b[i] && forall j :: 0 <= j < i ==> a[j] == b[j];
    var j := FirstBit(a[i], b[i]);
    var d := 8 * i + j;
    BitOfByte(a, i, j);
    BitOfByte(b, i, j);
    forall e | 0 <= e < d
      ensures PathOf(a)[e] == PathOf(b)[e]
    {
      SameBitBefore(a, b, i, j, e);
    }
    assert !PathOf(a)[d] && PathOf(b)[d];
  }

  lemma {:induction false} FirstDifference(a: HashBytes, b: HashBytes, n: nat)
    requires n <= 32 && forall j :: 0 <= j < n ==> a[j] == b[j]
    ensures a == b || DigestLess(a, b) || DigestLess(b, a)
    decreases 32 - n
  {
    if n < 32 && a[n] == b[n] { FirstDifference(a, b, n + 1); }
  }

  lemma PathsDoNotCross(p: KeyHash, q: KeyHash)
    requires PathLess(p, q)
    ensures p != q && !PathLess(q, p)
  {
    var d :| 0 <= d < TREE_DEPTH && !p[d] && q[d] && forall e :: 0 <= e < d ==> p[e] == q[e];
  }

  /** Leaves lie in the tree, from left to right, in the order of their digests. */
  lemma PathsOrderAsDigests(a: HashBytes, b: HashBytes)
    ensures PathLess(PathOf(a), PathOf(b)) <==> DigestLess(a, b)
  {
    if DigestLess(a, b) { LessGoesLeft(a, b); }
    if PathLess(PathOf(a), PathOf(b)) {
      PathsDoNotCross(PathOf(a), PathOf(b));
      FirstDifference(a, b, 0);
      if DigestLess(b, a) { LessGoesLeft(b, a); }
    }
  }

  /** Nothing is lost by following the bits: two digests with one path are one digest. */
  lemma PathDeterminesHash(a: HashBytes, b: HashBytes)
    requires PathOf(a) == PathOf(b)
    ensures a == b
  {
    PathsOrderAsDigests(a, b);
    PathsOrderAsDigests(b, a);
    FirstDifference(a, b, 0);
    if a != b {
      if DigestLess(a, b) { PathsDoNotCross(PathOf(a), PathOf(b)); } else { PathsDoNotCross(PathOf(b), PathOf(a)); }
    }
  }

  /** No two of the given keys share a hash. */
  ghost predicate CollisionFree(h: Bytes -> KeyHash, keys: set<Bytes>) {
    forall a, b :: a in keys && b in keys && h(a) == h(b) ==> a == b
  }

  /** The hash of a state key as the node computes it: the path spelled by a 32-byte digest. */
  function KeyPath(digest: Bytes -> HashBytes): (h: Bytes -> KeyHash) {
    (k: Bytes) => PathOf(digest(k))
  }

  ghost predicate DigestsDiffer(digest: Bytes -> HashBytes, keys: set<Bytes>) {
    forall a, b :: a in keys && b in keys && digest(a) == digest(b) ==> a == b
  }

  /** Two keys take one path exactly when they have one digest. */
  lemma PathsMeetAsDigests(digest: Bytes -> HashBytes, keys: set<Bytes>)
    ensures CollisionFree(KeyPath(digest), keys) <==> DigestsDiffer(digest, keys)
  {
    forall a, b | a in keys && b in keys
      ensures KeyPath(digest)(a) == KeyPath(digest)(b) <==> digest(a) == digest(b)
    {
      if PathOf(digest(a)) == PathOf(digest(b)) { PathDeterminesHash(digest(a), digest(b)); }
    }
  }
}
