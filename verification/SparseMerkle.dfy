/**
  The sparse Merkle tree over a 256-bit key space (src/merkle/mod.rs).

  The code hashes a list of leaves by splitting it on one key bit per level, builds proofs while
  it descends, and verifies them by climbing in the opposite direction.  All three are related
  here to `TreeRoot`, a function of the *map* from key hashes to leaves.
 */
module SparseMerkle {
  import opened Crypto

  /** Node hashes: `hash_leaf`, `hash_internal` and SMT_EMPTY have disjoint ranges. */
  datatype Digest =
    | Empty
    | LeafNode(key: KeyHash, value: ContentHash)
    | Inner(left: Digest, right: Digest)

  type Leaf = (KeyHash, Digest)
  type Pair = (Bytes, Bytes)

  // ------------------------------------------------------------------------------------------
  // Reference definition: the root as a function of a map
  // ------------------------------------------------------------------------------------------

  ghost predicate SamePrefix(a: KeyHash, b: KeyHash, level: nat)
    requires level <= TREE_DEPTH
  {
    a[..level] == b[..level]
  }

  /** A subtree at `level`: its keys agree on the bits above, and its leaves carry their own key. */
  ghost predicate Subtree(m: map<KeyHash, Digest>, level: nat)
    requires level <= TREE_DEPTH
  {
    && (forall a, b :: a in m && b in m ==> SamePrefix(a, b, level))
    && (forall k :: k in m ==> m[k].LeafNode? && m[k].key == k)
  }

  ghost function Half(m: map<KeyHash, Digest>, level: nat, bit: bool): (r: map<KeyHash, Digest>)
    requires level < TREE_DEPTH
  {
    map k | k in m && k[level] == bit :: m[k]
  }

  ghost function TreeRoot(m: map<KeyHash, Digest>, level: nat): (r: Digest)
    requires level <= TREE_DEPTH
    decreases TREE_DEPTH - level
  {
    if m == map[] then Empty
    else if level == TREE_DEPTH then var k :| k in m; m[k]
    else Inner(TreeRoot(Half(m, level, false), level + 1), TreeRoot(Half(m, level, true), level + 1))
  }

  lemma HalfIsSubtree(m: map<KeyHash, Digest>, level: nat, bit: bool)
    requires level < TREE_DEPTH && Subtree(m, level)
    ensures Subtree(Half(m, level, bit), level + 1)
  {
  }

  /** At the bottom level a subtree holds at most one key. */
  lemma BottomIsSingle(m: map<KeyHash, Digest>, a: KeyHash, b: KeyHash)
    requires Subtree(m, TREE_DEPTH) && a in m && b in m
    ensures a == b
  {
  }

  lemma HalvesDetermineMap(m: map<KeyHash, Digest>, n: map<KeyHash, Digest>, level: nat)
    requires level < TREE_DEPTH
    requires Half(m, level, false) == Half(n, level, false)
    requires Half(m, level, true) == Half(n, level, true)
    ensures m == n
  {
    forall k: KeyHash
      ensures k in m <==> k in n
      ensures k in m && k in n ==> m[k] == n[k]
    {
      var bit := k[level];
      assert k in m <==> k in Half(m, level, bit);
      assert k in n <==> k in Half(n, level, bit);
    }
  }

  /** Binding: a root commits to the whole map. */
  lemma {:induction false} TreeRootInjective(m: map<KeyHash, Digest>, n: map<KeyHash, Digest>, level: nat)
    requires level <= TREE_DEPTH && Subtree(m, level) && Subtree(n, level)
    requires TreeRoot(m, level) == TreeRoot(n, level)
    ensures m == n
    decreases TREE_DEPTH - level
  {
    if m == map[] || n == map[] {
      TreeRootEmpty(m, level);
      TreeRootEmpty(n, level);
    } else if level == TREE_DEPTH {
      var k := BottomLeaf(m);
      var k' := BottomLeaf(n);
    } else {
      HalfIsSubtree(m, level, false);
      HalfIsSubtree(m, level, true);
      HalfIsSubtree(n, level, false);
      HalfIsSubtree(n, level, true);
      TreeRootInjective(Half(m, level, false), Half(n, level, false), level + 1);
      TreeRootInjective(Half(m, level, true), Half(n, level, true), level + 1);
      HalvesDetermineMap(m, n, level);
    }
  }

  lemma TreeRootEmpty(m: map<KeyHash, Digest>, level: nat)
    requires level <= TREE_DEPTH && Subtree(m, level)
    ensures TreeRoot(m, level) == Empty <==> m == map[]
  {
  }

  lemma BottomLeaf(m: map<KeyHash, Digest>) returns (k: KeyHash)
    requires m != map[] && Subtree(m, TREE_DEPTH)
    ensures k in m && m == map[k := m[k]] && TreeRoot(m, TREE_DEPTH) == m[k]
  {
    k :| k in m && TreeRoot(m, TREE_DEPTH) == m[k];
    forall b | b in m ensures b == k { BottomIsSingle(m, k, b); }
  }

  /** Leaves whose bit is zero hang on the left, the others on the right. */
  lemma ZeroGoesLeft(m: map<KeyHash, Digest>, level: nat, bit: bool)
    requires level < TREE_DEPTH && m != map[] && forall k :: k in m ==> k[level] == bit
    ensures TreeRoot(m, level) == if bit then Inner(Empty, TreeRoot(m, level + 1)) else Inner(TreeRoot(m, level + 1), Empty)
  {
    assert Half(m, level, bit) == m && Half(m, level, !bit) == map[];
  }

  // ------------------------------------------------------------------------------------------
  // compute_smt_root: the same root from a list of leaves, in any order
  // ------------------------------------------------------------------------------------------

  function Side(leaves: seq<Leaf>, level: nat, bit: bool): (r: seq<Leaf>)
    requires level < TREE_DEPTH
  {
    if leaves == [] then []
    else
      var last := leaves[|leaves| - 1];
      Side(leaves[..|leaves| - 1], level, bit) + (if last.0[level] == bit then [last] else [])
  }

  function RootOfLeaves(leaves: seq<Leaf>, level: nat): (r: Digest)
    requires level <= TREE_DEPTH
    decreases TREE_DEPTH - level
  {
    if leaves == [] then Empty
    else if level == TREE_DEPTH then leaves[0].1
    else Inner(RootOfLeaves(Side(leaves, level, false), level + 1), RootOfLeaves(Side(leaves, level, true), level + 1))
  }

  method Partition(leaves: seq<Leaf>, level: nat) returns (left: seq<Leaf>, right: seq<Leaf>)
    requires level < TREE_DEPTH
    ensures left == Side(leaves, level, false) && right == Side(leaves, level, true)
  {
    left, right := [], [];
    for i := 0 to |leaves|
      invariant left == Side(leaves[..i], level, false)
      invariant right == Side(leaves[..i], level, true)
    {
      assert leaves[..i + 1][..i] == leaves[..i];
      if leaves[i].0[level] {
        right := right + [leaves[i]];
      } else {
        left := left + [leaves[i]];
      }
    }
    assert leaves[..|leaves|] == leaves;
  }

  method ComputeSmtRoot(level: nat, leaves: seq<Leaf>) returns (root: Digest)
    requires level <= TREE_DEPTH
    ensures root == RootOfLeaves(leaves, level)
    decreases TREE_DEPTH - level
  {
    if leaves == [] {
      return Empty;
    }
    if level == TREE_DEPTH {
      return leaves[0].1;
    }
    var left, right := Partition(leaves, level);
    var leftHash := ComputeSmtRoot(level + 1, left);
    var rightHash := ComputeSmtRoot(level + 1, right);
    root := Inner(leftHash, rightHash);
  }

  /** The list holds exactly the entries of `m`, each once, in some order. */
  ghost predicate Enumerates(leaves: seq<Leaf>, m: map<KeyHash, Digest>) {
    && (forall i :: 0 <= i < |leaves| ==> leaves[i].0 in m && m[leaves[i].0] == leaves[i].1)
    && (forall k :: k in m ==> exists i :: 0 <= i < |leaves| && leaves[i].0 == k)
    && (forall i, j :: 0 <= i < j < |leaves| ==> leaves[i].0 != leaves[j].0)
  }

  lemma {:induction false} SideMembers(leaves: seq<Leaf>, level: nat, bit: bool)
    requires level < TREE_DEPTH
    ensures forall x :: x in Side(leaves, level, bit) <==> x in leaves && x.0[level] == bit
  {
    if leaves != [] {
      var front, last := leaves[..|leaves| - 1], leaves[|leaves| - 1];
      SideMembers(front, level, bit);
      assert leaves == front + [last];
    }
  }

  ghost predicate DistinctKeys(leaves: seq<Leaf>) {
    forall i, j :: 0 <= i < j < |leaves| ==> leaves[i].0 != leaves[j].0
  }

  lemma {:induction false} SideDistinct(leaves: seq<Leaf>, level: nat, bit: bool)
    requires level < TREE_DEPTH && DistinctKeys(leaves)
    ensures DistinctKeys(Side(leaves, level, bit))
  {
    if leaves != [] {
      var front := leaves[..|leaves| - 1];
      SideDistinct(front, level, bit);
      SideMembers(front, level, bit);
      var rest := Side(front, level, bit);
      forall i | 0 <= i < |rest|
        ensures rest[i].0 != leaves[|leaves| - 1].0
      {
        assert rest[i] in front;
      }
    }
  }

  lemma SideEnumeratesHalf(leaves: seq<Leaf>, m: map<KeyHash, Digest>, level: nat, bit: bool)
    requires level < TREE_DEPTH && Enumerates(leaves, m)
    ensures Enumerates(Side(leaves, level, bit), Half(m, level, bit))
  {
    SideMembers(leaves, level, bit);
    SideDistinct(leaves, level, bit);
    var side, half := Side(leaves, level, bit), Half(m, level, bit);
    forall i | 0 <= i < |side|
      ensures side[i].0 in half && half[side[i].0] == side[i].1
    {
      assert side[i] in side;
    }
    forall k | k in half
      ensures exists i :: 0 <= i < |side| && side[i].0 == k
    {
      var i :| 0 <= i < |leaves| && leaves[i].0 == k;
      assert leaves[i] in side;
    }
  }

  /** Order independence: any enumeration of a map hashes to that map's root. */
  lemma {:induction false} RootIsOrderIndependent(leaves: seq<Leaf>, m: map<KeyHash, Digest>, level: nat)
    requires level <= TREE_DEPTH && Subtree(m, level) && Enumerates(leaves, m)
    ensures RootOfLeaves(leaves, level) == TreeRoot(m, level)
    decreases TREE_DEPTH - level
  {
    if leaves == [] {
      assert m == map[];
    } else if level == TREE_DEPTH {
      assert leaves[0].0 in m;
      var k := BottomLeaf(m);
    } else {
      HalfIsSubtree(m, level, false);
      HalfIsSubtree(m, level, true);
      SideEnumeratesHalf(leaves, m, level, false);
      SideEnumeratesHalf(leaves, m, level, true);
      RootIsOrderIndependent(Side(leaves, level, false), Half(m, level, false), level + 1);
      RootIsOrderIndependent(Side(leaves, level, true), Half(m, level, true), level + 1);
    }
  }

  // ------------------------------------------------------------------------------------------
  // dedup_leaves and sparse_merkle_root
  // ------------------------------------------------------------------------------------------

  function LeafFor(h: Bytes -> KeyHash, p: Pair): (r: Digest) {
    LeafNode(h(p.0), Blake3(p.1))
  }

  /** The last leaf inserted for every key hash. */
  function Dedup(h: Bytes -> KeyHash, pairs: seq<Pair>): (m: map<KeyHash, Digest>)
    ensures Subtree(m, 0)
  {
    if pairs == [] then map[]
    else
      var last := pairs[|pairs| - 1];
      Dedup(h, pairs[..|pairs| - 1])[h(last.0) := LeafFor(h, last)]
  }

  /** The map a list of pairs stands for: the last write to a key wins. */
  function LastWrites(pairs: seq<Pair>): (m: map<Bytes, Bytes>) {
    if pairs == [] then map[]
    else
      var last := pairs[|pairs| - 1];
      LastWrites(pairs[..|pairs| - 1])[last.0 := last.1]
  }

  ghost function KeysOf(pairs: seq<Pair>): (r: set<Bytes>) {
    set p | p in pairs :: p.0
  }

  ghost function PairsRoot(h: Bytes -> KeyHash, pairs: seq<Pair>): (r: Digest) {
    TreeRoot(Dedup(h, pairs), 0)
  }

  /** The leaves of a state map; two keys with one hash would share an entry. */
  ghost function StateLeaves(h: Bytes -> KeyHash, state: map<Bytes, Bytes>): (m: map<KeyHash, Digest>)
    ensures Subtree(m, 0)
  {
    var hashes := set k | k in state :: h(k);
    map x | x in hashes :: var k :| k in state && h(k) == x; LeafNode(x, Blake3(state[k]))
  }

  /** The root of a state: a function of the key-value map alone. */
  ghost function StateRoot(h: Bytes -> KeyHash, state: map<Bytes, Bytes>): (r: Digest) {
    TreeRoot(StateLeaves(h, state), 0)
  }

  method DedupLeaves(h: Bytes -> KeyHash, pairs: seq<Pair>) returns (m: map<KeyHash, Digest>)
    ensures m == Dedup(h, pairs)
  {
    m := map[];
    for i := 0 to |pairs|
      invariant m == Dedup(h, pairs[..i])
    {
      assert pairs[..i + 1][..i] == pairs[..i];
      var (k, v) := pairs[i];
      var keyHash := h(k);
      m := m[keyHash := LeafNode(keyHash, Blake3(v))];
    }
    assert pairs[..|pairs|] == pairs;
  }

  /** Iteration over a hash map: every entry once, in an order nothing may depend on. */
  method CollectLeaves(m: map<KeyHash, Digest>) returns (leaves: seq<Leaf>)
    ensures Enumerates(leaves, m)
  {
    leaves := [];
    var todo := m.Keys;
    while todo != {}
      invariant todo <= m.Keys
      invariant forall i :: 0 <= i < |leaves| ==> leaves[i].0 in m && m[leaves[i].0] == leaves[i].1
      invariant forall i :: 0 <= i < |leaves| ==> leaves[i].0 !in todo
      invariant forall k :: k in m && k !in todo ==> exists i :: 0 <= i < |leaves| && leaves[i].0 == k
      invariant DistinctKeys(leaves)
      decreases |todo|
    {
      var k :| k in todo;
      ghost var before := leaves;
      leaves := leaves + [(k, m[k])];
      todo := todo - {k};
      assert leaves[|before|].0 == k;
      forall j | j in m && j !in todo
        ensures exists i :: 0 <= i < |leaves| && leaves[i].0 == j
      {
        if j != k {
          var i :| 0 <= i < |before| && before[i].0 == j;
          assert leaves[i].0 == j;
        }
      }
    }
  }

  method SparseMerkleRoot(h: Bytes -> KeyHash, pairs: seq<Pair>) returns (root: Digest)
    ensures root == PairsRoot(h, pairs)
  {
    var m := DedupLeaves(h, pairs);
    if |m| == 0 {
      return Empty;
    }
    var leaves := CollectLeaves(m);
    root := ComputeSmtRoot(0, leaves);
    RootIsOrderIndependent(leaves, m, 0);
  }

  // ------------------------------------------------------------------------------------------
  // Proofs
  // ------------------------------------------------------------------------------------------

  function Empties(n: nat): (r: seq<Digest>)
    ensures |r| == n && forall i :: 0 <= i < n ==> r[i] == Empty
  {
    if n == 0 then [] else [Empty] + Empties(n - 1)
  }

  /** The siblings a proof for `target` collects below `level`, from the leaf upwards. */
  function ProofPath(leaves: seq<Leaf>, level: nat, target: KeyHash): (r: seq<Digest>)
    requires level <= TREE_DEPTH
    ensures |r| == TREE_DEPTH - level
    decreases TREE_DEPTH - level
  {
    if leaves == [] then Empties(TREE_DEPTH - level)
    else if level == TREE_DEPTH then []
    else
      var bit := target[level];
      ProofPath(Side(leaves, level, bit), level + 1, target)
      + [RootOfLeaves(Side(leaves, level, !bit), level + 1)]
  }

  method ComputeSmtWithProof(level: nat, leaves: seq<Leaf>, target: KeyHash, proof: seq<Digest>)
      returns (root: Digest, extended: seq<Digest>)
    requires level <= TREE_DEPTH
    ensures root == RootOfLeaves(leaves, level)
    ensures extended == proof + ProofPath(leaves, level, target)
    decreases TREE_DEPTH - level
  {
    if leaves == [] {
      return Empty, proof + Empties(TREE_DEPTH - level);
    }
    if level == TREE_DEPTH {
      return leaves[0].1, proof;
    }
    var left, right := Partition(leaves, level);
    var bit := target[level];
    var keep, sibling := if bit then right else left, if bit then left else right;
    var keepHash, inner := ComputeSmtWithProof(level + 1, keep, target, proof);
    var siblingHash := ComputeSmtRoot(level + 1, sibling);
    extended := inner + [siblingHash];
    root := if bit then Inner(siblingHash, keepHash) else Inner(keepHash, siblingHash);
    PathStep(leaves, level, target, proof);
  }

  lemma PathStep(leaves: seq<Leaf>, level: nat, target: KeyHash, proof: seq<Digest>)
    requires level < TREE_DEPTH && leaves != []
    ensures var bit := target[level];
            proof + ProofPath(leaves, level, target)
            == proof + ProofPath(Side(leaves, level, bit), level + 1, target)
               + [RootOfLeaves(Side(leaves, level, !bit), level + 1)]
  {
  }

  method ProveLeaves(leaves: seq<Leaf>, level: nat, target: KeyHash, ghost m: map<KeyHash, Digest>)
      returns (root: Digest, proof: seq<Digest>)
    requires level <= TREE_DEPTH && Subtree(m, level) && Enumerates(leaves, m)
    ensures root == TreeRoot(m, level)
    ensures |proof| == TREE_DEPTH - level
    ensures target in m ==> Climb(target, m[target], proof) == root
  {
    root, proof := ComputeSmtWithProof(level, leaves, target, []);
    assert proof == ProofPath(leaves, level, target);
    RootIsOrderIndependent(leaves, m, level);
    if target in m {
      PathClimbsToRoot(leaves, m, level, target);
    }
  }

  method SparseMerkleProof(h: Bytes -> KeyHash, pairs: seq<Pair>, key: Bytes)
      returns (root: Digest, proof: seq<Digest>)
    ensures root == PairsRoot(h, pairs)
    ensures |proof| == TREE_DEPTH
    ensures h(key) in Dedup(h, pairs) ==> Climb(h(key), Dedup(h, pairs)[h(key)], proof) == root
  {
    var m := DedupLeaves(h, pairs);
    var leaves := CollectLeaves(m);
    root, proof := ProveLeaves(leaves, 0, h(key), m);
  }

  /** The depth whose bit picks the side when the sibling at `offset` is folded in. */
  function DepthAt(offset: nat): (d: nat)
    ensures d < TREE_DEPTH
  {
    if offset <= 255 then 255 - offset else 0
  }

  /** Folding a proof from the leaf to the root. */
  function Climb(k: KeyHash, leaf: Digest, proof: seq<Digest>): (r: Digest) {
    if proof == [] then leaf
    else
      var n := |proof| - 1;
      var below := Climb(k, leaf, proof[..n]);
      if k[DepthAt(n)] then Inner(proof[n], below) else Inner(below, proof[n])
  }

  method VerifySparseMerkleProof(h: Bytes -> KeyHash, key: Bytes, value: Bytes, proof: seq<Digest>, expected: Digest)
      returns (ok: bool)
    ensures ok <==> Climb(h(key), LeafNode(h(key), Blake3(value)), proof) == expected
  {
    var keyHash := h(key);
    var node := LeafNode(keyHash, Blake3(value));
    for offset := 0 to |proof|
      invariant node == Climb(keyHash, LeafNode(keyHash, Blake3(value)), proof[..offset])
    {
      assert proof[..offset + 1][..offset] == proof[..offset];
      var depth := if offset <= 255 then 255 - offset else 0;
      if keyHash[depth] {
        node := Inner(proof[offset], node);
      } else {
        node := Inner(node, proof[offset]);
      }
    }
    assert proof[..|proof|] == proof;
    ok := node == expected;
  }

  lemma ClimbOneMore(k: KeyHash, leaf: Digest, proof: seq<Digest>, sibling: Digest, level: nat)
    requires level < TREE_DEPTH && |proof| == TREE_DEPTH - (level + 1)
    ensures Climb(k, leaf, proof + [sibling])
            == var below := Climb(k, leaf, proof); if k[level] then Inner(sibling, below) else Inner(below, sibling)
  {
  }

  /** Completeness: the siblings collected on the way down lead back up to the root. */
  lemma {:induction false} PathClimbsToRoot(leaves: seq<Leaf>, m: map<KeyHash, Digest>, level: nat, k: KeyHash)
    requires level <= TREE_DEPTH && Subtree(m, level) && Enumerates(leaves, m) && k in m
    ensures Climb(k, m[k], ProofPath(leaves, level, k)) == RootOfLeaves(leaves, level)
    decreases TREE_DEPTH - level
  {
    if level == TREE_DEPTH {
      BottomIsSingle(m, k, leaves[0].0);
    } else {
      var bit := k[level];
      HalfIsSubtree(m, level, bit);
      SideEnumeratesHalf(leaves, m, level, bit);
      PathClimbsToRoot(Side(leaves, level, bit), Half(m, level, bit), level + 1, k);
      assert leaves != [];
      ClimbOneMore(k, m[k], ProofPath(Side(leaves, level, bit), level + 1, k),
                   RootOfLeaves(Side(leaves, level, !bit), level + 1), level);
    }
  }

  /** Soundness, at any level: a climb that reaches a subtree's root started at one of its leaves. */
  lemma {:induction false} ClimbReachesLeaf(m: map<KeyHash, Digest>, level: nat, k: KeyHash, leaf: Digest, proof: seq<Digest>)
    requires level <= TREE_DEPTH && Subtree(m, level)
    requires leaf.LeafNode? && leaf.key == k
    requires Climb(k, leaf, proof) == TreeRoot(m, level)
    ensures |proof| == TREE_DEPTH - level
    ensures k in m && m[k] == leaf
    decreases |proof|
  {
    TreeRootEmpty(m, level);
    if level == TREE_DEPTH {
      var b := BottomLeaf(m);
    } else {
      var n := |proof| - 1;
      var bit := k[DepthAt(n)];
      HalfIsSubtree(m, level, bit);
      ClimbReachesLeaf(Half(m, level, bit), level + 1, k, leaf, proof[..n]);
    }
  }

  // ------------------------------------------------------------------------------------------
  // The guarantees in terms of keys and values
  // ------------------------------------------------------------------------------------------

  lemma {:induction false} DedupFollowsLastWrites(h: Bytes -> KeyHash, pairs: seq<Pair>, key: Bytes)
    requires CollisionFree(h, KeysOf(pairs) + {key})
    ensures h(key) in Dedup(h, pairs) <==> key in LastWrites(pairs)
    ensures key in LastWrites(pairs) ==> Dedup(h, pairs)[h(key)] == LeafNode(h(key), Blake3(LastWrites(pairs)[key]))
  {
    if pairs != [] {
      var front, last := pairs[..|pairs| - 1], pairs[|pairs| - 1];
      assert pairs == front + [last];
      assert KeysOf(front) <= KeysOf(pairs);
      assert last.0 in KeysOf(pairs);
      DedupFollowsLastWrites(h, front, key);
    }
  }

  lemma {:induction false} LastWritesKeys(pairs: seq<Pair>)
    ensures LastWrites(pairs).Keys == KeysOf(pairs)
  {
    if pairs != [] {
      var front, last := pairs[..|pairs| - 1], pairs[|pairs| - 1];
      assert pairs == front + [last];
      LastWritesKeys(front);
    }
  }

  lemma {:induction false} DedupHasPreimage(h: Bytes -> KeyHash, pairs: seq<Pair>, x: KeyHash)
    requires x in Dedup(h, pairs)
    ensures exists k :: k in LastWrites(pairs) && h(k) == x
  {
    var front, last := pairs[..|pairs| - 1], pairs[|pairs| - 1];
    if x != h(last.0) {
      DedupHasPreimage(h, front, x);
      var k :| k in LastWrites(front) && h(k) == x;
      assert k in LastWrites(pairs);
    } else {
      assert last.0 in LastWrites(pairs);
    }
  }

  /** The root of a pair list is the root of the map it stands for. */
  lemma PairsRootIsStateRoot(h: Bytes -> KeyHash, pairs: seq<Pair>)
    requires CollisionFree(h, KeysOf(pairs))
    ensures PairsRoot(h, pairs) == StateRoot(h, LastWrites(pairs))
  {
    var m, n := Dedup(h, pairs), StateLeaves(h, LastWrites(pairs));
    LastWritesKeys(pairs);
    forall x: KeyHash
      ensures x in m <==> x in n
      ensures x in m && x in n ==> m[x] == n[x]
    {
      if x in m { DedupHasPreimage(h, pairs, x); }
      forall k | k in LastWrites(pairs) && h(k) == x
        ensures x in m && x in n && m[x] == n[x]
      {
        assert KeysOf(pairs) + {k} == KeysOf(pairs);
        DedupFollowsLastWrites(h, pairs, k);
      }
    }
    assert m == n;
  }

  /** The leaf of a key is there exactly when the key is, and holds its value. */
  lemma LeafOfKey(h: Bytes -> KeyHash, s: map<Bytes, Bytes>, k: Bytes)
    requires CollisionFree(h, s.Keys + {k})
    ensures h(k) in StateLeaves(h, s) <==> k in s
    ensures k in s ==> StateLeaves(h, s)[h(k)] == LeafNode(h(k), Blake3(s[k]))
  {
  }

  lemma SameLeavesSameState(h: Bytes -> KeyHash, s: map<Bytes, Bytes>, t: map<Bytes, Bytes>)
    requires CollisionFree(h, s.Keys + t.Keys) && StateLeaves(h, s) == StateLeaves(h, t)
    ensures s == t
  {
    forall k | k in s.Keys + t.Keys
      ensures k in s && k in t && s[k] == t[k]
    {
      LeafOfKey(h, s, k);
      LeafOfKey(h, t, k);
    }
  }

  /** Equal states have equal roots, and only they do. */
  lemma StateRootBinding(h: Bytes -> KeyHash, s: map<Bytes, Bytes>, t: map<Bytes, Bytes>)
    requires CollisionFree(h, s.Keys + t.Keys)
    ensures StateRoot(h, s) == StateRoot(h, t) <==> s == t
  {
    if StateRoot(h, s) == StateRoot(h, t) {
      TreeRootInjective(StateLeaves(h, s), StateLeaves(h, t), 0);
      SameLeavesSameState(h, s, t);
    }
  }

  /** Binding: two pair lists have one root exactly when they stand for one map. */
  lemma PairsRootBinding(h: Bytes -> KeyHash, p: seq<Pair>, q: seq<Pair>)
    requires CollisionFree(h, KeysOf(p) + KeysOf(q))
    ensures PairsRoot(h, p) == PairsRoot(h, q) <==> LastWrites(p) == LastWrites(q)
  {
    PairsRootIsStateRoot(h, p);
    PairsRootIsStateRoot(h, q);
    LastWritesKeys(p);
    LastWritesKeys(q);
    StateRootBinding(h, LastWrites(p), LastWrites(q));
  }

  /** Soundness: whatever its length, a proof that verifies shows a pair that is really there. */
  lemma ProofSoundness(h: Bytes -> KeyHash, pairs: seq<Pair>, key: Bytes, value: Bytes, proof: seq<Digest>)
    requires CollisionFree(h, KeysOf(pairs) + {key})
    requires Climb(h(key), LeafNode(h(key), Blake3(value)), proof) == PairsRoot(h, pairs)
    ensures |proof| == TREE_DEPTH
    ensures key in LastWrites(pairs) && LastWrites(pairs)[key] == value
  {
    ClimbReachesLeaf(Dedup(h, pairs), 0, h(key), LeafNode(h(key), Blake3(value)), proof);
    DedupFollowsLastWrites(h, pairs, key);
  }

  /** The proof served for a key verifies with a value exactly when that is the key's value. */
  lemma ServedProofIsExact(h: Bytes -> KeyHash, pairs: seq<Pair>, key: Bytes, value: Bytes,
                           root: Digest, proof: seq<Digest>)
    requires CollisionFree(h, KeysOf(pairs) + {key})
    requires root == PairsRoot(h, pairs)
    requires h(key) in Dedup(h, pairs) ==> Climb(h(key), Dedup(h, pairs)[h(key)], proof) == root
    ensures Climb(h(key), LeafNode(h(key), Blake3(value)), proof) == root
            <==> key in LastWrites(pairs) && LastWrites(pairs)[key] == value
  {
    DedupFollowsLastWrites(h, pairs, key);
    if Climb(h(key), LeafNode(h(key), Blake3(value)), proof) == root {
      ProofSoundness(h, pairs, key, value, proof);
    }
  }

  /** Binding for 32-byte digests: where no two keys share a digest, equal roots are equal maps. */
  lemma ByteDigestsBind(digest: Bytes -> HashBytes, p: seq<Pair>, q: seq<Pair>)
    requires DigestsDiffer(digest, KeysOf(p) + KeysOf(q))
    ensures PairsRoot(KeyPath(digest), p) == PairsRoot(KeyPath(digest), q) <==> LastWrites(p) == LastWrites(q)
  {
    PathsMeetAsDigests(digest, KeysOf(p) + KeysOf(q));
    PairsRootBinding(KeyPath(digest), p, q);
  }

  lemma FirstBitOfDigest(k: HashBytes)
    ensures PathOf(k)[0] <==> k[0] >= 0x80
  {
    assert BitAt(k, 0) == ((k[0] >> 7) & 1 == 1);
  }

  /** A state of one key: the first bit of the key's digest says on which side of the root it is. */
  lemma OneKeyState(digest: Bytes -> HashBytes, key: Bytes, value: Bytes)
    ensures var root := StateRoot(KeyPath(digest), map[key := value]);
            && root.Inner?
            && if digest(key)[0] >= 0x80 then root.left == Empty && root.right != Empty
               else root.right == Empty && root.left != Empty
  {
    var h, state := KeyPath(digest), map[key := value];
    var leaves := StateLeaves(h, state);
    FirstBitOfDigest(digest(key));
    assert key in state && h(key) in leaves;
    assert forall k :: k in leaves ==> k == h(key);
    ZeroGoesLeft(leaves, 0, h(key)[0]);
    TreeRootEmpty(leaves, 1);
  }
}
