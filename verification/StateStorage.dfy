/**
  The per-program state store (src/storage/state_store.rs): one database tree whose keys are a
  32-byte program id followed by the program's own key.
 */
module StateStorage {
  import opened Wrappers
  import opened Crypto
  import opened SparseMerkle
  import ByteOrder

  const NAMESPACE_BYTES: nat := 32

  type ProgramId = s: Bytes | |s| == NAMESPACE_BYTES witness seq(NAMESPACE_BYTES, _ => 0)

  type State = map<Bytes, Bytes>

  /** A write of `None` deletes the key. */
  datatype StateWrite = StateWrite(key: Bytes, value: Option<Bytes>)

  function Prefixed(ns: ProgramId, key: Bytes): (r: Bytes) {
    ns + key
  }

  function ScopedKeys(keys: set<Bytes>, ns: ProgramId): (r: set<Bytes>)
    ensures forall k :: k in r <==> Prefixed(ns, k) in keys
  {
    assert forall k :: Prefixed(ns, k) in keys ==> ns <= Prefixed(ns, k) && Prefixed(ns, k)[NAMESPACE_BYTES..] == k;
    assert forall x :: x in keys && ns <= x ==> Prefixed(ns, x[NAMESPACE_BYTES..]) == x;
    set x | x in keys && ns <= x :: x[NAMESPACE_BYTES..]
  }

  /** The entries of one program, with the prefix stripped. */
  function Scope(tree: map<Bytes, Bytes>, ns: ProgramId): (r: State) {
    map k | k in ScopedKeys(tree.Keys, ns) :: tree[Prefixed(ns, k)]
  }

  /** Prefixes have a fixed length, so no key belongs to two programs. */
  lemma PrefixedInjective(a: ProgramId, k: Bytes, b: ProgramId, l: Bytes)
    requires Prefixed(a, k) == Prefixed(b, l)
    ensures a == b && k == l
  {
    assert a == Prefixed(a, k)[..NAMESPACE_BYTES] && b == Prefixed(b, l)[..NAMESPACE_BYTES];
    assert k == Prefixed(a, k)[NAMESPACE_BYTES..] && l == Prefixed(b, l)[NAMESPACE_BYTES..];
  }

  lemma ScopeAfterSet(tree: map<Bytes, Bytes>, ns: ProgramId, key: Bytes, value: Bytes, p: ProgramId)
    ensures Scope(tree[Prefixed(ns, key) := value], p)
            == if p == ns then Scope(tree, p)[key := value] else Scope(tree, p)
  {
  }

  lemma ScopeAfterDelete(tree: map<Bytes, Bytes>, ns: ProgramId, key: Bytes, p: ProgramId)
    ensures Scope(tree - {Prefixed(ns, key)}, p)
            == if p == ns then Scope(tree, p) - {key} else Scope(tree, p)
  {
  }

  /** Nothing outside the namespace `ns` differs between two trees. */
  ghost predicate OthersUnchanged(before: map<Bytes, Bytes>, after: map<Bytes, Bytes>, ns: ProgramId) {
    forall p: ProgramId :: p != ns ==> Scope(after, p) == Scope(before, p)
  }

  lemma OthersAfterSet(tree: map<Bytes, Bytes>, ns: ProgramId, key: Bytes, value: Bytes)
    ensures OthersUnchanged(tree, tree[Prefixed(ns, key) := value], ns)
  {
  }

  lemma OthersAfterDelete(tree: map<Bytes, Bytes>, ns: ProgramId, key: Bytes)
    ensures OthersUnchanged(tree, tree - {Prefixed(ns, key)}, ns)
  {
  }

  /** Applying writes in order. */
  function ApplyWrites(state: State, writes: seq<StateWrite>): (r: State) {
    if writes == [] then state
    else
      var last := writes[|writes| - 1];
      var before := ApplyWrites(state, writes[..|writes| - 1]);
      match last.value
      case Some(v) => before[last.key := v]
      case None => before - {last.key}
  }

  lemma LastWritesSnoc(pairs: seq<Pair>, key: Bytes, value: Bytes)
    ensures LastWrites(pairs + [(key, value)]) == LastWrites(pairs)[key := value]
  {
  }

  function PairKeys(pairs: seq<Pair>): (r: seq<Bytes>)
    ensures |r| == |pairs| && forall i :: 0 <= i < |r| ==> r[i] == pairs[i].0
  {
    seq(|pairs|, i requires 0 <= i < |pairs| => pairs[i].0)
  }

  /** The entries under these keys of a namespace, with the prefix stripped. */
  ghost function Stripped(tree: map<Bytes, Bytes>, ns: ProgramId, keys: seq<Bytes>): (r: seq<Pair>)
    requires forall i :: 0 <= i < |keys| ==> keys[i] in tree && ns <= keys[i]
    ensures |r| == |keys| && forall i :: 0 <= i < |keys| ==> r[i] == (keys[i][NAMESPACE_BYTES..], tree[keys[i]])
  {
    seq(|keys|, i requires 0 <= i < |keys| => (keys[i][NAMESPACE_BYTES..], tree[keys[i]]))
  }

  /** Pairs with distinct keys that are those of a map, and have its values, write that map. */
  lemma PairsWriteMap(pairs: seq<Pair>, m: State)
    requires forall i :: 0 <= i < |pairs| ==> pairs[i].0 in m && pairs[i].1 == m[pairs[i].0]
    requires forall k :: k in m ==> exists i :: 0 <= i < |pairs| && pairs[i].0 == k
    ensures LastWrites(pairs) == m
  {
    forall k
      ensures k in LastWrites(pairs) <==> k in m
      ensures k in LastWrites(pairs) && k in m ==> LastWrites(pairs)[k] == m[k]
    {
      LastWriteOf(pairs, k);
    }
  }

  lemma {:induction false} LastWriteOf(pairs: seq<Pair>, k: Bytes)
    ensures k in LastWrites(pairs) <==> exists i :: 0 <= i < |pairs| && pairs[i].0 == k
    ensures k in LastWrites(pairs) ==> (k, LastWrites(pairs)[k]) in pairs
  {
    if pairs != [] {
      var n := |pairs| - 1;
      LastWriteOf(pairs[..n], k);
      assert forall i :: 0 <= i < n ==> pairs[..n][i] == pairs[i];
      assert pairs[n].0 == k ==> (k, LastWrites(pairs)[k]) == pairs[n];
    }
  }

  /** The keys behind a prefix. */
  function Behind(tree: map<Bytes, Bytes>, ns: ProgramId): (r: set<Bytes>) {
    set x | x in tree && ns <= x
  }

  lemma StrippedIsScope(tree: map<Bytes, Bytes>, ns: ProgramId, keys: seq<Bytes>)
    requires forall x :: x in keys <==> x in Behind(tree, ns)
    ensures forall i :: 0 <= i < |keys| ==> keys[i] in tree && ns <= keys[i]
    ensures LastWrites(Stripped(tree, ns, keys)) == Scope(tree, ns)
  {
    assert forall i :: 0 <= i < |keys| ==> keys[i] in Behind(tree, ns);
    var pairs := Stripped(tree, ns, keys);
    forall i | 0 <= i < |keys|
      ensures pairs[i].0 in Scope(tree, ns) && pairs[i].1 == Scope(tree, ns)[pairs[i].0]
    {
      assert Prefixed(ns, pairs[i].0) == keys[i];
    }
    forall k | k in Scope(tree, ns)
      ensures exists i :: 0 <= i < |pairs| && pairs[i].0 == k
    {
      var x := Prefixed(ns, k);
      assert x in Behind(tree, ns) && x[NAMESPACE_BYTES..] == k;
      var i :| 0 <= i < |keys| && keys[i] == x;
      assert pairs[i].0 == k;
    }
    PairsWriteMap(pairs, Scope(tree, ns));
  }

  lemma StrippedAscends(tree: map<Bytes, Bytes>, ns: ProgramId, keys: seq<Bytes>)
    requires ByteOrder.Ascending(keys) && forall i :: 0 <= i < |keys| ==> keys[i] in tree && ns <= keys[i]
    ensures ByteOrder.Ascending(PairKeys(Stripped(tree, ns, keys)))
  {
    var stripped := PairKeys(Stripped(tree, ns, keys));
    forall i, j | 0 <= i < j < |keys|
      ensures ByteOrder.Less(stripped[i], stripped[j])
    {
      assert keys[i] == ns + stripped[i] && keys[j] == ns + stripped[j];
      ByteOrder.CommonPrefix(ns, stripped[i], stripped[j]);
    }
  }

  method ReadKeys(tree: map<Bytes, Bytes>, ns: ProgramId, keys: seq<Bytes>) returns (pairs: seq<Pair>)
    requires forall i :: 0 <= i < |keys| ==> keys[i] in tree && ns <= keys[i]
    ensures pairs == Stripped(tree, ns, keys)
  {
    pairs := [];
    for i := 0 to |keys|
      invariant pairs == Stripped(tree, ns, keys)[..i]
    {
      pairs := pairs + [(keys[i][NAMESPACE_BYTES..], tree[keys[i]])];
    }
  }

  class StateStore {
    const h: Bytes -> KeyHash
    var tree: map<Bytes, Bytes>

    constructor (h: Bytes -> KeyHash)
      ensures this.h == h && tree == map[]
    {
      this.h := h;
      tree := map[];
    }

    method GetScoped(ns: ProgramId, key: Bytes) returns (value: Option<Bytes>)
      ensures value == if key in Scope(tree, ns) then Some(Scope(tree, ns)[key]) else None
    {
      var k := Prefixed(ns, key);
      value := if k in tree then Some(tree[k]) else None;
    }

    method SetScoped(ns: ProgramId, key: Bytes, value: Bytes)
      modifies this
      ensures Scope(tree, ns) == Scope(old(tree), ns)[key := value]
      ensures OthersUnchanged(old(tree), tree, ns)
    {
      tree := tree[Prefixed(ns, key) := value];
      ScopeAfterSet(old(tree), ns, key, value, ns);
      OthersAfterSet(old(tree), ns, key, value);
    }

    method DeleteScoped(ns: ProgramId, key: Bytes)
      modifies this
      ensures Scope(tree, ns) == Scope(old(tree), ns) - {key}
      ensures OthersUnchanged(old(tree), tree, ns)
    {
      tree := tree - {Prefixed(ns, key)};
      ScopeAfterDelete(old(tree), ns, key, ns);
      OthersAfterDelete(old(tree), ns, key);
    }

    /** A prefix scan, in key order. */
    method GetAllScoped(ns: ProgramId) returns (pairs: seq<Pair>)
      ensures LastWrites(pairs) == Scope(tree, ns)
      ensures ByteOrder.Ascending(PairKeys(pairs))
    {
      var keys := ByteOrder.Sort(Behind(tree, ns));
      StrippedIsScope(tree, ns, keys);
      StrippedAscends(tree, ns, keys);
      pairs := ReadKeys(tree, ns, keys);
    }

    method SparseRootScoped(ns: ProgramId) returns (root: Digest)
      ensures CollisionFree(h, Scope(tree, ns).Keys) ==> root == StateRoot(h, Scope(tree, ns))
    {
      var pairs := GetAllScoped(ns);
      root := SparseMerkleRoot(h, pairs);
      LastWritesKeys(pairs);
      if CollisionFree(h, Scope(tree, ns).Keys) { PairsRootIsStateRoot(h, pairs); }
    }

    /** A proof taken from the store verifies with exactly the value the store holds. */
    method ProveScoped(ns: ProgramId, key: Bytes) returns (root: Digest, proof: seq<Digest>)
      ensures |proof| == TREE_DEPTH
      ensures CollisionFree(h, Scope(tree, ns).Keys + {key}) ==>
                && root == StateRoot(h, Scope(tree, ns))
                && forall v :: Climb(h(key), LeafNode(h(key), Blake3(v)), proof) == root
                               <==> key in Scope(tree, ns) && Scope(tree, ns)[key] == v
    {
      var pairs := GetAllScoped(ns);
      root, proof := SparseMerkleProof(h, pairs, key);
      LastWritesKeys(pairs);
      if CollisionFree(h, Scope(tree, ns).Keys + {key}) {
        PairsRootIsStateRoot(h, pairs);
        forall v { ServedProofIsExact(h, pairs, key, v, root, proof); }
      }
    }
  }

  /** `apply_state_writes`: the writes of a finalised transition, one by one. */
  method ApplyStateWrites(store: StateStore, ns: ProgramId, writes: seq<StateWrite>)
    modifies store
    ensures Scope(store.tree, ns) == ApplyWrites(Scope(old(store.tree), ns), writes)
    ensures OthersUnchanged(old(store.tree), store.tree, ns)
  {
    for i := 0 to |writes|
      invariant Scope(store.tree, ns) == ApplyWrites(Scope(old(store.tree), ns), writes[..i])
      invariant OthersUnchanged(old(store.tree), store.tree, ns)
    {
      assert writes[..i + 1][..i] == writes[..i];
      match writes[i].value
      case Some(v) => store.SetScoped(ns, writes[i].key, v);
      case None => store.DeleteScoped(ns, writes[i].key);
    }
    assert writes[..|writes|] == writes;
  }

  /** Laying pairs over a state, one by one. */
  function LaidOver(base: State, pairs: seq<Pair>): (r: State) {
    if pairs == [] then base
    else LaidOver(base, pairs[..|pairs| - 1])[pairs[|pairs| - 1].0 := pairs[|pairs| - 1].1]
  }

  lemma {:induction false} LaidOverIsUnion(base: State, pairs: seq<Pair>)
    ensures LaidOver(base, pairs) == base + LastWrites(pairs)
  {
    if pairs != [] {
      LaidOverIsUnion(base, pairs[..|pairs| - 1]);
    }
  }

  /** Storing the entries of a state response, one by one. */
  method SetEntries(store: StateStore, ns: ProgramId, entries: seq<Pair>)
    modifies store
    ensures Scope(store.tree, ns) == Scope(old(store.tree), ns) + LastWrites(entries)
    ensures OthersUnchanged(old(store.tree), store.tree, ns)
  {
    for i := 0 to |entries|
      invariant Scope(store.tree, ns) == LaidOver(Scope(old(store.tree), ns), entries[..i])
      invariant OthersUnchanged(old(store.tree), store.tree, ns)
    {
      assert entries[..i + 1][..i] == entries[..i];
      store.SetScoped(ns, entries[i].0, entries[i].1);
    }
    assert entries[..|entries|] == entries;
    LaidOverIsUnion(Scope(old(store.tree), ns), entries);
  }

  /** Iterating over a hash map of pairs, in an order nothing depends on. */
  method CollectPairs(m: State) returns (pairs: seq<Pair>)
    ensures LastWrites(pairs) == m
  {
    pairs := [];
    var todo := m.Keys;
    while todo != {}
      invariant todo <= m.Keys
      invariant forall k :: k in LastWrites(pairs) <==> k in m && k !in todo
      invariant forall k :: k in LastWrites(pairs) ==> LastWrites(pairs)[k] == m[k]
      decreases |todo|
    {
      var k :| k in todo;
      LastWritesSnoc(pairs, k, m[k]);
      pairs := pairs + [(k, m[k])];
      todo := todo - {k};
    }
  }

  /** Collecting pairs into a hash map. */
  method ToMap(pairs: seq<Pair>) returns (m: State)
    ensures m == LastWrites(pairs)
  {
    m := map[];
    for i := 0 to |pairs|
      invariant m == LastWrites(pairs[..i])
    {
      assert pairs[..i + 1][..i] == pairs[..i];
      m := m[pairs[i].0 := pairs[i].1];
    }
    assert pairs[..|pairs|] == pairs;
  }

  /** The root of a hash map. */
  method RootOfMap(h: Bytes -> KeyHash, m: State) returns (root: Digest)
    ensures CollisionFree(h, m.Keys) ==> root == StateRoot(h, m)
  {
    var merged := CollectPairs(m);
    root := SparseMerkleRoot(h, merged);
    LastWritesKeys(merged);
    if CollisionFree(h, m.Keys) { PairsRootIsStateRoot(h, merged); }
  }

  /** Merging writes into a hash map, in order. */
  method MergeWrites(base: State, writes: seq<StateWrite>) returns (m: State)
    ensures m == ApplyWrites(base, writes)
  {
    m := base;
    for i := 0 to |writes|
      invariant m == ApplyWrites(base, writes[..i])
    {
      assert writes[..i + 1][..i] == writes[..i];
      match writes[i].value
      case Some(v) => m := m[writes[i].key := v];
      case None => m := m - {writes[i].key};
    }
    assert writes[..|writes|] == writes;
  }

  /** `compute_root_after_writes`: the root the writes would produce, without touching the store. */
  method ComputeRootAfterWrites(store: StateStore, ns: ProgramId, writes: seq<StateWrite>) returns (root: Digest)
    ensures var after := ApplyWrites(Scope(store.tree, ns), writes);
            CollisionFree(store.h, after.Keys) ==> root == StateRoot(store.h, after)
  {
    var pairs := store.GetAllScoped(ns);
    var base := ToMap(pairs);
    var merged := MergeWrites(base, writes);
    root := RootOfMap(store.h, merged);
  }
}
