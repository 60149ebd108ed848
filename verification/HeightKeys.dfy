/**
  Database keys made of a program id and a height (src/storage/program_catalog.rs,
  src/consensus/core/engine.rs): 32 bytes of id followed by the height, big-endian, so that the
  last key of a prefix scan is the one with the greatest height.
 */
module HeightKeys {
  import opened Wrappers
  import opened Crypto
  import opened StateStorage
  import opened Committee
  import ByteOrder

  const HEIGHT_BYTES: nat := 8

  function BigEndian(n: nat, width: nat): (r: Bytes)
    ensures |r| == width
    decreases width, n
  {
    if width == 0 then [] else BigEndian(n / 256, width - 1) + [(n % 256) as byte]
  }

  function Pow256(width: nat): (r: nat) {
    if width == 0 then 1 else 256 * Pow256(width - 1)
  }

  lemma {:induction false} LessOnLastByte(x: Bytes, y: Bytes, c: byte, d: byte)
    requires |x| == |y|
    ensures ByteOrder.Less(x + [c], y + [d]) <==> ByteOrder.Less(x, y) || (x == y && c < d)
    decreases |x|
  {
    if x != [] {
      assert (x + [c])[1..] == x[1..] + [c] && (y + [d])[1..] == y[1..] + [d];
      LessOnLastByte(x[1..], y[1..], c, d);
      assert x == y <==> x[0] == y[0] && x[1..] == y[1..] by {
        assert x == [x[0]] + x[1..] && y == [y[0]] + y[1..];
      }
    } else {
      assert x + [c] == [c] && y + [d] == [d];
    }
  }

  /** Big-endian encodings of one width compare as the numbers do. */
  lemma {:induction false} BigEndianOrder(a: nat, b: nat, width: nat)
    requires a < Pow256(width) && b < Pow256(width)
    ensures ByteOrder.Less(BigEndian(a, width), BigEndian(b, width)) <==> a < b
    ensures BigEndian(a, width) == BigEndian(b, width) <==> a == b
  {
    if width > 0 {
      BigEndianOrder(a / 256, b / 256, width - 1);
      var x, y := BigEndian(a / 256, width - 1), BigEndian(b / 256, width - 1);
      var c, d := (a % 256) as byte, (b % 256) as byte;
      LessOnLastByte(x, y, c, d);
      if x + [c] == y + [d] {
        assert x == (x + [c])[..width - 1] && y == (y + [d])[..width - 1];
        assert c == (x + [c])[width - 1] && d == (y + [d])[width - 1];
      }
    }
  }

  lemma U64Width()
    ensures Pow256(HEIGHT_BYTES) == U64_MAX + 1
  {
  }

  function HeightKey(p: ProgramId, height: u64): (r: Bytes)
    ensures |r| == NAMESPACE_BYTES + HEIGHT_BYTES && p <= r
  {
    p + BigEndian(height, HEIGHT_BYTES)
  }

  lemma HeightKeyInjective(p: ProgramId, a: u64, q: ProgramId, b: u64)
    ensures HeightKey(p, a) == HeightKey(q, b) <==> p == q && a == b
  {
    U64Width();
    BigEndianOrder(a, b, HEIGHT_BYTES);
    if HeightKey(p, a) == HeightKey(q, b) {
      assert p == HeightKey(p, a)[..NAMESPACE_BYTES] && q == HeightKey(q, b)[..NAMESPACE_BYTES];
      assert BigEndian(a, HEIGHT_BYTES) == HeightKey(p, a)[NAMESPACE_BYTES..];
      assert BigEndian(b, HEIGHT_BYTES) == HeightKey(q, b)[NAMESPACE_BYTES..];
    }
  }

  /** Within one program, keys are ordered by height. */
  lemma HeightKeyOrder(p: ProgramId, a: u64, b: u64)
    ensures ByteOrder.Less(HeightKey(p, a), HeightKey(p, b)) <==> a < b
  {
    U64Width();
    BigEndianOrder(a, b, HEIGHT_BYTES);
    ByteOrder.CommonPrefix(p, BigEndian(a, HEIGHT_BYTES), BigEndian(b, HEIGHT_BYTES));
  }

  ghost predicate IsTop(heights: set<nat>, top: nat) {
    (forall k :: k in heights ==> k <= top) && (heights != {} ==> top in heights) && (heights == {} ==> top == 0)
  }

  lemma {:induction false} TopExists(heights: set<nat>)
    ensures exists top: nat :: IsTop(heights, top)
    decreases |heights|
  {
    if heights == {} {
      assert IsTop(heights, 0);
    } else {
      var k :| k in heights;
      TopExists(heights - {k});
      var top :| IsTop(heights - {k}, top);
      assert forall x :: x in heights ==> x == k || x in heights - {k};
      assert IsTop(heights, if k > top then k else top);
    }
  }

  /** The greatest height, or 0. */
  ghost function Top(heights: set<nat>): (top: nat)
    ensures IsTop(heights, top)
  {
    TopExists(heights);
    var top :| IsTop(heights, top);
    top
  }

  /** What a tree holds for one program, by height. */
  ghost function Of<V>(entries: map<ProgramId, map<nat, V>>, p: ProgramId): (r: map<nat, V>) {
    if p in entries then entries[p] else map[]
  }

  ghost function Put<V>(entries: map<ProgramId, map<nat, V>>, p: ProgramId, height: nat, value: V)
      : (r: map<ProgramId, map<nat, V>>)
  {
    entries[p := Of(entries, p)[height := value]]
  }

  ghost predicate Holds<V>(tree: map<Bytes, V>, p: ProgramId, k: nat, value: V) {
    k <= U64_MAX && HeightKey(p, k) in tree && tree[HeightKey(p, k)] == value
  }

  ghost predicate Listed<V>(entries: map<ProgramId, map<nat, V>>, x: Bytes) {
    exists p: ProgramId, k: nat :: k in Of(entries, p) && k <= U64_MAX && x == HeightKey(p, k)
  }

  /** The byte keys of `tree` spell exactly the entries. */
  ghost predicate Spells<V>(tree: map<Bytes, V>, entries: map<ProgramId, map<nat, V>>) {
    && (forall p: ProgramId, k: nat :: k in Of(entries, p) ==> Holds(tree, p, k, Of(entries, p)[k]))
    && (forall x {:trigger Listed(entries, x)} :: x in tree ==> Listed(entries, x))
  }

  lemma SpelledKey<V>(tree: map<Bytes, V>, entries: map<ProgramId, map<nat, V>>, p: ProgramId, k: u64)
    requires Spells(tree, entries)
    ensures HeightKey(p, k) in tree <==> k in Of(entries, p)
    ensures k in Of(entries, p) ==> tree[HeightKey(p, k)] == Of(entries, p)[k]
  {
    var x := HeightKey(p, k);
    if x in tree {
      assert Listed(entries, x);
      var q: ProgramId, l: nat :| l in Of(entries, q) && l <= U64_MAX && x == HeightKey(q, l);
      HeightKeyInjective(p, k, q, l);
    }
    assert k in Of(entries, p) ==> Holds(tree, p, k, Of(entries, p)[k]);
  }

  lemma SpellsAfterPut<V>(tree: map<Bytes, V>, entries: map<ProgramId, map<nat, V>>, p: ProgramId, height: u64, value: V)
    requires Spells(tree, entries)
    ensures Spells(tree[HeightKey(p, height) := value], Put(entries, p, height, value))
  {
    var key, after := HeightKey(p, height), Put(entries, p, height, value);
    var tree' := tree[key := value];
    forall q: ProgramId, k: nat | k in Of(after, q)
      ensures Holds(tree', q, k, Of(after, q)[k])
    {
      if q != p || k != height {
        assert Holds(tree, q, k, Of(entries, q)[k]);
        HeightKeyInjective(q, k, p, height);
      }
    }
    forall x | x in tree'
      ensures Listed(after, x)
    {
      if x == key {
        assert height in Of(after, p);
      } else {
        assert Listed(entries, x);
        var q: ProgramId, k: nat :| k in Of(entries, q) && k <= U64_MAX && x == HeightKey(q, k);
        assert k in Of(after, q);
      }
    }
  }

  /** In key order, the last of a program's entries is the one of the greatest height. */
  lemma LastIsTop<V>(tree: map<Bytes, V>, entries: map<ProgramId, map<nat, V>>, p: ProgramId, keys: seq<Bytes>, top: nat)
    requires Spells(tree, entries) && ByteOrder.IsListing(keys, Under(tree, p))
    requires IsTop(Of(entries, p).Keys, top)
    ensures keys == [] <==> Of(entries, p) == map[]
    ensures keys != [] ==> var last := keys[|keys| - 1]; last in tree && tree[last] == Of(entries, p)[top]
  {
    if top in Of(entries, p) {
      assert Holds(tree, p, top, Of(entries, p)[top]);
      var x := HeightKey(p, top);
      assert p <= x && x in Under(tree, p);
      var i :| 0 <= i < |keys| && keys[i] == x;
      var last := keys[|keys| - 1];
      UnderIsListed(tree, entries, p, last, top);
      assert i < |keys| - 1 ==> ByteOrder.Less(x, last);
    } else if keys != [] {
      UnderIsListed(tree, entries, p, keys[0], top);
    }
  }

  /** A key behind a program's id is a key of that program, and none lies beyond the greatest height. */
  lemma UnderIsListed<V>(tree: map<Bytes, V>, entries: map<ProgramId, map<nat, V>>, p: ProgramId, x: Bytes, top: nat)
    requires Spells(tree, entries) && x in Under(tree, p) && IsTop(Of(entries, p).Keys, top)
    ensures top in Of(entries, p) && top <= U64_MAX && !ByteOrder.Less(HeightKey(p, top), x)
  {
    assert Listed(entries, x);
    var q: ProgramId, k: nat :| k in Of(entries, q) && k <= U64_MAX && x == HeightKey(q, k);
    assert q == x[..NAMESPACE_BYTES] && p == x[..NAMESPACE_BYTES];
    assert Holds(tree, p, top, Of(entries, p)[top]);
    HeightKeyOrder(p, top, k);
  }

  function Under<V>(tree: map<Bytes, V>, p: ProgramId): (r: set<Bytes>) {
    set x | x in tree && p <= x
  }

  /** A database tree keyed by program and height. */
  class HeightTree<V> {
    var tree: map<Bytes, V>
    ghost var entries: map<ProgramId, map<nat, V>>

    ghost predicate Valid()
      reads this
    {
      Spells(tree, entries)
    }

    constructor ()
      ensures Valid() && entries == map[]
    {
      tree, entries := map[], map[];
    }

    method Insert(p: ProgramId, height: u64, value: V)
      requires Valid()
      modifies this
      ensures Valid() && entries == Put(old(entries), p, height, value)
    {
      SpellsAfterPut(tree, entries, p, height, value);
      tree := tree[HeightKey(p, height) := value];
      entries := Put(entries, p, height, value);
    }

    method Get(p: ProgramId, height: u64) returns (value: Option<V>)
      requires Valid()
      ensures value == if height in Of(entries, p) then Some(Of(entries, p)[height]) else None
    {
      SpelledKey(tree, entries, p, height);
      var x := HeightKey(p, height);
      value := if x in tree then Some(tree[x]) else None;
    }

    /** The last entry of a prefix scan: the one of the greatest height. */
    method Last(p: ProgramId) returns (last: Option<V>)
      requires Valid()
      ensures last == if Of(entries, p) == map[] then None else Some(Of(entries, p)[Top(Of(entries, p).Keys)])
    {
      var keys := ByteOrder.Sort(Under(tree, p));
      last := None;
      for i := 0 to |keys|
        invariant forall j :: 0 <= j < |keys| ==> keys[j] in Under(tree, p)
        invariant i == 0 ==> last == None
        invariant i > 0 ==> last == Some(tree[keys[i - 1]])
      {
        last := Some(tree[keys[i]]);
      }
      LastIsTop(tree, entries, p, keys, Top(Of(entries, p).Keys));
    }
  }
}
