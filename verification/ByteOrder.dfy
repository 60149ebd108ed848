/**
  The order of keys in the embedded database: byte strings compare lexicographically, and
  iterating over a tree or sorting a key list visits them in that order.
 */
module ByteOrder {
  import opened Crypto

  predicate Less(a: Bytes, b: Bytes) {
    b != [] && (a == [] || a[0] < b[0] || (a[0] == b[0] && Less(a[1..], b[1..])))
  }

  lemma {:induction false} Irreflexive(a: Bytes)
    ensures !Less(a, a)
  {
    if a != [] { Irreflexive(a[1..]); }
  }

  lemma {:induction false} Transitive(a: Bytes, b: Bytes, c: Bytes)
    requires Less(a, b) && Less(b, c)
    ensures Less(a, c)
  {
    if a != [] && a[0] == b[0] && b[0] == c[0] {
      Transitive(a[1..], b[1..], c[1..]);
    }
  }

  lemma {:induction false} Total(a: Bytes, b: Bytes)
    ensures a == b || Less(a, b) || Less(b, a)
  {
    if a != [] && b != [] && a[0] == b[0] {
      Total(a[1..], b[1..]);
      if a[1..] == b[1..] {
        assert a == [a[0]] + a[1..] && b == [b[0]] + b[1..];
      }
    }
  }

  /** Keys behind a common prefix compare as what follows the prefix. */
  lemma {:induction false} CommonPrefix(p: Bytes, a: Bytes, b: Bytes)
    ensures Less(p + a, p + b) <==> Less(a, b)
  {
    if p == [] {
      assert p + a == a && p + b == b;
    } else {
      assert (p + a)[1..] == p[1..] + a && (p + b)[1..] == p[1..] + b;
      CommonPrefix(p[1..], a, b);
    }
  }

  ghost predicate IsLeast(k: Bytes, s: set<Bytes>) {
    k in s && forall x :: x in s && x != k ==> Less(k, x)
  }

  /** A list of keys in database order. */
  ghost predicate Ascending(keys: seq<Bytes>) {
    forall i, j :: 0 <= i < j < |keys| ==> Less(keys[i], keys[j])
  }

  ghost predicate IsListing(keys: seq<Bytes>, s: set<Bytes>) {
    Ascending(keys) && (forall k :: k in keys <==> k in s)
  }

  /** The least key of a non-empty set, found by a scan. */
  method Least(s: set<Bytes>) returns (least: Bytes)
    requires s != {}
    ensures IsLeast(least, s)
  {
    least :| least in s;
    var todo := s - {least};
    while todo != {}
      invariant todo <= s && least in s && least !in todo
      invariant forall x :: x in s && x != least && x !in todo ==> Less(least, x)
      decreases |todo|
    {
      var k :| k in todo;
      Total(k, least);
      if Less(k, least) {
        forall x | x in s && x != k && x !in todo
          ensures Less(k, x)
        {
          if x != least { Transitive(k, least, x); }
        }
        least := k;
      }
      todo := todo - {k};
    }
  }

  lemma {:induction false} LeastExists(s: set<Bytes>)
    requires s != {}
    ensures exists k :: IsLeast(k, s)
    decreases |s|
  {
    var a :| a in s;
    if s - {a} == {} {
      assert s == {a};
      assert IsLeast(a, s);
    } else {
      LeastExists(s - {a});
      var b :| IsLeast(b, s - {a});
      Total(a, b);
      if Less(a, b) {
        forall x | x in s && x != a ensures Less(a, x) {
          if x != b { Transitive(a, b, x); }
        }
        assert IsLeast(a, s);
      } else {
        assert IsLeast(b, s);
      }
    }
  }

  lemma ListingCons(k: Bytes, rest: seq<Bytes>, s: set<Bytes>)
    requires IsLeast(k, s) && IsListing(rest, s - {k})
    ensures IsListing([k] + rest, s)
  {
    var keys := [k] + rest;
    forall i, j | 0 <= i < j < |keys|
      ensures Less(keys[i], keys[j])
    {
      assert keys[j] == rest[j - 1];
      assert rest[j - 1] in rest;
      if i > 0 { assert keys[i] == rest[i - 1]; }
    }
  }

  /** The listing of a set. */
  ghost function Listing(s: set<Bytes>): (r: seq<Bytes>)
    ensures IsListing(r, s)
    decreases |s|
  {
    if s == {} then []
    else
      LeastExists(s);
      var k :| IsLeast(k, s);
      ListingCons(k, Listing(s - {k}), s);
      [k] + Listing(s - {k})
  }

  /** Sorting a set of keys. */
  method Sort(s: set<Bytes>) returns (keys: seq<Bytes>)
    ensures keys == Listing(s)
  {
    keys := [];
    var todo := s;
    while todo != {}
      invariant todo <= s
      invariant Ascending(keys)
      invariant forall k :: k in keys <==> k in s && k !in todo
      invariant forall k, x :: k in keys && x in todo ==> Less(k, x)
      decreases |todo|
    {
      var k := Least(todo);
      keys, todo := keys + [k], todo - {k};
    }
    ListingUnique(keys, Listing(s), s);
  }

  /** A set has only one listing, so a sorted result is a function of the set. */
  lemma {:induction false} ListingUnique(a: seq<Bytes>, b: seq<Bytes>, s: set<Bytes>)
    requires IsListing(a, s) && IsListing(b, s)
    ensures a == b
    decreases |a|
  {
    assert a != [] ==> a[0] in b;
    assert b != [] ==> b[0] in a;
    if a != [] {
      SameHead(a, b, s);
      forall k
        ensures k in a[1..] <==> k in s - {a[0]}
        ensures k in b[1..] <==> k in s - {a[0]}
      {
        TailMembers(a, k);
        TailMembers(b, k);
      }
      ListingUnique(a[1..], b[1..], s - {a[0]});
      assert a == [a[0]] + a[1..] && b == [b[0]] + b[1..];
    }
  }

  lemma SameHead(a: seq<Bytes>, b: seq<Bytes>, s: set<Bytes>)
    requires IsListing(a, s) && IsListing(b, s) && a != [] && b != []
    ensures a[0] == b[0]
  {
    assert a[0] in b && b[0] in a;
    if a[0] != b[0] {
      var i :| 0 <= i < |b| && b[i] == a[0];
      var j :| 0 <= j < |a| && a[j] == b[0];
      assert Less(b[0], a[0]) && Less(a[0], b[0]);
      Transitive(a[0], b[0], a[0]);
      Irreflexive(a[0]);
    }
  }

  lemma TailMembers(a: seq<Bytes>, k: Bytes)
    requires a != [] && Ascending(a)
    ensures k in a[1..] <==> k in a && k != a[0]
  {
    if k in a[1..] {
      var i :| 0 < i < |a| && a[i] == k;
      Irreflexive(k);
    }
    if k in a && k != a[0] {
      var i :| 0 <= i < |a| && a[i] == k;
      assert a[1..][i - 1] == k;
    }
  }
}
