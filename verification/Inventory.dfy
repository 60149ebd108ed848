/**
  Merging the inventories that peers announce (`merge_inventory` in
  src/consensus/core/network_handlers.rs).  Lists come out of hash tables in no particular order,
  so what an inventory says is read off as sets.
 */
module Inventory {
  import opened Wrappers

  type Id = nat

  datatype Blob = Blob(id: Id, hasData: bool, locations: seq<string>)

  datatype DagInventory = DagInventory(programs: seq<Id>, executions: seq<Id>, blobs: seq<Blob>)

  /** What is known about one blob. */
  datatype Summary = Summary(hasData: bool, locations: set<string>)

  type Blobs = map<Id, Summary>

  datatype Meaning = Meaning(programs: set<Id>, executions: set<Id>, blobs: Blobs)

  function Elements<T(==)>(s: seq<T>): (r: set<T>) {
    set x | x in s
  }

  function SummaryOf(b: Blob): (s: Summary) {
    Summary(b.hasData, Elements(b.locations))
  }

  function Both(a: Summary, b: Summary): (s: Summary) {
    Summary(a.hasData || b.hasData, a.locations + b.locations)
  }

  function Add(m: Blobs, id: Id, s: Summary): (r: Blobs) {
    m[id := if id in m then Both(m[id], s) else s]
  }

  /** Entries for one blob add up. */
  function BlobsOf(blobs: seq<Blob>): (r: Blobs) {
    if blobs == [] then map[]
    else
      var last := blobs[|blobs| - 1];
      Add(BlobsOf(blobs[..|blobs| - 1]), last.id, SummaryOf(last))
  }

  function MeaningOf(inv: DagInventory): (m: Meaning) {
    Meaning(Elements(inv.programs), Elements(inv.executions), BlobsOf(inv.blobs))
  }

  function JoinBlobs(a: Blobs, b: Blobs): (r: Blobs) {
    map id | id in a.Keys + b.Keys ::
      if id !in b then a[id] else if id !in a then b[id] else Both(a[id], b[id])
  }

  function Join(a: Meaning, b: Meaning): (m: Meaning) {
    Meaning(a.programs + b.programs, a.executions + b.executions, JoinBlobs(a.blobs, b.blobs))
  }

  ghost predicate DistinctIds(blobs: seq<Blob>) {
    forall i, j :: 0 <= i < j < |blobs| ==> blobs[i].id != blobs[j].id
  }

  // ------------------------------------------------------------------------------------------
  // The join is a semilattice
  // ------------------------------------------------------------------------------------------

  lemma JoinIsSemilattice(a: Meaning, b: Meaning, c: Meaning)
    ensures Join(a, a) == a
    ensures Join(a, b) == Join(b, a)
    ensures Join(Join(a, b), c) == Join(a, Join(b, c))
  {
    JoinBlobsCommutes(a.blobs, a.blobs);
    JoinBlobsCommutes(a.blobs, b.blobs);
    JoinBlobsAssociative(a.blobs, b.blobs, c.blobs);
  }

  lemma BothCommutes(a: Summary, b: Summary)
    ensures Both(a, b) == Both(b, a) && Both(a, a) == a
  {
  }

  lemma JoinBlobsCommutes(a: Blobs, b: Blobs)
    ensures JoinBlobs(a, b) == JoinBlobs(b, a) && JoinBlobs(a, a) == a
  {
    forall id | id in a
      ensures id in b ==> Both(a[id], b[id]) == Both(b[id], a[id])
      ensures Both(a[id], a[id]) == a[id]
    {
      BothCommutes(a[id], if id in b then b[id] else a[id]);
    }
    assert JoinBlobs(a, b) == JoinBlobs(b, a);
    assert JoinBlobs(a, a) == a;
  }

  lemma BothAssociative(a: Summary, b: Summary, c: Summary)
    ensures Both(Both(a, b), c) == Both(a, Both(b, c))
  {
  }

  lemma JoinBlobsAssociative(a: Blobs, b: Blobs, c: Blobs)
    ensures JoinBlobs(JoinBlobs(a, b), c) == JoinBlobs(a, JoinBlobs(b, c))
  {
    var l, r := JoinBlobs(JoinBlobs(a, b), c), JoinBlobs(a, JoinBlobs(b, c));
    forall id | id in a || id in b || id in c
      ensures id in l && id in r && l[id] == r[id]
    {
      if id in a && id in b && id in c { BothAssociative(a[id], b[id], c[id]); }
    }
    assert l == r;
  }

  function JoinAll(ms: seq<Meaning>): (m: Meaning)
    requires ms != []
  {
    if |ms| == 1 then ms[0] else Join(JoinAll(ms[..|ms| - 1]), ms[|ms| - 1])
  }

  ghost predicate Below(a: Meaning, b: Meaning) {
    Join(a, b) == b
  }

  lemma {:induction false} ElementIsBelow(ms: seq<Meaning>, i: nat)
    requires i < |ms|
    ensures Below(ms[i], JoinAll(ms))
  {
    var n := |ms| - 1;
    JoinIsSemilattice(ms[i], ms[i], ms[i]);
    if n > 0 {
      var front := JoinAll(ms[..n]);
      JoinIsSemilattice(front, ms[n], ms[n]);
      if i < n {
        ElementIsBelow(ms[..n], i);
        assert ms[..n][i] == ms[i];
        JoinIsSemilattice(ms[i], front, ms[n]);
      } else {
        JoinIsSemilattice(ms[n], ms[n], front);
        JoinIsSemilattice(front, ms[n], front);
      }
    }
  }

  lemma {:induction false} AllBelow(ms: seq<Meaning>, b: Meaning)
    requires ms != [] && forall i :: 0 <= i < |ms| ==> Below(ms[i], b)
    ensures Below(JoinAll(ms), b)
  {
    var n := |ms| - 1;
    if n > 0 {
      AllBelow(ms[..n], b);
      JoinIsSemilattice(JoinAll(ms[..n]), ms[n], b);
    }
  }

  /** Order and repetition do not matter: the join depends only on which meanings occur. */
  lemma OrderDoesNotMatter(a: seq<Meaning>, b: seq<Meaning>)
    requires a != [] && b != [] && forall m :: m in a <==> m in b
    ensures JoinAll(a) == JoinAll(b)
  {
    SomeBelow(a, b);
    SomeBelow(b, a);
    JoinIsSemilattice(JoinAll(a), JoinAll(b), JoinAll(a));
  }

  lemma SomeBelow(a: seq<Meaning>, b: seq<Meaning>)
    requires a != [] && b != [] && forall m :: m in a ==> m in b
    ensures Below(JoinAll(a), JoinAll(b))
  {
    forall i | 0 <= i < |a|
      ensures Below(a[i], JoinAll(b))
    {
      assert a[i] in b;
      var j :| 0 <= j < |b| && b[j] == a[i];
      ElementIsBelow(b, j);
    }
    AllBelow(a, JoinAll(b));
  }

  // ------------------------------------------------------------------------------------------
  // What a join says
  // ------------------------------------------------------------------------------------------

  ghost function Meanings(invs: seq<DagInventory>): (r: seq<Meaning>)
    ensures |r| == |invs| && forall i :: 0 <= i < |invs| ==> r[i] == MeaningOf(invs[i])
  {
    seq(|invs|, i requires 0 <= i < |invs| => MeaningOf(invs[i]))
  }

  /** The single things an inventory can say. */
  datatype Fact =
    | HasProgram(program: Id)
    | HasExecution(execution: Id)
    | Lists(blob: Id)
    | HasData(blob: Id)
    | IsAt(blob: Id, location: string)

  predicate SummarySays(s: Summary, fact: Fact) {
    match fact
    case Lists(_) => true
    case HasData(_) => s.hasData
    case IsAt(_, location) => location in s.locations
    case _ => false
  }

  predicate Means(m: Meaning, fact: Fact) {
    match fact
    case HasProgram(x) => x in m.programs
    case HasExecution(x) => x in m.executions
    case _ => fact.blob in m.blobs && SummarySays(m.blobs[fact.blob], fact)
  }

  lemma JoinSays(a: Meaning, b: Meaning, fact: Fact)
    ensures Means(Join(a, b), fact) <==> Means(a, fact) || Means(b, fact)
  {
  }

  /** A join says exactly what one of its parts says. */
  lemma {:induction false} JoinAllSays(ms: seq<Meaning>, fact: Fact)
    requires ms != []
    ensures Means(JoinAll(ms), fact) <==> exists i :: 0 <= i < |ms| && Means(ms[i], fact)
  {
    var n := |ms| - 1;
    if n == 0 {
      assert Means(ms[0], fact) ==> exists i :: 0 <= i < |ms| && Means(ms[i], fact);
    } else {
      JoinAllSays(ms[..n], fact);
      JoinSays(JoinAll(ms[..n]), ms[n], fact);
      if Means(JoinAll(ms[..n]), fact) {
        var i :| 0 <= i < n && Means(ms[..n][i], fact);
        assert Means(ms[i], fact);
      }
      if i :| 0 <= i < n && Means(ms[i], fact) { assert Means(ms[..n][i], fact); }
    }
  }

  /** What one entry says about its blob. */
  predicate EntrySays(b: Blob, fact: Fact) {
    match fact
    case Lists(id) => b.id == id
    case HasData(id) => b.id == id && b.hasData
    case IsAt(id, location) => b.id == id && location in b.locations
    case _ => false
  }

  /** What an announced inventory says. */
  ghost predicate Says(inv: DagInventory, fact: Fact) {
    match fact
    case HasProgram(x) => x in inv.programs
    case HasExecution(x) => x in inv.executions
    case _ => exists i :: 0 <= i < |inv.blobs| && EntrySays(inv.blobs[i], fact)
  }

  lemma {:induction false} BlobsSay(blobs: seq<Blob>, fact: Fact)
    requires !fact.HasProgram? && !fact.HasExecution?
    ensures fact.blob in BlobsOf(blobs) && SummarySays(BlobsOf(blobs)[fact.blob], fact)
            <==> exists i :: 0 <= i < |blobs| && EntrySays(blobs[i], fact)
  {
    if blobs != [] {
      var n := |blobs| - 1;
      BlobsSay(blobs[..n], fact);
      if i :| 0 <= i < |blobs[..n]| && EntrySays(blobs[..n][i], fact) { assert EntrySays(blobs[i], fact); }
      if i :| 0 <= i < n && EntrySays(blobs[i], fact) { assert EntrySays(blobs[..n][i], fact); }
      assert EntrySays(blobs[n], fact) ==> exists i :: 0 <= i < |blobs| && EntrySays(blobs[i], fact);
    }
  }

  lemma MeaningSays(inv: DagInventory, fact: Fact)
    ensures Means(MeaningOf(inv), fact) <==> Says(inv, fact)
  {
    if !fact.HasProgram? && !fact.HasExecution? { BlobsSay(inv.blobs, fact); }
  }

  /** The join of inventories says exactly what one of them says. */
  lemma JoinOfInventoriesSays(invs: seq<DagInventory>, fact: Fact)
    requires invs != []
    ensures Means(JoinAll(Meanings(invs)), fact) <==> exists i :: 0 <= i < |invs| && Says(invs[i], fact)
  {
    var ms := Meanings(invs);
    JoinAllSays(ms, fact);
    forall i | 0 <= i < |invs| ensures Means(ms[i], fact) <==> Says(invs[i], fact) { MeaningSays(invs[i], fact); }
    if i :| 0 <= i < |ms| && Means(ms[i], fact) { assert Says(invs[i], fact); }
    if i :| 0 <= i < |invs| && Says(invs[i], fact) { assert Means(ms[i], fact); }
  }

  // ------------------------------------------------------------------------------------------
  // The merge
  // ------------------------------------------------------------------------------------------

  type Table = map<Id, Blob>

  ghost predicate Keyed(table: Table) {
    forall id :: id in table ==> table[id].id == id
  }

  ghost function Summaries(table: Table): (r: Blobs) {
    map id | id in table :: SummaryOf(table[id])
  }

  /** A table built entry by entry keeps the last entry of each blob. */
  ghost function LastWins(blobs: seq<Blob>): (r: Blobs) {
    if blobs == [] then map[]
    else
      var last := blobs[|blobs| - 1];
      LastWins(blobs[..|blobs| - 1])[last.id := SummaryOf(last)]
  }

  lemma {:induction false} LastWinsIds(blobs: seq<Blob>, id: Id)
    ensures id in LastWins(blobs) <==> exists i :: 0 <= i < |blobs| && blobs[i].id == id
  {
    if blobs != [] {
      var n := |blobs| - 1;
      LastWinsIds(blobs[..n], id);
      assert forall i :: 0 <= i < n ==> blobs[..n][i] == blobs[i];
    }
  }

  /** That loses nothing when there is one entry per blob. */
  lemma {:induction false} DistinctLoseNothing(blobs: seq<Blob>)
    requires DistinctIds(blobs)
    ensures LastWins(blobs) == BlobsOf(blobs)
  {
    if blobs != [] {
      var n := |blobs| - 1;
      DistinctLoseNothing(blobs[..n]);
      LastWinsIds(blobs[..n], blobs[n].id);
    }
  }

  /** One summary says no more than another. */
  predicate Within(a: Summary, b: Summary) {
    (a.hasData ==> b.hasData) && a.locations <= b.locations
  }

  lemma {:induction false} SameIds(blobs: seq<Blob>, id: Id)
    ensures id in LastWins(blobs) <==> id in BlobsOf(blobs)
    ensures id in BlobsOf(blobs) ==> Within(LastWins(blobs)[id], BlobsOf(blobs)[id])
  {
    if blobs != [] {
      SameIds(blobs[..|blobs| - 1], id);
    }
  }

  lemma {:induction false} EntryIsWithin(blobs: seq<Blob>, i: nat)
    requires i < |blobs|
    ensures blobs[i].id in BlobsOf(blobs) && Within(SummaryOf(blobs[i]), BlobsOf(blobs)[blobs[i].id])
  {
    var n := |blobs| - 1;
    if i < n {
      EntryIsWithin(blobs[..n], i);
      assert blobs[..n][i] == blobs[i];
    }
  }

  lemma {:induction false} LeastOfEntries(blobs: seq<Blob>, id: Id, s: Summary)
    requires id in BlobsOf(blobs) && forall i :: 0 <= i < |blobs| && blobs[i].id == id ==> Within(SummaryOf(blobs[i]), s)
    ensures Within(BlobsOf(blobs)[id], s)
  {
    var n := |blobs| - 1;
    assert Within(SummaryOf(blobs[n]), s) || blobs[n].id != id;
    if id in BlobsOf(blobs[..n]) {
      assert forall i :: 0 <= i < n ==> blobs[..n][i] == blobs[i];
      LeastOfEntries(blobs[..n], id, s);
    }
  }

  /** What an entry says is still said by the last one for its blob, together with what is new. */
  ghost predicate IsKept(known: seq<Blob>, newer: Blobs, i: nat)
    requires i < |known|
  {
    var merged := JoinBlobs(LastWins(known), newer);
    known[i].id in merged && Within(SummaryOf(known[i]), merged[known[i].id])
  }

  ghost predicate LosesNothing(known: seq<Blob>, newer: Blobs) {
    forall i :: 0 <= i < |known| ==> IsKept(known, newer, i)
  }

  lemma KeptMeansJoined(known: seq<Blob>, newer: Blobs, id: Id)
    requires LosesNothing(known, newer) && id in BlobsOf(known)
    ensures id in LastWins(known) && JoinBlobs(LastWins(known), newer)[id] == JoinBlobs(BlobsOf(known), newer)[id]
  {
    SameIds(known, id);
    var merged := JoinBlobs(LastWins(known), newer)[id];
    forall i | 0 <= i < |known| && known[i].id == id
      ensures Within(SummaryOf(known[i]), merged)
    {
      assert IsKept(known, newer, i);
    }
    LeastOfEntries(known, id, merged);
  }

  /** One merge is a join exactly when no entry of what is known is lost behind a later one. */
  lemma MergeIsJoinIff(known: seq<Blob>, newer: Blobs)
    ensures JoinBlobs(LastWins(known), newer) == JoinBlobs(BlobsOf(known), newer) <==> LosesNothing(known, newer)
  {
    var merged, joined := JoinBlobs(LastWins(known), newer), JoinBlobs(BlobsOf(known), newer);
    if LosesNothing(known, newer) {
      forall id
        ensures id in merged <==> id in joined
        ensures id in merged && id in joined ==> merged[id] == joined[id]
      {
        SameIds(known, id);
        if id in BlobsOf(known) { KeptMeansJoined(known, newer, id); }
      }
      assert merged == joined;
    }
    if merged == joined {
      forall i | 0 <= i < |known|
        ensures IsKept(known, newer, i)
      {
        EntryIsWithin(known, i);
      }
    }
  }

  /** Two entries for one blob, the second saying less: whatever only the first says is lost, unless the newcomer says it too. */
  lemma DoubledEntryIsLost(first: Blob, second: Blob, newer: Blobs)
    requires first.id == second.id && first.id !in newer && !Within(SummaryOf(first), SummaryOf(second))
    ensures JoinBlobs(LastWins([first, second]), newer) != JoinBlobs(BlobsOf([first, second]), newer)
  {
    var known := [first, second];
    assert known[..1] == [first] && [first][..0] == [];
    assert LastWins(known)[first.id] == SummaryOf(second);
    assert !IsKept(known, newer, 0);
    MergeIsJoinIff(known, newer);
  }

  method TableOf(blobs: seq<Blob>) returns (table: Table)
    ensures Keyed(table) && Summaries(table) == LastWins(blobs)
  {
    table := map[];
    for i := 0 to |blobs|
      invariant Keyed(table) && Summaries(table) == LastWins(blobs[..i])
    {
      assert blobs[..i + 1][..i] == blobs[..i];
      ghost var before := table;
      table := table[blobs[i].id := blobs[i]];
      assert Summaries(table) == Summaries(before)[blobs[i].id := SummaryOf(blobs[i])];
    }
    assert blobs[..|blobs|] == blobs;
  }

  /** The locations of `extra` that are not there yet are appended. */
  method AddLocations(locations: seq<string>, extra: seq<string>) returns (all: seq<string>)
    ensures Elements(all) == Elements(locations) + Elements(extra)
    ensures locations <= all
  {
    all := locations;
    var seen := Elements(locations);
    for i := 0 to |extra|
      invariant locations <= all && seen == Elements(all)
      invariant Elements(all) == Elements(locations) + Elements(extra[..i])
    {
      assert extra[..i + 1] == extra[..i] + [extra[i]];
      if extra[i] !in seen {
        seen := seen + {extra[i]};
        all := all + [extra[i]];
      }
    }
    assert extra[..|extra|] == extra;
  }

  lemma AddIsJoin(a: Blobs, b: Blobs, id: Id, s: Summary)
    ensures Add(JoinBlobs(a, b), id, s) == JoinBlobs(a, Add(b, id, s))
  {
    if id in a && id in b { BothAssociative(a[id], b[id], s); }
    assert Add(JoinBlobs(a, b), id, s) == JoinBlobs(a, Add(b, id, s));
  }

  method AddBlobs(table: Table, blobs: seq<Blob>) returns (table': Table)
    requires Keyed(table)
    ensures Keyed(table') && Summaries(table') == JoinBlobs(Summaries(table), BlobsOf(blobs))
  {
    table' := table;
    ghost var start := Summaries(table);
    assert JoinBlobs(start, map[]) == start;
    for i := 0 to |blobs|
      invariant Keyed(table') && Summaries(table') == JoinBlobs(start, BlobsOf(blobs[..i]))
    {
      assert blobs[..i + 1][..i] == blobs[..i];
      var b := blobs[i];
      ghost var before := table';
      AddIsJoin(start, BlobsOf(blobs[..i]), b.id, SummaryOf(b));
      if b.id in table' {
        var locations := AddLocations(table'[b.id].locations, b.locations);
        table' := table'[b.id := Blob(b.id, table'[b.id].hasData || b.hasData, locations)];
      } else {
        table' := table'[b.id := b];
      }
      assert Summaries(table') == Add(Summaries(before), b.id, SummaryOf(b));
    }
    assert blobs[..|blobs|] == blobs;
  }

  /** The values of all keys but these have been listed. */
  ghost predicate Collected(table: Table, blobs: seq<Blob>, todo: set<Id>) {
    && todo <= table.Keys && DistinctIds(blobs)
    && (forall i :: 0 <= i < |blobs| ==> blobs[i].id !in todo)
    && (forall id :: id in BlobsOf(blobs) <==> id in table && id !in todo)
    && (forall id :: id in BlobsOf(blobs) ==> BlobsOf(blobs)[id] == SummaryOf(table[id]))
  }

  lemma CollectOne(table: Table, blobs: seq<Blob>, todo: set<Id>, id: Id)
    requires Keyed(table) && Collected(table, blobs, todo) && id in todo
    ensures Collected(table, blobs + [table[id]], todo - {id})
  {
    assert (blobs + [table[id]])[..|blobs|] == blobs;
  }

  /** The values of a table, in any order. */
  method ValuesOf(table: Table) returns (blobs: seq<Blob>)
    requires Keyed(table)
    ensures DistinctIds(blobs) && BlobsOf(blobs) == Summaries(table)
  {
    blobs := [];
    var todo := table.Keys;
    while todo != {}
      invariant Collected(table, blobs, todo)
      decreases |todo|
    {
      var id :| id in todo;
      CollectOne(table, blobs, todo, id);
      todo := todo - {id};
      blobs := blobs + [table[id]];
    }
  }

  method UnionOf(a: seq<Id>, b: seq<Id>) returns (all: seq<Id>)
    ensures Elements(all) == Elements(a) + Elements(b)
  {
    all := [];
    var todo := Elements(a) + Elements(b);
    while todo != {}
      invariant Elements(all) + todo == Elements(a) + Elements(b)
      decreases |todo|
    {
      var x :| x in todo;
      todo := todo - {x};
      assert Elements(all + [x]) == Elements(all) + {x};
      all := all + [x];
    }
  }

  /** What a merge keeps of the inventory it starts from. */
  ghost function Kept(inv: DagInventory): (m: Meaning) {
    Meaning(Elements(inv.programs), Elements(inv.executions), LastWins(inv.blobs))
  }

  lemma DistinctIsKept(inv: DagInventory)
    requires DistinctIds(inv.blobs)
    ensures Kept(inv) == MeaningOf(inv)
  {
    DistinctLoseNothing(inv.blobs);
  }

  lemma JoinSnoc(ms: seq<Meaning>, m: Meaning)
    requires ms != []
    ensures JoinAll(ms + [m]) == Join(JoinAll(ms), m)
  {
    assert (ms + [m])[..|ms|] == ms;
  }

  lemma OneMoreJoined(first: Meaning, invs: seq<DagInventory>, i: nat)
    requires 1 <= i < |invs|
    ensures JoinAll([first] + Meanings(invs[1..i + 1])) == Join(JoinAll([first] + Meanings(invs[1..i])), MeaningOf(invs[i]))
  {
    JoinSnoc([first] + Meanings(invs[1..i]), MeaningOf(invs[i]));
    assert [first] + Meanings(invs[1..i + 1]) == [first] + Meanings(invs[1..i]) + [MeaningOf(invs[i])];
  }

  lemma {:induction false} JoinFirst(first: Meaning, ms: seq<Meaning>)
    requires ms != []
    ensures JoinAll([first] + ms) == Join(first, JoinAll(ms))
  {
    var n := |ms| - 1;
    var all := [first] + ms;
    assert all[..|all| - 1] == [first] + ms[..n] && all[|all| - 1] == ms[n];
    if n == 0 {
      assert JoinAll([first] + ms[..n]) == first;
    } else {
      JoinFirst(first, ms[..n]);
      JoinIsSemilattice(first, JoinAll(ms[..n]), ms[n]);
    }
  }

  /** Whether a sequence of merges is a join depends on the first inventory, and on what the others say together. */
  lemma AllIsJoinIff(invs: seq<DagInventory>)
    requires |invs| > 1
    ensures JoinAll([Kept(invs[0])] + Meanings(invs[1..])) == JoinAll(Meanings(invs))
            <==> LosesNothing(invs[0].blobs, JoinAll(Meanings(invs[1..])).blobs)
  {
    var rest := Meanings(invs[1..]);
    JoinFirst(Kept(invs[0]), rest);
    JoinFirst(MeaningOf(invs[0]), rest);
    assert Meanings(invs) == [MeaningOf(invs[0])] + rest;
    MergeIsJoinIff(invs[0].blobs, JoinAll(rest).blobs);
  }

  lemma DistinctKeepsAll(invs: seq<DagInventory>)
    requires |invs| > 1 && DistinctIds(invs[0].blobs)
    ensures JoinAll([Kept(invs[0])] + Meanings(invs[1..])) == JoinAll(Meanings(invs))
  {
    DistinctIsKept(invs[0]);
    assert Meanings(invs) == [MeaningOf(invs[0])] + Meanings(invs[1..]);
  }

  class SyncState {
    var lastInventory: Option<DagInventory>

    constructor ()
      ensures lastInventory == None
    {
      lastInventory := None;
    }

    /** The first inventory is kept as it is; every later one is joined to what is known. */
    method MergeInventory(inv: DagInventory)
      modifies this
      ensures lastInventory.Some?
      ensures old(lastInventory).None? ==> lastInventory.value == inv
      ensures old(lastInventory).Some? ==>
                && DistinctIds(lastInventory.value.blobs)
                && MeaningOf(lastInventory.value) == Join(Kept(old(lastInventory).value), MeaningOf(inv))
      ensures old(lastInventory).Some? ==>
                (MeaningOf(lastInventory.value) == Join(MeaningOf(old(lastInventory).value), MeaningOf(inv))
                 <==> LosesNothing(old(lastInventory).value.blobs, BlobsOf(inv.blobs)))
      ensures old(lastInventory).Some? && DistinctIds(old(lastInventory).value.blobs) ==>
                MeaningOf(lastInventory.value) == Join(MeaningOf(old(lastInventory).value), MeaningOf(inv))
    {
      if lastInventory.None? {
        lastInventory := Some(inv);
        return;
      }
      var known := lastInventory.value;
      var programs := UnionOf(known.programs, inv.programs);
      var executions := UnionOf(known.executions, inv.executions);
      var table := TableOf(known.blobs);
      table := AddBlobs(table, inv.blobs);
      var blobs := ValuesOf(table);
      MergeIsJoinIff(known.blobs, BlobsOf(inv.blobs));
      if DistinctIds(known.blobs) { DistinctIsKept(known); }
      lastInventory := Some(DagInventory(programs, executions, blobs));
    }

    /** Any sequence of inventories: what is known is their join exactly when the first merge loses nothing for good. */
    method MergeAll(invs: seq<DagInventory>)
      requires lastInventory == None && invs != []
      modifies this
      ensures lastInventory.Some?
      ensures MeaningOf(lastInventory.value) == JoinAll(Meanings(invs))
              <==> |invs| == 1 || LosesNothing(invs[0].blobs, JoinAll(Meanings(invs[1..])).blobs)
      ensures DistinctIds(invs[0].blobs) ==> MeaningOf(lastInventory.value) == JoinAll(Meanings(invs))
    {
      MergeInventory(invs[0]);
      for i := 1 to |invs|
        invariant lastInventory.Some?
        invariant i == 1 ==> lastInventory.value == invs[0]
        invariant i > 1 ==> DistinctIds(lastInventory.value.blobs)
        invariant i > 1 ==> MeaningOf(lastInventory.value) == JoinAll([Kept(invs[0])] + Meanings(invs[1..i]))
      {
        MergeInventory(invs[i]);
        OneMoreJoined(Kept(invs[0]), invs, i);
      }
      if |invs| > 1 {
        assert invs[1..|invs|] == invs[1..];
        AllIsJoinIff(invs);
        if DistinctIds(invs[0].blobs) { DistinctKeepsAll(invs); }
      }
    }
  }
}
