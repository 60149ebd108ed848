/**
  The handlers of `Replication` as the node runs them (src/consensus/core/network_handlers.rs):
  over database trees shared by all programs, with a loop that applies what it can.  Each handler
  is proved to do to the record of its program what the functions of `Replication` say, and
  nothing to any other program.
 */
module ReplicaEngine {
  import opened Wrappers
  import opened Crypto
  import opened SparseMerkle
  import opened StateStorage
  import opened Committee
  import opened HeightKeys
  import opened Replication

  /** The rules a node follows: sparse Merkle roots and quorum certificates. */
  ghost function NodeRules(h: Bytes -> KeyHash): (rules: Rules) {
    Rules((s: State) => StateRoot(h, s), (a: AggregatedReceipt, c: CommitteeCertificate) => Certifies(a, c))
  }

  lemma NodeRulesBind(h: Bytes -> KeyHash, universe: set<Bytes>)
    requires CollisionFree(h, universe)
    ensures RootBinds(NodeRules(h), universe)
  {
    var rules := NodeRules(h);
    forall s: State, t: State | s.Keys <= universe && t.Keys <= universe && rules.root(s) == rules.root(t)
      ensures s == t
    {
      StateRootBinding(h, s, t);
    }
  }

  lemma CollisionFreeWithin(h: Bytes -> KeyHash, universe: set<Bytes>, keys: set<Bytes>)
    requires CollisionFree(h, universe) && keys <= universe
    ensures CollisionFree(h, keys)
  {
  }

  /** What a node's database holds. */
  datatype Database = Database(
    manifests: map<ProgramId, ProgramManifest>,
    commits: map<ProgramId, map<nat, StateCommitment>>,
    finalized: map<ProgramId, map<nat, Bundle>>,
    state: ProgramId -> State)

  /** The record of one program. */
  ghost function Record(db: Database, p: ProgramId): (r: Replica) {
    Replica(if p in db.manifests then Some(db.manifests[p]) else None,
            Of(db.commits, p), Of(db.finalized, p), db.state(p))
  }

  /** Entries are filed under the heights they carry. */
  ghost predicate CommitsFiled(commits: map<nat, StateCommitment>) {
    forall k :: k in commits ==> commits[k].height == k
  }

  ghost predicate RecordSound(r: Replica, universe: set<Bytes>) {
    CommitsFiled(r.commitments) && Filed(r.finalized) && KeysWithin(r, universe)
  }

  ghost predicate Sound(db: Database, universe: set<Bytes>) {
    forall p: ProgramId :: RecordSound(Record(db, p), universe)
  }

  ghost predicate OthersKept(before: Database, after: Database, p: ProgramId) {
    forall q: ProgramId :: q != p ==> Record(after, q) == Record(before, q)
  }

  lemma StillSound(before: Database, after: Database, universe: set<Bytes>, p: ProgramId)
    requires Sound(before, universe) && OthersKept(before, after, p) && RecordSound(Record(after, p), universe)
    ensures Sound(after, universe)
  {
  }

  lemma OthersKeptTwice(a: Database, b: Database, c: Database, p: ProgramId)
    requires OthersKept(a, b, p) && OthersKept(b, c, p)
    ensures OthersKept(a, c, p)
  {
  }

  lemma CommitmentStored(db: Database, universe: set<Bytes>, p: ProgramId, c: StateCommitment)
    requires Sound(db, universe)
    ensures var db' := db.(commits := Put(db.commits, p, c.height, c));
            && Sound(db', universe) && OthersKept(db, db', p)
            && Record(db', p) == Record(db, p).(commitments := Record(db, p).commitments[c.height := c])
  {
    var db' := db.(commits := Put(db.commits, p, c.height, c));
    assert RecordSound(Record(db, p), universe);
    StillSound(db, db', universe, p);
  }

  lemma BundleStored(db: Database, universe: set<Bytes>, b: Bundle)
    requires Sound(db, universe) && WriteKeysWithin(b.writes, universe)
    ensures var p, k := Receipt(b).programId, Receipt(b).height;
            var db' := db.(finalized := Put(db.finalized, p, k, b));
            && Sound(db', universe) && OthersKept(db, db', p)
            && Record(db', p) == Record(db, p).(finalized := Record(db, p).finalized[k := b])
  {
    var p, k := Receipt(b).programId, Receipt(b).height;
    var db' := db.(finalized := Put(db.finalized, p, k, b));
    assert RecordSound(Record(db, p), universe);
    StillSound(db, db', universe, p);
  }

  lemma StateStored(db: Database, universe: set<Bytes>, p: ProgramId, state: ProgramId -> State)
    requires Sound(db, universe)
    requires state(p).Keys <= universe && forall q: ProgramId :: q != p ==> state(q) == db.state(q)
    ensures var db' := db.(state := state);
            && Sound(db', universe) && OthersKept(db, db', p)
            && Record(db', p) == Record(db, p).(state := state(p))
  {
    var db' := db.(state := state);
    assert RecordSound(Record(db, p), universe);
    StillSound(db, db', universe, p);
  }

  lemma ManifestStored(db: Database, universe: set<Bytes>, m: ProgramManifest)
    requires Sound(db, universe)
    ensures var db' := db.(manifests := db.manifests[m.programId := m]);
            && Sound(db', universe) && OthersKept(db, db', m.programId)
            && Record(db', m.programId) == Record(db, m.programId).(manifest := Some(m))
  {
    var db' := db.(manifests := db.manifests[m.programId := m]);
    assert RecordSound(Record(db, m.programId), universe);
    StillSound(db, db', universe, m.programId);
  }

  ghost function States(tree: map<Bytes, Bytes>): (r: ProgramId -> State) {
    (p: ProgramId) => Scope(tree, p)
  }

  lemma TreeStored(db: Database, universe: set<Bytes>, p: ProgramId, before: map<Bytes, Bytes>, tree: map<Bytes, Bytes>)
    requires Sound(db, universe) && db.state == States(before)
    requires OthersUnchanged(before, tree, p) && Scope(tree, p).Keys <= universe
    ensures var db' := db.(state := States(tree));
            && Sound(db', universe) && OthersKept(db, db', p)
            && Record(db', p) == Record(db, p).(state := Scope(tree, p))
  {
    forall q: ProgramId | q != p
      ensures States(tree)(q) == db.state(q)
    {
      assert Scope(tree, q) == Scope(before, q);
    }
    StateStored(db, universe, p, States(tree));
  }

  lemma ScopeWithin(db: Database, universe: set<Bytes>, p: ProgramId, tree: map<Bytes, Bytes>)
    requires Sound(db, universe) && db.state == States(tree)
    ensures Record(db, p).state == Scope(tree, p) && Scope(tree, p).Keys <= universe
  {
  }

  /** Whether a bundle starts from the current state, and its writes lead to the root it claims. */
  method CheckRoots(store: StateStore, p: ProgramId, b: Bundle, ghost universe: set<Bytes>) returns (ok: bool)
    requires CollisionFree(store.h, universe)
    requires Scope(store.tree, p).Keys <= universe && WriteKeysWithin(b.writes, universe)
    ensures var state := Scope(store.tree, p);
            ok <==> && Receipt(b).stateRootIn == StateRoot(store.h, state)
                    && Receipt(b).writeDigest == DigestOf(b.writes)
                    && Receipt(b).stateRootOut == StateRoot(store.h, ApplyWrites(state, b.writes))
  {
    ghost var state := Scope(store.tree, p);
    CollisionFreeWithin(store.h, universe, state.Keys);
    var currentRoot := store.SparseRootScoped(p);
    if Receipt(b).stateRootIn != currentRoot || DigestOf(b.writes) != Receipt(b).writeDigest {
      return false;
    }
    ApplyWritesWithin(state, b.writes, universe);
    CollisionFreeWithin(store.h, universe, ApplyWrites(state, b.writes).Keys);
    var predicted := ComputeRootAfterWrites(store, p, b.writes);
    ok := predicted == Receipt(b).stateRootOut;
  }

  ghost predicate Concerns(msg: Message, p: ProgramId) {
    match msg
    case FinalizedReceipt(b) => Receipt(b).programId == p
    case ManifestReceived(m) => m.programId == p
    case _ => true
  }

  class DagEngine {
    const store: StateStore
    const commits: HeightTree<StateCommitment>
    const finalized: HeightTree<Bundle>
    ghost const universe: set<Bytes>    // all state keys that ever occur
    var manifests: map<ProgramId, ProgramManifest>
    ghost var db: Database              // what the trees hold, program by program

    ghost predicate Valid()
      reads this, store, commits, finalized
    {
      && CollisionFree(store.h, universe)
      && commits.Valid() && finalized.Valid() && commits as object != finalized as object
      && db == Database(manifests, commits.entries, finalized.entries, States(store.tree))
      && Sound(db, universe)
    }

    ghost function View(p: ProgramId): (r: Replica)
      reads this
    {
      Record(db, p)
    }

    constructor (store: StateStore, ghost universe: set<Bytes>)
      requires CollisionFree(store.h, universe)
      requires forall p: ProgramId :: Scope(store.tree, p).Keys <= universe
      ensures this.store == store && this.universe == universe && Valid()
      ensures forall p: ProgramId :: View(p) == Replica(None, map[], map[], Scope(store.tree, p))
    {
      this.store, this.universe := store, universe;
      manifests := map[];
      commits := new HeightTree();
      finalized := new HeightTree();
      db := Database(map[], map[], map[], States(store.tree));
    }

    method StoreStateCommitment(p: ProgramId, c: StateCommitment)
      requires Valid() && c.height <= U64_MAX
      modifies this`db, commits
      ensures Valid() && OthersKept(old(db), db, p)
      ensures View(p) == old(View(p)).(commitments := old(View(p)).commitments[c.height := c])
    {
      CommitmentStored(db, universe, p, c);
      commits.Insert(p, c.height, c);
      db := db.(commits := commits.entries);
    }

    method StoreFinalizedTransition(b: Bundle)
      requires Valid() && WriteKeysWithin(b.writes, universe)
      modifies this`db, finalized
      ensures Valid() && OthersKept(old(db), db, Receipt(b).programId)
      ensures var p := Receipt(b).programId;
              View(p) == old(View(p)).(finalized := old(View(p)).finalized[Receipt(b).height := b])
    {
      BundleStored(db, universe, b);
      finalized.Insert(Receipt(b).programId, Receipt(b).height, b);
      db := db.(finalized := finalized.entries);
    }

    method StoreManifest(m: ProgramManifest)
      requires Valid()
      modifies this
      ensures Valid() && OthersKept(old(db), db, m.programId)
      ensures View(m.programId) == old(View(m.programId)).(manifest := Some(m))
    {
      ManifestStored(db, universe, m);
      manifests := manifests[m.programId := m];
      db := db.(manifests := manifests);
    }

    method ApplyToStore(p: ProgramId, writes: seq<StateWrite>)
      requires Valid() && WriteKeysWithin(writes, universe)
      modifies this`db, store
      ensures Valid() && OthersKept(old(db), db, p)
      ensures View(p) == old(View(p)).(state := ApplyWrites(old(View(p)).state, writes))
    {
      ghost var before := db;
      ghost var tree := store.tree;
      ScopeWithin(before, universe, p, tree);
      ApplyWritesWithin(Scope(tree, p), writes, universe);
      ApplyStateWrites(store, p, writes);
      TreeStored(before, universe, p, tree, store.tree);
      db := db.(state := States(store.tree));
    }

    /** The height the next transition must have. */
    method NextHeight(p: ProgramId) returns (expected: nat)
      requires Valid()
      ensures expected == ExpectedHeight(View(p))
    {
      var latest := commits.Last(p);
      assert RecordSound(View(p), universe);
      expected := if latest.Some? then latest.value.height + 1 else 1;
    }

    method LoadFinalizedTransition(p: ProgramId, height: nat) returns (b: Option<Bundle>)
      requires Valid()
      ensures b == if height in View(p).finalized then Some(View(p).finalized[height]) else None
      ensures b.Some? ==> WriteKeysWithin(b.value.writes, universe) && Receipt(b.value).height == height
    {
      assert RecordSound(View(p), universe);
      if height > U64_MAX {
        return None;
      }
      b := finalized.Get(p, height);
    }

    /** Whether a filed bundle applies to the current state. */
    method CheckBundle(p: ProgramId, committee: CommitteeCertificate, b: Bundle) returns (ok: bool)
      requires Valid() && WriteKeysWithin(b.writes, universe)
      ensures ok <==> Applies(NodeRules(store.h), committee, View(p).state, b)
    {
      if b.committee != committee {
        return false;
      }
      var verdict := VerifyAggregatedReceipt(b.aggregated, committee);
      if verdict != Accepted {
        return false;
      }
      ScopeWithin(db, universe, p, store.tree);
      ok := CheckRoots(store, p, b, universe);
    }

    /** The effects of one pass of the apply loop. */
    method ApplyBundle(p: ProgramId, b: Bundle)
      requires Valid() && WriteKeysWithin(b.writes, universe)
      requires Applies(NodeRules(store.h), b.committee, View(p).state, b)
      modifies this`db, commits, store
      ensures Valid() && OthersKept(old(db), db, p)
      ensures View(p) == old(View(p)).(state := ApplyWrites(old(View(p)).state, b.writes),
                                       commitments := old(View(p)).commitments[Receipt(b).height := CommitmentFor(b)])
    {
      ghost var before := db;
      ApplyToStore(p, b.writes);
      ghost var applied := db;
      assert RecordSound(View(p), universe);
      CollisionFreeWithin(store.h, universe, Scope(store.tree, p).Keys);
      var appliedRoot := store.SparseRootScoped(p);
      StoreStateCommitment(p, StateCommitment(Receipt(b).height, appliedRoot, Some(Receipt(b).stateRootIn), Some(Receipt(b).writeDigest)));
      OthersKeptTwice(before, applied, db, p);
    }

    /** The bundle to apply next, if it is there and applies. */
    method NextBundle(p: ProgramId) returns (next: Option<Bundle>)
      requires Valid()
      ensures next.Some? <==> CanAdvance(NodeRules(store.h), View(p))
      ensures next.Some? ==> next.value == View(p).finalized[ExpectedHeight(View(p))]
                             && WriteKeysWithin(next.value.writes, universe)
    {
      if p !in manifests || manifests[p].committee.None? {
        return None;
      }
      var expected := NextHeight(p);
      next := LoadFinalizedTransition(p, expected);
      if next.Some? {
        var ok := CheckBundle(p, manifests[p].committee.value, next.value);
        next := if ok then next else None;
      }
    }

    /** One pass of the apply loop. */
    method ApplyNext(p: ProgramId) returns (advanced: bool)
      requires Valid()
      modifies this`db, commits, store
      ensures Valid() && OthersKept(old(db), db, p)
      ensures advanced == old(CanAdvance(NodeRules(store.h), View(p)))
      ensures View(p) == if advanced then old(Advance(NodeRules(store.h), View(p))) else old(View(p))
    {
      var next := NextBundle(p);
      advanced := next.Some?;
      if advanced {
        ApplyBundle(p, next.value);
      }
    }

    /** `apply_available_finalized_transitions`: it terminates, with nothing left to apply. */
    method ApplyAvailableTransitions(p: ProgramId)
      requires Valid()
      modifies this`db, commits, store
      ensures Valid() && OthersKept(old(db), db, p)
      ensures old(Filed(View(p).finalized)) && View(p) == ApplyAvailable(NodeRules(store.h), old(View(p)))
      ensures !CanAdvance(NodeRules(store.h), View(p))
    {
      ghost var rules, start := NodeRules(store.h), db;
      assert RecordSound(View(p), universe);
      var advanced := true;
      while advanced
        invariant Valid() && OthersKept(start, db, p)
        invariant Filed(View(p).finalized) && ApplyAvailable(rules, View(p)) == ApplyAvailable(rules, old(View(p)))
        invariant !advanced ==> !CanAdvance(rules, View(p))
        decreases advanced, Ahead(View(p))
      {
        ghost var before := db;
        if CanAdvance(rules, View(p)) { AdvanceRaises(rules, View(p)); }
        advanced := ApplyNext(p);
        OthersKeptTwice(start, before, db, p);
      }
    }

    method HandleFinalizedReceipt(b: Bundle)
      requires Valid() && WriteKeysWithin(b.writes, universe)
      modifies this`db, commits, finalized, store
      ensures Valid() && OthersKept(old(db), db, Receipt(b).programId)
      ensures var p := Receipt(b).programId;
              old(Filed(View(p).finalized)) && View(p) == OnFinalized(NodeRules(store.h), old(View(p)), b)
    {
      var p := Receipt(b).programId;
      ghost var before := db;
      assert RecordSound(View(p), universe);
      if p !in manifests || manifests[p].committee.None? {
        StoreFinalizedTransition(b);
        return;
      }
      var committee := manifests[p].committee.value;
      if committee != b.committee {
        return;
      }
      var verdict := VerifyAggregatedReceipt(b.aggregated, committee);
      if verdict != Accepted {
        return;
      }
      StoreFinalizedTransition(b);
      ghost var filed := db;
      ApplyAvailableTransitions(p);
      OthersKeptTwice(before, filed, db, p);
    }

    /** `verify_initial_sync`, then the manifest is stored and whatever waited for it applied. */
    method HandleProgramManifest(m: ProgramManifest)
      requires Valid()
      modifies this, commits, store
      ensures Valid() && OthersKept(old(db), db, m.programId)
      ensures old(Filed(View(m.programId).finalized))
      ensures View(m.programId) == OnManifest(NodeRules(store.h), old(View(m.programId)), m)
    {
      var p := m.programId;
      ghost var before := db;
      assert RecordSound(View(p), universe);
      if p in manifests {
        var existing := manifests[p];
        if existing.initialStateRoot != m.initialStateRoot {
          return;
        }
        if existing.committee.Some? && existing.committee != m.committee {
          return;
        }
      }
      StoreManifest(m);
      ghost var stored := db;
      ApplyAvailableTransitions(p);
      OthersKeptTwice(before, stored, db, p);
    }

    method HandleProgramHead(p: ProgramId, height: nat)
      requires Valid()
      modifies this`db, commits, store
      ensures Valid() && OthersKept(old(db), db, p)
      ensures old(Filed(View(p).finalized))
      ensures View(p) == Handle(NodeRules(store.h), old(View(p)), ProgramHead(height))
    {
      assert RecordSound(View(p), universe);
      var expected := NextHeight(p);
      if height >= expected {
        ApplyAvailableTransitions(p);
      }
    }

    /** The size checks of a state response, entry by entry. */
    method CheckLimits(entries: seq<Pair>) returns (ok: bool)
      ensures ok <==> WithinLimits(entries)
    {
      if |entries| > MAX_STATE_ENTRIES {
        return false;
      }
      var total := 0;
      for i := 0 to |entries|
        invariant total == TotalSize(entries[..i]) <= MAX_TOTAL_STATE_SIZE
        invariant forall j :: 0 <= j < i ==> |entries[j].0| <= MAX_STATE_KEY_SIZE && |entries[j].1| <= MAX_STATE_VALUE_SIZE
      {
        assert entries[..i + 1][..i] == entries[..i];
        if |entries[i].0| > MAX_STATE_KEY_SIZE {
          return false;
        }
        total := total + |entries[i].0| + |entries[i].1|;
        if total > MAX_TOTAL_STATE_SIZE {
          TotalSizeGrows(entries, i + 1);
          return false;
        }
        if |entries[i].1| > MAX_STATE_VALUE_SIZE {
          return false;
        }
      }
      assert entries[..|entries|] == entries;
      ok := true;
    }

    /** The root a state response has to match. */
    method ExpectedRoot(p: ProgramId) returns (root: Option<Digest>)
      requires Valid()
      ensures root == TrustedRoot(View(p))
    {
      var latest := commits.Last(p);
      if latest.Some? {
        root := Some(latest.value.root);
      } else if p in manifests {
        root := Some(manifests[p].initialStateRoot);
      } else {
        root := None;
      }
    }

    method HandleStateResponse(p: ProgramId, root: Digest, entries: seq<Pair>)
      requires Valid() && KeysOf(entries) <= universe
      modifies this`db, store
      ensures Valid() && OthersKept(old(db), db, p)
      ensures View(p) == OnStateResponse(NodeRules(store.h), old(View(p)), root, entries)
    {
      var ok := CheckLimits(entries);
      if !ok {
        return;
      }
      var expected := ExpectedRoot(p);
      if expected != Some(root) {
        return;
      }
      CollisionFreeWithin(store.h, universe, KeysOf(entries));
      PairsRootIsStateRoot(store.h, entries);
      var computed := SparseMerkleRoot(store.h, entries);
      if computed == root {
        WriteEntries(p, entries);
      }
    }

    method WriteEntries(p: ProgramId, entries: seq<Pair>)
      requires Valid() && KeysOf(entries) <= universe
      modifies this`db, store
      ensures Valid() && OthersKept(old(db), db, p)
      ensures View(p) == old(View(p)).(state := old(View(p)).state + LastWrites(entries))
    {
      ghost var before, tree := db, store.tree;
      ScopeWithin(before, universe, p, tree);
      assert (Scope(tree, p) + LastWrites(entries)).Keys <= universe by { LastWritesKeys(entries); }
      SetEntries(store, p, entries);
      assert commits.Valid() && finalized.Valid();
      TreeStored(before, universe, p, tree, store.tree);
      db := db.(state := States(store.tree));
    }

    method Deliver(p: ProgramId, msg: Message)
      requires Valid() && Concerns(msg, p) && Expected(msg, universe)
      modifies this, commits, finalized, store
      ensures Valid() && OthersKept(old(db), db, p)
      ensures old(Filed(View(p).finalized)) && View(p) == Handle(NodeRules(store.h), old(View(p)), msg)
    {
      assert RecordSound(View(p), universe);
      match msg
      case FinalizedReceipt(b) => HandleFinalizedReceipt(b);
      case ManifestReceived(m) => HandleProgramManifest(m);
      case StateResponse(root, entries) => HandleStateResponse(p, root, entries);
      case ProgramHead(height) => HandleProgramHead(p, height);
    }

    /** Whatever arrives for a program, its record follows `Replication.Run` and stays safe. */
    method DeliverAll(p: ProgramId, msgs: seq<Message>) returns (ghost history: seq<Bundle>)
      requires Valid() && View(p) == Replica(None, map[], map[], View(p).state)
      requires forall i :: 0 <= i < |msgs| ==> Concerns(msgs[i], p) && Expected(msgs[i], universe)
      modifies this, commits, finalized, store
      ensures Valid() && OthersKept(old(db), db, p)
      ensures View(p) == Run(NodeRules(store.h), old(View(p)), msgs)
      ensures Safe(NodeRules(store.h), View(p), history)
    {
      ghost var start, rules, before := View(p), NodeRules(store.h), db;
      assert RecordSound(View(p), universe);
      for i := 0 to |msgs|
        invariant Valid() && OthersKept(before, db, p)
        invariant View(p) == Run(rules, start, msgs[..i])
      {
        assert msgs[..i + 1][..i] == msgs[..i];
        ghost var between := db;
        Deliver(p, msgs[i]);
        OthersKeptTwice(before, between, db, p);
      }
      assert msgs[..|msgs|] == msgs;
      NodeRulesBind(store.h, universe);
      history := LogSafety(rules, start.state, msgs, universe);
    }
  }

  lemma {:induction false} TotalSizeGrows(entries: seq<Pair>, n: nat)
    requires n <= |entries|
    ensures TotalSize(entries[..n]) <= TotalSize(entries)
  {
    if n < |entries| {
      var front := entries[..|entries| - 1];
      assert front[..n] == entries[..n];
      TotalSizeGrows(front, n);
    } else {
      assert entries[..n] == entries;
    }
  }
}
