/**
  Applying finalised transitions (src/consensus/core/network_handlers.rs, the catalog of
  src/storage/program_catalog.rs), for one program on one node.

  A node stores finalised bundles by height, whether or not it could verify them yet, and applies
  them in height order as far as they reach.  This module states what the handlers do to the
  node's record of one program, as functions; `ReplicaEngine` has the handlers themselves.
 */
module Replication {
  import opened Wrappers
  import opened Crypto
  import opened SparseMerkle
  import opened StateStorage
  import opened Committee
  import opened HeightKeys

  datatype ProgramManifest = ProgramManifest(
    programId: ProgramId,
    initialStateRoot: Digest,
    committee: Option<CommitteeCertificate>)

  datatype StateCommitment = StateCommitment(
    height: nat,
    root: Digest,
    parent: Option<Digest>,
    stateDelta: Option<WriteDigest>)

  datatype Replica = Replica(
    manifest: Option<ProgramManifest>,
    commitments: map<nat, StateCommitment>,
    finalized: map<nat, Bundle>,
    state: State)

  /** How a node hashes states and checks certificates; `ReplicaEngine.NodeRules` is the real one. */
  datatype Rules = Rules(
    root: State -> Digest,
    certified: (AggregatedReceipt, CommitteeCertificate) -> bool)

  /** Equal roots mean equal states, among states over the given keys. */
  ghost predicate RootBinds(rules: Rules, universe: set<Bytes>) {
    forall s: State, t: State ::
      s.Keys <= universe && t.Keys <= universe && rules.root(s) == rules.root(t) ==> s == t
  }

  datatype Message =
    | FinalizedReceipt(bundle: Bundle)
    | ManifestReceived(manifest: ProgramManifest)
    | StateResponse(root: Digest, entries: seq<Pair>)
    | ProgramHead(height: nat)

  const MAX_STATE_ENTRIES: nat := 10000
  const MAX_STATE_KEY_SIZE: nat := 1024
  const MAX_STATE_VALUE_SIZE: nat := 1024 * 1024
  const MAX_TOTAL_STATE_SIZE: nat := 100 * 1024 * 1024

  function Receipt(b: Bundle): (r: ExecutionReceipt) {
    b.aggregated.receipt
  }

  function StoredCommittee(r: Replica): (c: Option<CommitteeCertificate>) {
    if r.manifest.Some? then r.manifest.value.committee else None
  }

  ghost function ExpectedHeight(r: Replica): (e: nat) {
    Top(r.commitments.Keys) + 1
  }

  /** Bundles are filed under the height they carry. */
  ghost predicate Filed(finalized: map<nat, Bundle>) {
    forall k :: k in finalized ==> Receipt(finalized[k]).height == k
  }

  // ------------------------------------------------------------------------------------------
  // apply_available_finalized_transitions
  // ------------------------------------------------------------------------------------------

  /** A bundle that applies to a state: certified by the committee, and its roots and digest are right. */
  ghost predicate Applies(rules: Rules, c: CommitteeCertificate, state: State, b: Bundle) {
    && b.committee == c
    && rules.certified(b.aggregated, c)
    && Receipt(b).stateRootIn == rules.root(state)
    && Receipt(b).writeDigest == DigestOf(b.writes)
    && Receipt(b).stateRootOut == rules.root(ApplyWrites(state, b.writes))
  }

  ghost predicate CanAdvance(rules: Rules, r: Replica) {
    var e := ExpectedHeight(r);
    && StoredCommittee(r).Some?
    && e in r.finalized
    && Applies(rules, StoredCommittee(r).value, r.state, r.finalized[e])
  }

  function CommitmentOf(r: ExecutionReceipt): (c: StateCommitment) {
    StateCommitment(r.height, r.stateRootOut, Some(r.stateRootIn), Some(r.writeDigest))
  }

  function CommitmentFor(b: Bundle): (c: StateCommitment) {
    CommitmentOf(Receipt(b))
  }

  ghost function Advance(rules: Rules, r: Replica): (r': Replica)
    requires CanAdvance(rules, r)
  {
    var b := r.finalized[ExpectedHeight(r)];
    r.(state := ApplyWrites(r.state, b.writes), commitments := r.commitments[Receipt(b).height := CommitmentFor(b)])
  }

  ghost function From(finalized: map<nat, Bundle>, e: nat): (r: set<nat>) {
    set k | k in finalized && k >= e
  }

  lemma AheadShrinks(finalized: map<nat, Bundle>, e: nat)
    requires e in finalized
    ensures |From(finalized, e + 1)| < |From(finalized, e)|
  {
    assert From(finalized, e) == From(finalized, e + 1) + {e};
  }

  /** How many filed bundles are still ahead. */
  ghost function Ahead(r: Replica): (n: nat) {
    |From(r.finalized, ExpectedHeight(r))|
  }

  lemma AdvanceRaises(rules: Rules, r: Replica)
    requires CanAdvance(rules, r) && Filed(r.finalized)
    ensures ExpectedHeight(Advance(rules, r)) == ExpectedHeight(r) + 1
    ensures Ahead(Advance(rules, r)) < Ahead(r)
  {
    var e, r' := ExpectedHeight(r), Advance(rules, r);
    assert r'.commitments.Keys == r.commitments.Keys + {e};
    assert IsTop(r'.commitments.Keys, e) && IsTop(r'.commitments.Keys, Top(r'.commitments.Keys));
    AheadShrinks(r.finalized, e);
  }

  ghost function ApplyAvailable(rules: Rules, r: Replica): (r': Replica)
    requires Filed(r.finalized)
    decreases Ahead(r)
  {
    if CanAdvance(rules, r) then AdvanceRaises(rules, r); ApplyAvailable(rules, Advance(rules, r)) else r
  }

  // ------------------------------------------------------------------------------------------
  // The handlers
  // ------------------------------------------------------------------------------------------

  ghost function OnFinalized(rules: Rules, r: Replica, b: Bundle): (r': Replica)
    requires Filed(r.finalized)
  {
    var filed := r.(finalized := r.finalized[Receipt(b).height := b]);
    match StoredCommittee(r)
    case None => filed
    case Some(c) => if c == b.committee && rules.certified(b.aggregated, c) then ApplyAvailable(rules, filed) else r
  }

  /** `verify_initial_sync`: neither the initial root nor a known committee may change. */
  predicate Compatible(existing: Option<ProgramManifest>, m: ProgramManifest) {
    existing.Some? ==>
      && existing.value.initialStateRoot == m.initialStateRoot
      && (existing.value.committee.Some? ==> existing.value.committee == m.committee)
  }

  ghost function OnManifest(rules: Rules, r: Replica, m: ProgramManifest): (r': Replica)
    requires Filed(r.finalized)
  {
    if Compatible(r.manifest, m) then ApplyAvailable(rules, r.(manifest := Some(m))) else r
  }

  function TotalSize(entries: seq<Pair>): (n: nat) {
    if entries == [] then 0
    else
      var last := entries[|entries| - 1];
      TotalSize(entries[..|entries| - 1]) + |last.0| + |last.1|
  }

  ghost predicate WithinLimits(entries: seq<Pair>) {
    && |entries| <= MAX_STATE_ENTRIES
    && TotalSize(entries) <= MAX_TOTAL_STATE_SIZE
    && forall i :: 0 <= i < |entries| ==> |entries[i].0| <= MAX_STATE_KEY_SIZE && |entries[i].1| <= MAX_STATE_VALUE_SIZE
  }

  /** The root a state response has to match. */
  ghost function TrustedRoot(r: Replica): (root: Option<Digest>) {
    var top := Top(r.commitments.Keys);
    if r.commitments != map[] then Some(r.commitments[top].root)
    else if r.manifest.Some? then Some(r.manifest.value.initialStateRoot)
    else None
  }

  ghost function OnStateResponse(rules: Rules, r: Replica, root: Digest, entries: seq<Pair>): (r': Replica) {
    if WithinLimits(entries) && TrustedRoot(r) == Some(root) && rules.root(LastWrites(entries)) == root
    then r.(state := r.state + LastWrites(entries))
    else r
  }

  ghost function Handle(rules: Rules, r: Replica, msg: Message): (r': Replica)
    requires Filed(r.finalized)
  {
    match msg
    case FinalizedReceipt(b) => OnFinalized(rules, r, b)
    case ManifestReceived(m) => OnManifest(rules, r, m)
    case StateResponse(root, entries) => OnStateResponse(rules, r, root, entries)
    case ProgramHead(height) => if height >= ExpectedHeight(r) then ApplyAvailable(rules, r) else r
  }

  // ------------------------------------------------------------------------------------------
  // Log safety
  // ------------------------------------------------------------------------------------------

  /** What backs one commitment: a bundle of that height, certified by the committee. */
  ghost predicate Backs(rules: Rules, c: Option<CommitteeCertificate>, k: nat, commitment: StateCommitment, b: Bundle) {
    && Receipt(b).height == k
    && commitment == CommitmentFor(b)
    && c == Some(b.committee)
    && rules.certified(b.aggregated, b.committee)
    && Receipt(b).writeDigest == DigestOf(b.writes)
  }

  /** Each bundle starts from the root the previous one ended with. */
  ghost predicate Linked(history: seq<Bundle>) {
    forall i, j :: 0 <= i && j == i + 1 && j < |history| ==>
      Receipt(history[j]).stateRootIn == Receipt(history[i]).stateRootOut
  }

  /** `history` is what backs the log, one bundle per height. */
  ghost predicate Backing(rules: Rules, r: Replica, history: seq<Bundle>) {
    && (forall k :: k in r.commitments <==> 1 <= k <= |history|)
    && (forall k :: k in r.commitments ==> Backs(rules, StoredCommittee(r), k, r.commitments[k], history[k - 1]))
    && Linked(history)
  }

  ghost predicate Safe(rules: Rules, r: Replica, history: seq<Bundle>) {
    && Filed(r.finalized)
    && Backing(rules, r, history)
    && (history != [] ==> rules.root(r.state) == Receipt(history[|history| - 1]).stateRootOut)
  }

  lemma TopOfRange(heights: set<nat>, n: nat)
    requires forall k :: k in heights <==> 1 <= k <= n
    ensures Top(heights) == n
  {
    assert n > 0 ==> n in heights;
    assert heights != {} ==> 1 in heights || exists k :: k in heights;
  }

  lemma LinkOneMore(history: seq<Bundle>, b: Bundle)
    requires Linked(history)
    requires history != [] ==> Receipt(b).stateRootIn == Receipt(history[|history| - 1]).stateRootOut
    ensures Linked(history + [b])
  {
  }

  lemma AdvanceIsSafe(rules: Rules, r: Replica, history: seq<Bundle>)
    requires Safe(rules, r, history) && CanAdvance(rules, r)
    ensures Safe(rules, Advance(rules, r), history + [r.finalized[ExpectedHeight(r)]])
  {
    var b, r' := r.finalized[ExpectedHeight(r)], Advance(rules, r);
    TopOfRange(r.commitments.Keys, |history|);
    LinkOneMore(history, b);
    var longer := history + [b];
    forall k | k in r'.commitments
      ensures 1 <= k <= |longer| && Backs(rules, StoredCommittee(r'), k, r'.commitments[k], longer[k - 1])
    {
      if k in r.commitments { assert longer[k - 1] == history[k - 1]; }
    }
  }

  /** The bundle is filed at the node. */
  ghost predicate IsFiled(r: Replica, b: Bundle) {
    exists k :: k in r.finalized && r.finalized[k] == b
  }

  lemma {:induction false} ApplyAvailableIsSafe(rules: Rules, r: Replica, history: seq<Bundle>) returns (longer: seq<Bundle>)
    requires Safe(rules, r, history)
    ensures Safe(rules, ApplyAvailable(rules, r), longer) && history <= longer
    ensures forall i :: |history| <= i < |longer| ==> IsFiled(r, longer[i])
    ensures !CanAdvance(rules, ApplyAvailable(rules, r))
    ensures ApplyAvailable(rules, r).manifest == r.manifest && ApplyAvailable(rules, r).finalized == r.finalized
    decreases Ahead(r)
  {
    if CanAdvance(rules, r) {
      AdvanceIsSafe(rules, r, history);
      AdvanceRaises(rules, r);
      longer := ApplyAvailableIsSafe(rules, Advance(rules, r), history + [r.finalized[ExpectedHeight(r)]]);
      FiledBefore(rules, r, history, longer);
    } else {
      longer := history;
    }
  }

  lemma FiledBefore(rules: Rules, r: Replica, history: seq<Bundle>, longer: seq<Bundle>)
    requires CanAdvance(rules, r) && history + [r.finalized[ExpectedHeight(r)]] <= longer
    requires forall i :: |history| + 1 <= i < |longer| ==> IsFiled(Advance(rules, r), longer[i])
    ensures forall i :: |history| <= i < |longer| ==> IsFiled(r, longer[i])
  {
    forall i | |history| <= i < |longer|
      ensures IsFiled(r, longer[i])
    {
      if i == |history| {
        assert longer[i] == r.finalized[ExpectedHeight(r)];
      } else {
        assert IsFiled(Advance(rules, r), longer[i]);
      }
    }
  }

  /** Once there is a commitment, an accepted state response is the state the node already has. */
  lemma StateResponseChangesNothing(rules: Rules, r: Replica, history: seq<Bundle>, root: Digest, entries: seq<Pair>)
    requires Safe(rules, r, history) && history != []
    requires RootBinds(rules, r.state.Keys + KeysOf(entries))
    ensures OnStateResponse(rules, r, root, entries) == r
  {
    if TrustedRoot(r) == Some(root) && rules.root(LastWrites(entries)) == root {
      TopOfRange(r.commitments.Keys, |history|);
      assert Backs(rules, StoredCommittee(r), |history|, r.commitments[|history|], history[|history| - 1]);
      LastWritesKeys(entries);
      assert r.state == LastWrites(entries);
    }
  }

  /** The keys of a node's state and of the writes it has filed. */
  ghost predicate KeysWithin(r: Replica, universe: set<Bytes>) {
    && r.state.Keys <= universe
    && forall k :: k in r.finalized ==> WriteKeysWithin(r.finalized[k].writes, universe)
  }

  ghost predicate WriteKeysWithin(writes: seq<StateWrite>, universe: set<Bytes>) {
    forall i :: 0 <= i < |writes| ==> writes[i].key in universe
  }

  ghost predicate Expected(msg: Message, universe: set<Bytes>) {
    && (msg.StateResponse? ==> KeysOf(msg.entries) <= universe)
    && (msg.FinalizedReceipt? ==> WriteKeysWithin(msg.bundle.writes, universe))
  }

  lemma {:induction false} ApplyWritesWithin(state: State, writes: seq<StateWrite>, universe: set<Bytes>)
    requires state.Keys <= universe && WriteKeysWithin(writes, universe)
    ensures ApplyWrites(state, writes).Keys <= universe
  {
    if writes != [] {
      ApplyWritesWithin(state, writes[..|writes| - 1], universe);
    }
  }

  lemma {:induction false} ApplyAvailableWithin(rules: Rules, r: Replica, universe: set<Bytes>)
    requires Filed(r.finalized) && KeysWithin(r, universe)
    ensures KeysWithin(ApplyAvailable(rules, r), universe)
    decreases Ahead(r)
  {
    if CanAdvance(rules, r) {
      AdvanceRaises(rules, r);
      ApplyWritesWithin(r.state, r.finalized[ExpectedHeight(r)].writes, universe);
      ApplyAvailableWithin(rules, Advance(rules, r), universe);
    }
  }

  lemma FilingIsSafe(rules: Rules, r: Replica, history: seq<Bundle>, b: Bundle, universe: set<Bytes>)
    requires Safe(rules, r, history) && KeysWithin(r, universe) && WriteKeysWithin(b.writes, universe)
    ensures var filed := r.(finalized := r.finalized[Receipt(b).height := b]);
            && Safe(rules, filed, history) && KeysWithin(filed, universe)
            && forall x :: IsFiled(filed, x) ==> IsFiled(r, x) || x == b
  {
  }

  lemma OnFinalizedIsSafe(rules: Rules, r: Replica, history: seq<Bundle>, b: Bundle, universe: set<Bytes>)
      returns (longer: seq<Bundle>)
    requires Safe(rules, r, history) && KeysWithin(r, universe) && WriteKeysWithin(b.writes, universe)
    ensures Safe(rules, OnFinalized(rules, r, b), longer) && KeysWithin(OnFinalized(rules, r, b), universe)
    ensures history <= longer && forall i :: |history| <= i < |longer| ==> IsFiled(r, longer[i]) || longer[i] == b
  {
    var filed := r.(finalized := r.finalized[Receipt(b).height := b]);
    FilingIsSafe(rules, r, history, b, universe);
    if StoredCommittee(r) == Some(b.committee) && rules.certified(b.aggregated, b.committee) {
      longer := ApplyAvailableIsSafe(rules, filed, history);
      ApplyAvailableWithin(rules, filed, universe);
    } else {
      longer := history;
    }
  }

  lemma OnManifestIsSafe(rules: Rules, r: Replica, history: seq<Bundle>, m: ProgramManifest, universe: set<Bytes>)
      returns (longer: seq<Bundle>)
    requires Safe(rules, r, history) && KeysWithin(r, universe)
    ensures Safe(rules, OnManifest(rules, r, m), longer) && KeysWithin(OnManifest(rules, r, m), universe)
    ensures history <= longer && forall i :: |history| <= i < |longer| ==> IsFiled(r, longer[i])
  {
    if Compatible(r.manifest, m) {
      var known := r.(manifest := Some(m));
      assert Safe(rules, known, history) && KeysWithin(known, universe);
      longer := ApplyAvailableIsSafe(rules, known, history);
      ApplyAvailableWithin(rules, known, universe);
      assert forall b :: IsFiled(known, b) == IsFiled(r, b);
    } else {
      longer := history;
    }
  }

  /** Every handler keeps the log safe and only ever extends it, by bundles it has. */
  lemma HandleIsSafe(rules: Rules, r: Replica, history: seq<Bundle>, msg: Message, universe: set<Bytes>)
      returns (longer: seq<Bundle>)
    requires Safe(rules, r, history) && KeysWithin(r, universe)
    requires Expected(msg, universe) && RootBinds(rules, universe)
    ensures Safe(rules, Handle(rules, r, msg), longer) && history <= longer
    ensures KeysWithin(Handle(rules, r, msg), universe)
    ensures forall i :: |history| <= i < |longer| ==> IsFiled(r, longer[i]) || msg == FinalizedReceipt(longer[i])
  {
    longer := history;
    match msg
    case FinalizedReceipt(b) => longer := OnFinalizedIsSafe(rules, r, history, b, universe);
    case ManifestReceived(m) => longer := OnManifestIsSafe(rules, r, history, m, universe);
    case StateResponse(root, entries) =>
      LastWritesKeys(entries);
      if history != [] {
        StateResponseChangesNothing(rules, r, history, root, entries);
      }
    case ProgramHead(height) =>
      if height >= ExpectedHeight(r) {
        longer := ApplyAvailableIsSafe(rules, r, history);
        ApplyAvailableWithin(rules, r, universe);
      }
  }

  /** A node's record after a sequence of messages. */
  ghost function Run(rules: Rules, r: Replica, msgs: seq<Message>): (r': Replica)
    requires Filed(r.finalized)
    ensures Filed(r'.finalized)
  {
    if msgs == [] then r
    else
      var before := Run(rules, r, msgs[..|msgs| - 1]);
      HandleKeepsFiling(rules, before, msgs[|msgs| - 1]);
      Handle(rules, before, msgs[|msgs| - 1])
  }

  lemma {:induction false} ApplyAvailableKeepsFiling(rules: Rules, r: Replica)
    requires Filed(r.finalized)
    ensures ApplyAvailable(rules, r).finalized == r.finalized && ApplyAvailable(rules, r).manifest == r.manifest
    decreases Ahead(r)
  {
    if CanAdvance(rules, r) {
      AdvanceRaises(rules, r);
      ApplyAvailableKeepsFiling(rules, Advance(rules, r));
    }
  }

  lemma HandleKeepsFiling(rules: Rules, r: Replica, msg: Message)
    requires Filed(r.finalized)
    ensures Filed(Handle(rules, r, msg).finalized)
  {
    ApplyAvailableKeepsFiling(rules, r);
    match msg
    case FinalizedReceipt(b) =>
      ApplyAvailableKeepsFiling(rules, r.(finalized := r.finalized[Receipt(b).height := b]));
    case ManifestReceived(m) =>
      ApplyAvailableKeepsFiling(rules, r.(manifest := Some(m)));
    case _ =>
  }

  /** A handler files nothing but the bundle that arrived. */
  lemma HandleFiles(rules: Rules, r: Replica, msg: Message, b: Bundle)
    requires Filed(r.finalized) && IsFiled(Handle(rules, r, msg), b)
    ensures IsFiled(r, b) || msg == FinalizedReceipt(b)
  {
    ApplyAvailableKeepsFiling(rules, r);
    match msg
    case FinalizedReceipt(arrived) =>
      ApplyAvailableKeepsFiling(rules, r.(finalized := r.finalized[Receipt(arrived).height := arrived]));
    case ManifestReceived(m) =>
      ApplyAvailableKeepsFiling(rules, r.(manifest := Some(m)));
    case _ =>
  }

  lemma {:induction false} OnlyArrivedIsFiled(rules: Rules, start: State, msgs: seq<Message>, b: Bundle)
    requires IsFiled(Run(rules, Replica(None, map[], map[], start), msgs), b)
    ensures FinalizedReceipt(b) in msgs
  {
    if msgs != [] {
      var n := |msgs| - 1;
      var before := Run(rules, Replica(None, map[], map[], start), msgs[..n]);
      HandleFiles(rules, before, msgs[n], b);
      if IsFiled(before, b) { OnlyArrivedIsFiled(rules, start, msgs[..n], b); }
    }
  }

  /** Every bundle of the history has arrived. */
  ghost predicate AllArrived(history: seq<Bundle>, msgs: seq<Message>) {
    forall i :: 0 <= i < |history| ==> FinalizedReceipt(history[i]) in msgs
  }

  /**
    Log safety: whatever arrives, in whatever order, a node's commitments are exactly 1..n, each
    backed by a bundle that arrived and is certified by the stored committee, chained root to
    parent, and the store's root is the last one.
   */
  lemma {:induction false} LogSafety(rules: Rules, start: State, msgs: seq<Message>, universe: set<Bytes>)
      returns (history: seq<Bundle>)
    requires RootBinds(rules, universe) && start.Keys <= universe
    requires forall i :: 0 <= i < |msgs| ==> Expected(msgs[i], universe)
    ensures Safe(rules, Run(rules, Replica(None, map[], map[], start), msgs), history)
    ensures KeysWithin(Run(rules, Replica(None, map[], map[], start), msgs), universe)
    ensures AllArrived(history, msgs)
  {
    if msgs == [] {
      history := [];
    } else {
      var n := |msgs| - 1;
      var before := LogSafety(rules, start, msgs[..n], universe);
      var r := Run(rules, Replica(None, map[], map[], start), msgs[..n]);
      history := HandleIsSafe(rules, r, before, msgs[n], universe);
      forall i | 0 <= i < |history|
        ensures FinalizedReceipt(history[i]) in msgs
      {
        if i < |before| {
          assert history[i] == before[i];
        } else if IsFiled(r, history[i]) {
          OnlyArrivedIsFiled(rules, start, msgs[..n], history[i]);
        }
      }
    }
  }

  /** Each commitment carries its height, the digest of its writes, its root, and the root of the one before. */
  lemma LogIsChained(rules: Rules, r: Replica, history: seq<Bundle>, k: nat)
    requires Safe(rules, r, history) && k in r.commitments
    ensures var commitment := r.commitments[k];
            && commitment.height == k && commitment.stateDelta == Some(DigestOf(history[k - 1].writes))
            && commitment.root == Receipt(history[k - 1]).stateRootOut
            && (k - 1 in r.commitments ==> commitment.parent == Some(r.commitments[k - 1].root))
            && (k == |history| ==> commitment.root == rules.root(r.state))
  {
    assert Backs(rules, StoredCommittee(r), k, r.commitments[k], history[k - 1]);
    if k - 1 in r.commitments {
      assert Backs(rules, StoredCommittee(r), k - 1, r.commitments[k - 1], history[k - 2]);
      assert Receipt(history[k - 1]).stateRootIn == Receipt(history[k - 2]).stateRootOut;
    }
  }

  // ------------------------------------------------------------------------------------------
  // What the handlers take and what they refuse
  // ------------------------------------------------------------------------------------------

  /** A manifest, once known, keeps its initial root, and its committee once that is known. */
  ghost predicate SameProgram(before: Replica, after: Replica) {
    before.manifest.Some? ==>
      && after.manifest.Some?
      && after.manifest.value.initialStateRoot == before.manifest.value.initialStateRoot
      && (StoredCommittee(before).Some? ==> StoredCommittee(after) == StoredCommittee(before))
  }

  lemma HandleKeepsProgram(rules: Rules, r: Replica, msg: Message)
    requires Filed(r.finalized)
    ensures SameProgram(r, Handle(rules, r, msg))
  {
    ApplyAvailableKeepsFiling(rules, r);
    match msg
    case FinalizedReceipt(b) =>
      ApplyAvailableKeepsFiling(rules, r.(finalized := r.finalized[Receipt(b).height := b]));
    case ManifestReceived(m) =>
      ApplyAvailableKeepsFiling(rules, r.(manifest := Some(m)));
    case _ =>
  }

  /** Whatever arrives, the initial root and the committee of a program never change. */
  lemma {:induction false} ProgramIsFixed(rules: Rules, r: Replica, msgs: seq<Message>)
    requires Filed(r.finalized)
    ensures SameProgram(r, Run(rules, r, msgs))
  {
    if msgs != [] {
      var n := |msgs| - 1;
      ProgramIsFixed(rules, r, msgs[..n]);
      HandleKeepsProgram(rules, Run(rules, r, msgs[..n]), msgs[n]);
    }
  }

  ghost predicate IsCertified(rules: Rules, c: CommitteeCertificate, b: Bundle) {
    b.committee == c && rules.certified(b.aggregated, c)
  }

  /** With a known committee, a bundle it does not certify changes nothing. */
  lemma RefusedChangesNothing(rules: Rules, r: Replica, b: Bundle)
    requires Filed(r.finalized) && StoredCommittee(r).Some?
    ensures !IsCertified(rules, StoredCommittee(r).value, b) ==> Handle(rules, r, FinalizedReceipt(b)) == r
  {
  }

  lemma HandleFilesCertified(rules: Rules, r: Replica, msg: Message, b: Bundle)
    requires Filed(r.finalized) && StoredCommittee(r).Some? && IsFiled(Handle(rules, r, msg), b)
    ensures IsFiled(r, b) || IsCertified(rules, StoredCommittee(r).value, b)
  {
    HandleFiles(rules, r, msg, b);
    if msg == FinalizedReceipt(b) { RefusedChangesNothing(rules, r, b); }
  }

  /** From the moment a node knows the committee, it files only what that committee certifies. */
  lemma {:induction false} OnlyCertifiedIsFiled(rules: Rules, r: Replica, msgs: seq<Message>, b: Bundle)
    requires Filed(r.finalized) && StoredCommittee(r).Some? && IsFiled(Run(rules, r, msgs), b)
    ensures IsFiled(r, b) || IsCertified(rules, StoredCommittee(r).value, b)
  {
    if msgs != [] {
      var n := |msgs| - 1;
      var before := Run(rules, r, msgs[..n]);
      ProgramIsFixed(rules, r, msgs[..n]);
      HandleFilesCertified(rules, before, msgs[n], b);
      if IsFiled(before, b) { OnlyCertifiedIsFiled(rules, r, msgs[..n], b); }
    }
  }

  lemma {:induction false} NothingLeftToApply(rules: Rules, r: Replica)
    requires Filed(r.finalized)
    ensures !CanAdvance(rules, ApplyAvailable(rules, r))
    decreases Ahead(r)
  {
    if CanAdvance(rules, r) {
      AdvanceRaises(rules, r);
      NothingLeftToApply(rules, Advance(rules, r));
    }
  }

  /** A head at or above the next height leaves nothing that could be applied; a lower one changes nothing. */
  lemma HeadCatchesUp(rules: Rules, r: Replica, height: nat)
    requires Filed(r.finalized)
    ensures height >= ExpectedHeight(r) ==> !CanAdvance(rules, Handle(rules, r, ProgramHead(height)))
    ensures height < ExpectedHeight(r) ==> Handle(rules, r, ProgramHead(height)) == r
  {
    NothingLeftToApply(rules, r);
  }

  /** Entries that make up exactly the state the program starts from. */
  ghost predicate IsInitialState(rules: Rules, r: Replica, entries: seq<Pair>) {
    && r.manifest.Some?
    && |entries| <= 10_000 && TotalSize(entries) <= 104_857_600
    && (forall i :: 0 <= i < |entries| ==> |entries[i].0| <= 1_024 && |entries[i].1| <= 1_048_576)
    && rules.root(LastWrites(entries)) == r.manifest.value.initialStateRoot
  }

  /** Before the first commitment a state response counts exactly if it holds the program's initial state. */
  lemma FirstStateIsProven(rules: Rules, r: Replica, root: Digest, entries: seq<Pair>)
    requires Filed(r.finalized) && r.commitments == map[]
    ensures var r' := Handle(rules, r, StateResponse(root, entries));
            && (r' != r ==> IsInitialState(rules, r, entries))
            && (r' != r && r.state == map[] ==> rules.root(r'.state) == r.manifest.value.initialStateRoot)
            && (IsInitialState(rules, r, entries) && root == r.manifest.value.initialStateRoot ==>
                  r' == r.(state := r.state + LastWrites(entries)))
  {
    assert map[] + LastWrites(entries) == LastWrites(entries);
  }

  /** Applying either commits something or does nothing. */
  lemma {:induction false} AppliedIsCommitted(rules: Rules, r: Replica)
    requires Filed(r.finalized)
    ensures r.commitments.Keys <= ApplyAvailable(rules, r).commitments.Keys
    ensures ApplyAvailable(rules, r).commitments == map[] ==> ApplyAvailable(rules, r) == r
    decreases Ahead(r)
  {
    if CanAdvance(rules, r) {
      AdvanceRaises(rules, r);
      AppliedIsCommitted(rules, Advance(rules, r));
      assert Receipt(r.finalized[ExpectedHeight(r)]).height in Advance(rules, r).commitments;
    }
  }

  lemma UncommittedHandle(rules: Rules, r: Replica, msg: Message)
    requires Filed(r.finalized) && Handle(rules, r, msg).commitments == map[]
    ensures r.commitments == map[] && (!msg.StateResponse? ==> Handle(rules, r, msg).state == r.state)
  {
    AppliedIsCommitted(rules, r);
    match msg
    case FinalizedReceipt(b) =>
      AppliedIsCommitted(rules, r.(finalized := r.finalized[Receipt(b).height := b]));
    case ManifestReceived(m) =>
      AppliedIsCommitted(rules, r.(manifest := Some(m)));
    case _ =>
  }

  /** The state a node starts with, or that with the initial state of its program over it. */
  ghost predicate Uncommitted(rules: Rules, start: State, r: Replica, universe: set<Bytes>) {
    r.state == start
    || exists initial: State :: initial.Keys <= universe && r.manifest.Some? && r.state == start + initial
                                && rules.root(initial) == r.manifest.value.initialStateRoot
  }

  lemma TwiceIsOnce(start: State, initial: State)
    ensures start + initial + initial == start + initial
  {
  }

  lemma UncommittedStep(rules: Rules, start: State, r: Replica, msg: Message, universe: set<Bytes>)
    requires RootBinds(rules, universe) && Expected(msg, universe) && Filed(r.finalized)
    requires Uncommitted(rules, start, r, universe) && Handle(rules, r, msg).commitments == map[]
    ensures Uncommitted(rules, start, Handle(rules, r, msg), universe)
  {
    var r' := Handle(rules, r, msg);
    UncommittedHandle(rules, r, msg);
    HandleKeepsProgram(rules, r, msg);
    if msg.StateResponse? && r' != r {
      FirstStateIsProven(rules, r, msg.root, msg.entries);
      LastWritesKeys(msg.entries);
      var entries := LastWrites(msg.entries);
      assert r'.state == r.state + entries && rules.root(entries) == r'.manifest.value.initialStateRoot;
      if r.state != start {
        var initial: State :| initial.Keys <= universe && r.manifest.Some? && r.state == start + initial
                              && rules.root(initial) == r.manifest.value.initialStateRoot;
        assert initial == entries;
        TwiceIsOnce(start, initial);
      }
    }
  }

  /** Until its first commitment, whatever arrives, a node holds what it began with or the program's initial state over it. */
  lemma {:induction false} FirstState(rules: Rules, start: State, msgs: seq<Message>, universe: set<Bytes>)
    requires RootBinds(rules, universe) && forall i :: 0 <= i < |msgs| ==> Expected(msgs[i], universe)
    requires Run(rules, Replica(None, map[], map[], start), msgs).commitments == map[]
    ensures Uncommitted(rules, start, Run(rules, Replica(None, map[], map[], start), msgs), universe)
  {
    if msgs != [] {
      var n := |msgs| - 1;
      var before := Run(rules, Replica(None, map[], map[], start), msgs[..n]);
      UncommittedHandle(rules, before, msgs[n]);
      FirstState(rules, start, msgs[..n], universe);
      UncommittedStep(rules, start, before, msgs[n], universe);
    }
  }

  // ------------------------------------------------------------------------------------------
  // Confluence
  // ------------------------------------------------------------------------------------------

  datatype Transition = Transition(receipt: ExecutionReceipt, writes: seq<StateWrite>)

  /** The state after the first `n` transitions of a chain. */
  ghost function StateAfter(start: State, chain: seq<Transition>, n: nat): (s: State)
    requires n <= |chain|
  {
    if n == 0 then start else ApplyWrites(StateAfter(start, chain, n - 1), chain[n - 1].writes)
  }

  ghost predicate ValidAt(rules: Rules, start: State, chain: seq<Transition>, i: nat)
    requires i < |chain|
  {
    && chain[i].receipt.height == i + 1
    && chain[i].receipt.stateRootIn == rules.root(StateAfter(start, chain, i))
    && chain[i].receipt.writeDigest == DigestOf(chain[i].writes)
    && chain[i].receipt.stateRootOut == rules.root(StateAfter(start, chain, i + 1))
  }

  /** A chain of transitions, each from the state the previous one left. */
  ghost predicate ValidChain(rules: Rules, start: State, chain: seq<Transition>) {
    forall i :: 0 <= i < |chain| ==> ValidAt(rules, start, chain, i)
  }

  /** A bundle for one of the chain's transitions, certified by any quorum of the committee. */
  ghost predicate Carries(rules: Rules, c: CommitteeCertificate, chain: seq<Transition>, b: Bundle) {
    && b.committee == c && rules.certified(b.aggregated, c)
    && 1 <= Receipt(b).height <= |chain|
    && chain[Receipt(b).height - 1] == Transition(Receipt(b), b.writes)
  }

  ghost predicate Delivers(rules: Rules, c: CommitteeCertificate, chain: seq<Transition>, m: ProgramManifest, msg: Message) {
    match msg
    case FinalizedReceipt(b) => Carries(rules, c, chain, b)
    case ManifestReceived(m') => m' == m
    case ProgramHead(_) => true
    case StateResponse(_, _) => false
  }

  /** The node has applied the first `n` transitions, and holds only bundles of the chain. */
  ghost predicate Reached(rules: Rules, start: State, c: CommitteeCertificate, chain: seq<Transition>, m: ProgramManifest, r: Replica, n: nat) {
    && n <= |chain|
    && (r.manifest == None || r.manifest == Some(m)) && m.committee == Some(c)
    && (r.manifest == None ==> n == 0)
    && Filed(r.finalized)
    && (forall k :: k in r.finalized ==> Carries(rules, c, chain, r.finalized[k]))
    && (forall k :: k in r.commitments <==> 1 <= k <= n)
    && (forall k :: k in r.commitments ==> r.commitments[k] == CommitmentOf(chain[k - 1].receipt))
    && r.state == StateAfter(start, chain, n)
  }

  lemma ReachedAdvance(rules: Rules, start: State, c: CommitteeCertificate, chain: seq<Transition>,
                       m: ProgramManifest, r: Replica, n: nat)
    requires ValidChain(rules, start, chain) && Reached(rules, start, c, chain, m, r, n)
    ensures CanAdvance(rules, r) <==> r.manifest.Some? && n + 1 in r.finalized
    ensures CanAdvance(rules, r) ==> Reached(rules, start, c, chain, m, Advance(rules, r), n + 1)
  {
    TopOfRange(r.commitments.Keys, n);
    if n + 1 in r.finalized {
      var b := r.finalized[n + 1];
      assert Carries(rules, c, chain, b) && chain[n] == Transition(Receipt(b), b.writes);
      assert ValidAt(rules, start, chain, n);
      if r.manifest.Some? {
        assert Applies(rules, c, r.state, b);
        var r' := Advance(rules, r);
        assert r'.commitments == r.commitments[n + 1 := CommitmentFor(b)];
      }
    }
  }

  lemma {:induction false} ReachedApplyAvailable(rules: Rules, start: State, c: CommitteeCertificate, chain: seq<Transition>,
                                                 m: ProgramManifest, r: Replica, n: nat) returns (n': nat)
    requires ValidChain(rules, start, chain) && Reached(rules, start, c, chain, m, r, n)
    ensures Reached(rules, start, c, chain, m, ApplyAvailable(rules, r), n')
    ensures !CanAdvance(rules, ApplyAvailable(rules, r))
    decreases Ahead(r)
  {
    ReachedAdvance(rules, start, c, chain, m, r, n);
    if CanAdvance(rules, r) {
      AdvanceRaises(rules, r);
      n' := ReachedApplyAvailable(rules, start, c, chain, m, Advance(rules, r), n + 1);
    } else {
      n' := n;
    }
  }

  /** Applying goes on until a height is missing. */
  lemma AppliesUntilMissing(rules: Rules, start: State, c: CommitteeCertificate, chain: seq<Transition>,
                            m: ProgramManifest, r: Replica, n: nat) returns (n': nat)
    requires ValidChain(rules, start, chain) && Reached(rules, start, c, chain, m, r, n)
    ensures Reached(rules, start, c, chain, m, ApplyAvailable(rules, r), n')
    ensures r.manifest.Some? ==> n' + 1 !in r.finalized
    ensures ApplyAvailable(rules, r).finalized == r.finalized && ApplyAvailable(rules, r).manifest == r.manifest
  {
    n' := ReachedApplyAvailable(rules, start, c, chain, m, r, n);
    ApplyAvailableKeepsFiling(rules, r);
    ReachedAdvance(rules, start, c, chain, m, ApplyAvailable(rules, r), n');
  }

  /** What has arrived so far. */
  ghost predicate Arrived(msgs: seq<Message>, k: nat) {
    exists i :: 0 <= i < |msgs| && msgs[i].FinalizedReceipt? && Receipt(msgs[i].bundle).height == k
  }

  ghost predicate ManifestArrived(msgs: seq<Message>) {
    exists i :: 0 <= i < |msgs| && msgs[i].ManifestReceived?
  }

  /** The node holds what has arrived and has applied as much of it as reaches up from height 1. */
  ghost predicate CaughtUp(rules: Rules, start: State, c: CommitteeCertificate, chain: seq<Transition>, m: ProgramManifest,
                           r: Replica, msgs: seq<Message>, n: nat) {
    && Reached(rules, start, c, chain, m, r, n)
    && (forall k :: k in r.finalized <==> Arrived(msgs, k))
    && (r.manifest.Some? <==> ManifestArrived(msgs))
    && (r.manifest.Some? ==> n + 1 !in r.finalized)
  }

  lemma ArrivedOneMore(msgs: seq<Message>, msg: Message, k: nat)
    ensures Arrived(msgs + [msg], k) <==> Arrived(msgs, k) || (msg.FinalizedReceipt? && Receipt(msg.bundle).height == k)
    ensures ManifestArrived(msgs + [msg]) <==> ManifestArrived(msgs) || msg.ManifestReceived?
  {
    var all := msgs + [msg];
    if Arrived(msgs, k) {
      var i :| 0 <= i < |msgs| && msgs[i].FinalizedReceipt? && Receipt(msgs[i].bundle).height == k;
      assert all[i] == msgs[i];
    }
    if ManifestArrived(msgs) {
      var i :| 0 <= i < |msgs| && msgs[i].ManifestReceived?;
      assert all[i] == msgs[i];
    }
    assert all[|msgs|] == msg;
  }

  /** Filing a bundle of the chain, then applying what reaches up. */
  lemma CaughtUpOnBundle(rules: Rules, start: State, c: CommitteeCertificate, chain: seq<Transition>,
                         m: ProgramManifest, r: Replica, msgs: seq<Message>, b: Bundle, n: nat) returns (n': nat)
    requires ValidChain(rules, start, chain) && CaughtUp(rules, start, c, chain, m, r, msgs, n)
    requires Carries(rules, c, chain, b)
    ensures CaughtUp(rules, start, c, chain, m, OnFinalized(rules, r, b), msgs + [FinalizedReceipt(b)], n')
  {
    forall k { ArrivedOneMore(msgs, FinalizedReceipt(b), k); }
    var filed := r.(finalized := r.finalized[Receipt(b).height := b]);
    assert Reached(rules, start, c, chain, m, filed, n);
    if r.manifest.Some? {
      n' := AppliesUntilMissing(rules, start, c, chain, m, filed, n);
    } else {
      n' := n;
    }
  }

  lemma CaughtUpStep(rules: Rules, start: State, c: CommitteeCertificate, chain: seq<Transition>,
                     m: ProgramManifest, r: Replica, msgs: seq<Message>, msg: Message, n: nat) returns (n': nat)
    requires ValidChain(rules, start, chain) && CaughtUp(rules, start, c, chain, m, r, msgs, n)
    requires Delivers(rules, c, chain, m, msg)
    ensures CaughtUp(rules, start, c, chain, m, Handle(rules, r, msg), msgs + [msg], n')
  {
    if msg.FinalizedReceipt? {
      n' := CaughtUpOnBundle(rules, start, c, chain, m, r, msgs, msg.bundle, n);
    } else {
      forall k { ArrivedOneMore(msgs, msg, k); }
      n' := n;
      var known := if msg.ManifestReceived? then r.(manifest := Some(m)) else r;
      if msg.ManifestReceived? || msg.height >= ExpectedHeight(r) {
        assert Reached(rules, start, c, chain, m, known, n);
        n' := AppliesUntilMissing(rules, start, c, chain, m, known, n);
      }
    }
  }

  lemma {:induction false} RunCatchesUp(rules: Rules, start: State, c: CommitteeCertificate, chain: seq<Transition>,
                                        m: ProgramManifest, msgs: seq<Message>) returns (n: nat)
    requires ValidChain(rules, start, chain) && m.committee == Some(c)
    requires forall i :: 0 <= i < |msgs| ==> Delivers(rules, c, chain, m, msgs[i])
    ensures CaughtUp(rules, start, c, chain, m, Run(rules, Replica(None, map[], map[], start), msgs), msgs, n)
  {
    if msgs == [] {
      n := 0;
    } else {
      var last := |msgs| - 1;
      assert msgs == msgs[..last] + [msgs[last]];
      n := RunCatchesUp(rules, start, c, chain, m, msgs[..last]);
      n := CaughtUpStep(rules, start, c, chain, m, Run(rules, Replica(None, map[], map[], start), msgs[..last]), msgs[..last], msgs[last], n);
    }
  }

  /**
    Confluence: however the bundles of a chain are ordered and repeated, and whenever the manifest
    arrives, a node that has received all of them has committed exactly the heights of the chain
    and holds the state its writes produce in height order.
   */
  lemma Confluence(rules: Rules, start: State, c: CommitteeCertificate, chain: seq<Transition>,
                   m: ProgramManifest, msgs: seq<Message>)
    requires ValidChain(rules, start, chain) && m.committee == Some(c)
    requires forall i :: 0 <= i < |msgs| ==> Delivers(rules, c, chain, m, msgs[i])
    requires ManifestArrived(msgs)
    requires forall k :: 1 <= k <= |chain| ==> Arrived(msgs, k)
    ensures var r := Run(rules, Replica(None, map[], map[], start), msgs);
            && (forall k :: k in r.commitments <==> 1 <= k <= |chain|)
            && (forall k :: k in r.commitments ==> r.commitments[k] == CommitmentOf(chain[k - 1].receipt))
            && r.state == StateAfter(start, chain, |chain|)
  {
    var n := RunCatchesUp(rules, start, c, chain, m, msgs);
    NothingMissing(rules, start, c, chain, m, Run(rules, Replica(None, map[], map[], start), msgs), msgs, n);
  }

  lemma NothingMissing(rules: Rules, start: State, c: CommitteeCertificate, chain: seq<Transition>, m: ProgramManifest,
                       r: Replica, msgs: seq<Message>, n: nat)
    requires CaughtUp(rules, start, c, chain, m, r, msgs, n)
    requires ManifestArrived(msgs) && forall k :: 1 <= k <= |chain| ==> Arrived(msgs, k)
    ensures n == |chain|
  {
  }
}
