/**
  What the parts promise together: nodes that run the voting protocol of `Agreement` and apply
  finalised transitions as `Replication` says hold one log and, at one height, one state.
 */
module ReplicatedState {
  import opened Wrappers
  import opened Crypto
  import opened SparseMerkle
  import opened StateStorage
  import opened Committee
  import opened Replication
  import opened ReplicaEngine
  import A = Agreement

  /** Signatures cannot be forged: a certificate that arrives and verifies was made by its signers. */
  ghost predicate Genuine(c: CommitteeCertificate, signed: set<(NodeId, ExecutionReceipt)>, msgs: seq<Message>) {
    forall i :: 0 <= i < |msgs| && msgs[i].FinalizedReceipt? && Certifies(msgs[i].bundle.aggregated, c) ==>
      A.SignaturesMade(signed, msgs[i].bundle.aggregated)
  }

  ghost predicate HeavyForAll(c: CommitteeCertificate, honest: set<NodeId>) {
    forall e1, e2 :: A.HeavyQuorums(c, honest, e1, e2)
  }

  /** What a history consists of: certificates of this committee that were really signed. */
  ghost predicate Authentic(c: CommitteeCertificate, signed: set<(NodeId, ExecutionReceipt)>, history: seq<Bundle>) {
    forall i :: 0 <= i < |history| ==> IsAuthentic(c, signed, history[i], i + 1)
  }

  ghost predicate IsAuthentic(c: CommitteeCertificate, signed: set<(NodeId, ExecutionReceipt)>, b: Bundle, height: nat) {
    Certifies(b.aggregated, c) && A.SignaturesMade(signed, b.aggregated) && Receipt(b).height == height
  }

  lemma HistoryIsAuthentic(h: Bytes -> KeyHash, c: CommitteeCertificate, signed: set<(NodeId, ExecutionReceipt)>,
                           r: Replica, history: seq<Bundle>, msgs: seq<Message>)
    requires Safe(NodeRules(h), r, history) && AllArrived(history, msgs) && StoredCommittee(r) == Some(c)
    requires Genuine(c, signed, msgs)
    ensures Authentic(c, signed, history)
  {
    forall i | 0 <= i < |history|
      ensures IsAuthentic(c, signed, history[i], i + 1)
    {
      assert i + 1 in r.commitments;
      assert Backs(NodeRules(h), StoredCommittee(r), i + 1, r.commitments[i + 1], history[i]);
      var k :| 0 <= k < |msgs| && msgs[k] == FinalizedReceipt(history[i]);
      assert Certifies(msgs[k].bundle.aggregated, c);
    }
  }

  ghost predicate SameReceipts(p: seq<Bundle>, q: seq<Bundle>) {
    forall i :: 0 <= i < |p| && i < |q| ==> Receipt(p[i]) == Receipt(q[i])
  }

  /** Authentic histories agree wherever both reach. */
  lemma HistoriesAgree(c: CommitteeCertificate, states: seq<A.System>, steps: seq<A.Step>, p: seq<Bundle>, q: seq<Bundle>)
    requires A.FreshRun(c, states, steps) && HeavyForAll(c, states[|steps|].honest.Keys)
    requires Authentic(c, states[|steps|].signed, p) && Authentic(c, states[|steps|].signed, q)
    ensures SameReceipts(p, q)
  {
    var n := |steps|;
    forall i | 0 <= i < |p| && i < |q|
      ensures Receipt(p[i]) == Receipt(q[i])
    {
      assert IsAuthentic(c, states[n].signed, p[i], i + 1) && IsAuthentic(c, states[n].signed, q[i], i + 1);
      A.Agreement(c, states, steps, n, n, p[i].aggregated, q[i].aggregated);
    }
  }

  lemma CommitmentsAgree(rules: Rules, r: Replica, p: seq<Bundle>, s: Replica, q: seq<Bundle>, k: nat)
    requires Backing(rules, r, p) && Backing(rules, s, q) && k in r.commitments && k in s.commitments
    requires Receipt(p[k - 1]) == Receipt(q[k - 1])
    ensures r.commitments[k] == s.commitments[k]
  {
    assert Backs(rules, StoredCommittee(r), k, r.commitments[k], p[k - 1]);
    assert Backs(rules, StoredCommittee(s), k, s.commitments[k], q[k - 1]);
  }

  lemma StatesAgree(rules: Rules, universe: set<Bytes>, r: Replica, p: seq<Bundle>, s: Replica, q: seq<Bundle>)
    requires RootBinds(rules, universe) && KeysWithin(r, universe) && KeysWithin(s, universe)
    requires Safe(rules, r, p) && Safe(rules, s, q) && |p| == |q| > 0 && Receipt(p[|p| - 1]) == Receipt(q[|q| - 1])
    ensures r.state == s.state
  {
    assert rules.root(r.state) == rules.root(s.state);
  }

  lemma SafeReplicasAgree(rules: Rules, universe: set<Bytes>, r: Replica, p: seq<Bundle>, s: Replica, q: seq<Bundle>)
    requires RootBinds(rules, universe) && KeysWithin(r, universe) && KeysWithin(s, universe)
    requires Safe(rules, r, p) && Safe(rules, s, q) && SameReceipts(p, q)
    ensures forall k :: k in r.commitments && k in s.commitments ==> r.commitments[k] == s.commitments[k]
    ensures r.commitments.Keys == s.commitments.Keys != {} ==> r.state == s.state
  {
    forall k | k in r.commitments && k in s.commitments
      ensures r.commitments[k] == s.commitments[k]
    {
      CommitmentsAgree(rules, r, p, s, q, k);
    }
    if r.commitments.Keys == s.commitments.Keys != {} {
      SameLength(r, p, s, q);
      StatesAgree(rules, universe, r, p, s, q);
    }
  }

  lemma SameLength(r: Replica, p: seq<Bundle>, s: Replica, q: seq<Bundle>)
    requires forall k :: k in r.commitments <==> 1 <= k <= |p|
    requires forall k :: k in s.commitments <==> 1 <= k <= |q|
    requires r.commitments.Keys == s.commitments.Keys != {}
    ensures |p| == |q| > 0
  {
    assert |p| > 0 ==> |p| in r.commitments.Keys;
    assert |q| > 0 ==> |q| in s.commitments.Keys;
    assert |p| == 0 ==> r.commitments.Keys == {};
  }

  /**
    State machine replication: two nodes with one committee, whatever each of them received and in
    whatever order, have the same commitment at every height both have committed, and the same
    state when they have committed the same heights.
   */
  lemma NodesAgree(h: Bytes -> KeyHash, universe: set<Bytes>, c: CommitteeCertificate,
                   states: seq<A.System>, steps: seq<A.Step>,
                   start1: State, msgs1: seq<Message>, start2: State, msgs2: seq<Message>)
    requires A.FreshRun(c, states, steps) && HeavyForAll(c, states[|steps|].honest.Keys)
    requires CollisionFree(h, universe) && start1.Keys <= universe && start2.Keys <= universe
    requires forall i :: 0 <= i < |msgs1| ==> Expected(msgs1[i], universe)
    requires forall i :: 0 <= i < |msgs2| ==> Expected(msgs2[i], universe)
    requires Genuine(c, states[|steps|].signed, msgs1) && Genuine(c, states[|steps|].signed, msgs2)
    requires StoredCommittee(After(h, start1, msgs1)) == StoredCommittee(After(h, start2, msgs2)) == Some(c)
    ensures var r, s := After(h, start1, msgs1), After(h, start2, msgs2);
            && (forall k :: k in r.commitments && k in s.commitments ==> r.commitments[k] == s.commitments[k])
            && (r.commitments.Keys == s.commitments.Keys != {} ==> r.state == s.state)
  {
    NodeRulesBind(h, universe);
    var p := LogSafety(NodeRules(h), start1, msgs1, universe);
    var q := LogSafety(NodeRules(h), start2, msgs2, universe);
    var r, s, signed := After(h, start1, msgs1), After(h, start2, msgs2), states[|steps|].signed;
    HistoryIsAuthentic(h, c, signed, r, p, msgs1);
    HistoryIsAuthentic(h, c, signed, s, q, msgs2);
    HistoriesAgree(c, states, steps, p, q);
    SafeReplicasAgree(NodeRules(h), universe, r, p, s, q);
  }

  /** A node's record after a sequence of messages, from the empty log. */
  ghost function After(h: Bytes -> KeyHash, start: State, msgs: seq<Message>): (r: Replica) {
    Run(NodeRules(h), Replica(None, map[], map[], start), msgs)
  }
}
