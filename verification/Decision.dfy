/**
  What honest nodes sign, and that they do decide (the proposals and votes of
  src/consensus/core/network_handlers.rs and src/consensus/core/execution.rs).
 */
module Decision {
  import opened Wrappers
  import opened Crypto
  import opened SparseMerkle
  import opened StateStorage
  import opened Committee
  import opened LeaderRotation
  import opened Agreement

  // ------------------------------------------------------------------------------------------
  // Honest nodes sign their own submissions, and what the leader of a height proposes
  // ------------------------------------------------------------------------------------------

  ghost predicate Proper(c: CommitteeCertificate, n: NodeId, node: Node, r: ExecutionReceipt) {
    && HasSeat(c, n) && 1 <= r.height <= |node.log| + 1
    && (r.executor == n || LeaderForHeight(c, r.height) == Some(r.executor))
  }

  ghost predicate SignsProperly(c: CommitteeCertificate, s: System) {
    forall n :: n in s.honest ==>
      && (forall r :: (n, r) in s.signed ==> Proper(c, n, s.honest[n], r))
      && (s.honest[n].handling.Some? ==> Proper(c, n, s.honest[n], s.honest[n].handling.value))
  }

  lemma StepSignsProperly(c: CommitteeCertificate, s: System, step: Step)
    requires Enabled(c, s, step) && SignsProperly(c, s)
    ensures SignsProperly(c, Next(c, s, step))
  {
    var t := Next(c, s, step);
    forall n, r | n in t.honest && (n, r) in t.signed
      ensures Proper(c, n, t.honest[n], r)
    {
      if (n, r) in s.signed { assert Proper(c, n, s.honest[n], r); }
    }
  }

  /** In every run, fresh or not, an honest node signs nothing but its own receipts and those of the leader of their height. */
  lemma {:induction false} HonestNodesSignProperly(c: CommitteeCertificate, states: seq<System>, steps: seq<Step>, i: nat)
    requires IsRun(c, states, steps) && i <= |steps|
    ensures SignsProperly(c, states[i])
  {
    if i > 0 {
      HonestNodesSignProperly(c, states, steps, i - 1);
      StepSignsProperly(c, states[i - 1], steps[i - 1]);
    }
  }

  /** Members that may sign anything under this receipt: faulty ones, and its executor. */
  ghost function MaySignAnything(c: CommitteeCertificate, honest: set<NodeId>, e: NodeId): (f: seq<bool>)
    ensures |f| == |c.members|
  {
    seq(|c.members|, i requires 0 <= i < |c.members| => c.members[i].key !in honest || c.members[i].key == e)
  }

  /** What is certified was proposed by the leader of its height, unless faulty members and the executor make a quorum alone. */
  lemma CertifiedIsLed(c: CommitteeCertificate, states: seq<System>, steps: seq<Step>, i: nat, a: AggregatedReceipt)
    requires IsRun(c, states, steps) && i <= |steps|
    requires Certifies(a, c) && SignaturesMade(states[i].signed, a)
    requires Weight(c.members, MaySignAnything(c, states[i].honest.Keys, a.receipt.executor)) < c.threshold
    ensures LeaderForHeight(c, a.receipt.height) == Some(a.receipt.executor)
  {
    var s := states[i];
    HonestNodesSignProperly(c, states, steps, i);
    CertifiedIsBacked(c, s.signed, a);
    var flags, bad := SignerFlags(c, s.signed, a.receipt), MaySignAnything(c, s.honest.Keys, a.receipt.executor);
    if forall k :: 0 <= k < |flags| && flags[k] ==> bad[k] {
      WeightMonotone(c.members, flags, bad);
    } else {
      var k :| 0 <= k < |flags| && flags[k] && !bad[k];
      assert Proper(c, c.members[k].key, s.honest[c.members[k].key], a.receipt);
    }
  }

  /** Whoever is not honest may sign anything at any time. */
  lemma OthersSignFreely(c: CommitteeCertificate, s: System, n: NodeId, r: ExecutionReceipt)
    ensures Enabled(c, s, OtherSigns(n, r)) <==> n !in s.honest
    ensures n !in s.honest ==> Next(c, s, OtherSigns(n, r)) == s.(signed := s.signed + {(n, r)})
  {
  }

  /** A vote stands after a crash: the node may repeat it, and refuses every other receipt of that height. */
  lemma VoteSurvivesCrash(c: CommitteeCertificate, n: NodeId, node: Node, other: ExecutionReceipt)
    requires node.handling.Some? && MayVote(c, n, node, node.handling.value)
    ensures var after := NextNode(NextNode(node, FinishVote(n)), Crash(n));
            && MayVote(c, n, after, node.handling.value)
            && (MayVote(c, n, after, other) ==> other == node.handling.value)
  {
  }

  // ------------------------------------------------------------------------------------------
  // Every height can be decided
  // ------------------------------------------------------------------------------------------

  /** A committee of honest nodes whose votes suffice. */
  ghost predicate Willing(c: CommitteeCertificate, honest: set<NodeId>) {
    && c.members != [] && |c.members| <= MAX_COMMITTEE_SIZE && DistinctMembers(c.members)
    && TotalWeight(c.members) > 0 && TotalWeight(c.members) >= c.threshold
    && forall i :: 0 <= i < |c.members| ==> c.members[i].key == c.members[i].node && c.members[i].node in honest
  }

  lemma MemberHasSeat(c: CommitteeCertificate, honest: set<NodeId>, i: nat)
    requires Willing(c, honest) && i < |c.members|
    ensures HasSeat(c, c.members[i].node)
  {
  }

  function FullBitmap(n: nat): (b: seq<bv8>) {
    seq((n + 7) / 8, _ => 0xFF)
  }

  lemma AllBitsSet(x: nat)
    requires x < 8
    ensures ((0xFF as bv8) >> x) & 1 == 1
  {
  }

  lemma FullIsAll(n: nat)
    ensures BitmapFlags(FullBitmap(n), n) == All(n)
  {
    forall i | 0 <= i < n
      ensures BitmapFlags(FullBitmap(n), n)[i]
    {
      AllBitsSet(i % 8);
      assert BitSet(FullBitmap(n), i);
    }
  }

  /** The certificate of the whole committee. */
  ghost function FullCertificate(c: CommitteeCertificate, r: ExecutionReceipt): (a: AggregatedReceipt) {
    AggregatedReceipt(r, c.epoch, FullBitmap(|c.members|), Signed(r, Keys(c.members, All(|c.members|))))
  }

  lemma FullCertifies(c: CommitteeCertificate, honest: set<NodeId>, r: ExecutionReceipt)
    requires Willing(c, honest) && r.programId == c.programId
    ensures Certifies(FullCertificate(c, r), c)
  {
    FullIsAll(|c.members|);
  }

  lemma {:induction false} SignedByKeys(r: ExecutionReceipt, keys: seq<PublicKey>, s: Signature)
    requires s in Signed(r, keys)
    ensures s.receipt == r && s.key in keys
  {
    var n := |keys| - 1;
    if s != Signature(keys[n], r) { SignedByKeys(r, keys[..n], s); }
  }

  lemma {:induction false} KeysAreMembers(members: seq<Member>, flags: seq<bool>, key: PublicKey)
    requires |flags| == |members| && key in Keys(members, flags)
    ensures exists i :: 0 <= i < |members| && members[i].key == key
  {
    var n := |members| - 1;
    if members != [] {
      if key in Keys(members[..n], flags[..n]) {
        KeysAreMembers(members[..n], flags[..n], key);
        var i :| 0 <= i < n && members[..n][i].key == key;
        assert members[i].key == key;
      } else {
        assert members[n].key == key;
      }
    }
  }

  lemma FullIsMade(c: CommitteeCertificate, signed: set<(NodeId, ExecutionReceipt)>, r: ExecutionReceipt)
    requires forall i :: 0 <= i < |c.members| ==> (c.members[i].key, r) in signed
    ensures SignaturesMade(signed, FullCertificate(c, r))
  {
    forall s | s in FullCertificate(c, r).signature
      ensures (s.key, s.receipt) in signed
    {
      SignedByKeys(r, Keys(c.members, All(|c.members|)), s);
      KeysAreMembers(c.members, All(|c.members|), s.key);
    }
  }

  /** The node has committed exactly `log` and voted for nothing beyond it. */
  ghost predicate Calm(node: Node, log: seq<ExecutionReceipt>) {
    && node.log == log && node.handling.None?
    && (LoadLastVoted(node).Some? ==> LoadLastVoted(node).value.height <= |log|)
  }

  /** The node has committed `log` and voted for nothing beyond it but perhaps `r`. */
  ghost predicate Open(node: Node, log: seq<ExecutionReceipt>, r: ExecutionReceipt) {
    && node.log == log && node.handling.None?
    && (LoadLastVoted(node).Some? ==> LoadLastVoted(node).value.height <= |log| || LoadLastVoted(node).value == Vote(r.height, r))
  }

  ghost predicate AllCalm(c: CommitteeCertificate, s: System, log: seq<ExecutionReceipt>) {
    Willing(c, s.honest.Keys) && forall i :: 0 <= i < |c.members| ==> Calm(s.honest[c.members[i].node], log)
  }

  /** The next receipt, by the leader of its height. */
  ghost predicate IsNext(c: CommitteeCertificate, log: seq<ExecutionReceipt>, r: ExecutionReceipt) {
    && r.programId == c.programId && r.height == |log| + 1 && LeaderForHeight(c, r.height) == Some(r.executor)
  }

  ghost predicate VotedUpTo(c: CommitteeCertificate, s: System, log: seq<ExecutionReceipt>, r: ExecutionReceipt, k: nat) {
    && Willing(c, s.honest.Keys) && IsNext(c, log, r) && k <= |c.members|
    && (forall i :: 0 <= i < |c.members| ==> Open(s.honest[c.members[i].node], log, r))
    && (forall i :: 0 <= i < k ==> (c.members[i].node, r) in s.signed)
  }

  ghost predicate CommittedUpTo(c: CommitteeCertificate, s: System, log: seq<ExecutionReceipt>, r: ExecutionReceipt, k: nat) {
    && Willing(c, s.honest.Keys) && IsNext(c, log, r) && k <= |c.members|
    && (forall i :: 0 <= i < |c.members| ==> (c.members[i].node, r) in s.signed)
    && (forall i :: 0 <= i < |c.members| ==>
          if i < k then Calm(s.honest[c.members[i].node], log + [r]) else Open(s.honest[c.members[i].node], log, r))
  }

  /** A run with the states it passes through, and the one it has reached. */
  ghost predicate Reaches(c: CommitteeCertificate, states: seq<System>, steps: seq<Step>, s: System) {
    SequentialRun(c, states, steps) && states[|steps|] == s
  }

  lemma Extend(c: CommitteeCertificate, states: seq<System>, steps: seq<Step>, s: System, step: Step)
      returns (states': seq<System>, steps': seq<Step>)
    requires Reaches(c, states, steps, s) && Enabled(c, s, step) && NotOvertaken(s, step)
    ensures Reaches(c, states', steps', Next(c, s, step))
  {
    states', steps' := states + [Next(c, s, step)], steps + [step];
    forall i | 0 <= i < |steps'|
      ensures Enabled(c, states'[i], steps'[i]) && states'[i + 1] == Next(c, states'[i], steps'[i]) && NotOvertaken(states'[i], steps'[i])
    {
      if i < |steps| { assert states'[i] == states[i] && states'[i + 1] == states[i + 1] && steps'[i] == steps[i]; }
    }
  }

  lemma SubmitOpens(c: CommitteeCertificate, s: System, log: seq<ExecutionReceipt>, r: ExecutionReceipt)
    requires AllCalm(c, s, log) && IsNext(c, log, r)
    ensures Enabled(c, s, Submit(r.executor, r)) && NotOvertaken(s, Submit(r.executor, r))
    ensures VotedUpTo(c, Next(c, s, Submit(r.executor, r)), log, r, 0)
  {
    var round, i := LeaderIsMember(c, r.height);
    MemberHasSeat(c, s.honest.Keys, i);
    assert Calm(s.honest[c.members[i].node], log);
  }

  lemma VoteEnabled(c: CommitteeCertificate, s: System, log: seq<ExecutionReceipt>, r: ExecutionReceipt, k: nat)
    requires VotedUpTo(c, s, log, r, k) && k < |c.members|
    ensures Enabled(c, s, BeginVote(c.members[k].node, r))
    ensures Enabled(c, Next(c, s, BeginVote(c.members[k].node, r)), FinishVote(c.members[k].node))
    ensures VotedUpTo(c, Next(c, Next(c, s, BeginVote(c.members[k].node, r)), FinishVote(c.members[k].node)), log, r, k + 1)
  {
    MemberHasSeat(c, s.honest.Keys, k);
    assert Open(s.honest[c.members[k].node], log, r);
  }

  lemma VoteNext(c: CommitteeCertificate, states: seq<System>, steps: seq<Step>, s: System,
                 log: seq<ExecutionReceipt>, r: ExecutionReceipt, k: nat)
      returns (states': seq<System>, steps': seq<Step>, s': System)
    requires Reaches(c, states, steps, s) && VotedUpTo(c, s, log, r, k) && k < |c.members|
    ensures Reaches(c, states', steps', s') && VotedUpTo(c, s', log, r, k + 1)
  {
    var n := c.members[k].node;
    VoteEnabled(c, s, log, r, k);
    states', steps' := Extend(c, states, steps, s, BeginVote(n, r));
    s' := Next(c, s, BeginVote(n, r));
    states', steps' := Extend(c, states', steps', s', FinishVote(n));
    s' := Next(c, s', FinishVote(n));
  }

  lemma {:induction false} AllVote(c: CommitteeCertificate, states: seq<System>, steps: seq<Step>, s: System,
                                   log: seq<ExecutionReceipt>, r: ExecutionReceipt, k: nat)
      returns (states': seq<System>, steps': seq<Step>, s': System)
    requires Reaches(c, states, steps, s) && VotedUpTo(c, s, log, r, 0) && k <= |c.members|
    ensures Reaches(c, states', steps', s') && VotedUpTo(c, s', log, r, k)
  {
    if k == 0 {
      states', steps', s' := states, steps, s;
    } else {
      states', steps', s' := AllVote(c, states, steps, s, log, r, k - 1);
      states', steps', s' := VoteNext(c, states', steps', s', log, r, k - 1);
    }
  }

  lemma CommitEnabled(c: CommitteeCertificate, s: System, log: seq<ExecutionReceipt>, r: ExecutionReceipt, k: nat)
    requires CommittedUpTo(c, s, log, r, k) && k < |c.members|
    ensures Enabled(c, s, Commit(c.members[k].node, FullCertificate(c, r)))
    ensures CommittedUpTo(c, Next(c, s, Commit(c.members[k].node, FullCertificate(c, r))), log, r, k + 1)
  {
    FullCertifies(c, s.honest.Keys, r);
    FullIsMade(c, s.signed, r);
    assert Open(s.honest[c.members[k].node], log, r);
  }

  lemma {:induction false} AllCommit(c: CommitteeCertificate, states: seq<System>, steps: seq<Step>, s: System,
                                     log: seq<ExecutionReceipt>, r: ExecutionReceipt, k: nat)
      returns (states': seq<System>, steps': seq<Step>, s': System)
    requires Reaches(c, states, steps, s) && CommittedUpTo(c, s, log, r, 0) && k <= |c.members|
    ensures Reaches(c, states', steps', s') && CommittedUpTo(c, s', log, r, k)
  {
    if k == 0 {
      states', steps', s' := states, steps, s;
    } else {
      states', steps', s' := AllCommit(c, states, steps, s, log, r, k - 1);
      var step := Commit(c.members[k - 1].node, FullCertificate(c, r));
      CommitEnabled(c, s', log, r, k - 1);
      states', steps' := Extend(c, states', steps', s', step);
      s' := Next(c, s', step);
    }
  }

  /** Whatever its leader proposes next, a committee at rest can vote for and commit. */
  lemma NextCanBeDecided(c: CommitteeCertificate, states: seq<System>, steps: seq<Step>, s: System,
                         log: seq<ExecutionReceipt>, r: ExecutionReceipt)
      returns (states': seq<System>, steps': seq<Step>, s': System)
    requires Reaches(c, states, steps, s) && AllCalm(c, s, log) && IsNext(c, log, r)
    ensures Reaches(c, states', steps', s') && AllCalm(c, s', log + [r])
  {
    SubmitOpens(c, s, log, r);
    states', steps' := Extend(c, states, steps, s, Submit(r.executor, r));
    s' := Next(c, s, Submit(r.executor, r));
    states', steps', s' := AllVote(c, states', steps', s', log, r, |c.members|);
    states', steps', s' := AllCommit(c, states', steps', s', log, r, |c.members|);
  }

  /** Receipts of one program, one for each height, each by the leader of its height. */
  ghost predicate LedChain(c: CommitteeCertificate, chain: seq<ExecutionReceipt>) {
    forall k :: 0 <= k < |chain| ==> IsNext(c, chain[..k], chain[k])
  }

  /** A willing committee can decide any receipts its leaders propose, one height after the other. */
  lemma {:induction false} EveryHeightCanBeDecided(c: CommitteeCertificate, start: System, chain: seq<ExecutionReceipt>)
      returns (states: seq<System>, steps: seq<Step>, s: System)
    requires Initial(start) && Willing(c, start.honest.Keys) && LedChain(c, chain)
    ensures Reaches(c, states, steps, s) && AllCalm(c, s, chain)
  {
    if chain == [] {
      states, steps, s := [start], [], start;
    } else {
      var n := |chain| - 1;
      assert forall k :: 0 <= k < n ==> chain[..n][..k] == chain[..k];
      states, steps, s := EveryHeightCanBeDecided(c, start, chain[..n]);
      states, steps, s := NextCanBeDecided(c, states, steps, s, chain[..n], chain[n]);
      assert chain[..n] + [chain[n]] == chain;
    }
  }
}
