/**
  Agreement of the state-transition protocol for one program (src/consensus/core/execution.rs,
  network_handlers.rs and engine.rs).

  The protocol is a state machine over the steps of honest nodes.  The proposal handler is split
  where it suspends to re-execute the call, so submissions may run in between; a submission signs
  at a height it read before it executed.  Crashes lose the in-memory fields only.  Every other
  node may sign anything.  A certificate can only contain signatures that were made.
 */
module Agreement {
  import opened Wrappers
  import opened Crypto
  import opened SparseMerkle
  import opened StateStorage
  import opened Committee

  datatype Vote = Vote(height: nat, receipt: ExecutionReceipt)

  datatype Node = Node(
    lastVotedStore: Option<Vote>,          // persistent
    lastVotedCache: Option<Vote>,          // lost in a crash
    handling: Option<ExecutionReceipt>,    // a proposal between its checks and its signature
    log: seq<ExecutionReceipt>)            // receipts applied at heights 1, 2, ...

  datatype System = System(honest: map<NodeId, Node>, signed: set<(NodeId, ExecutionReceipt)>)

  datatype Step =
    | Submit(node: NodeId, receipt: ExecutionReceipt)
    | BeginVote(node: NodeId, receipt: ExecutionReceipt)
    | FinishVote(node: NodeId)
    | AbandonVote(node: NodeId)
    | Commit(node: NodeId, aggregated: AggregatedReceipt)
    | Crash(node: NodeId)
    | OtherSigns(node: NodeId, receipt: ExecutionReceipt)

  /** `load_last_voted`: the cache if it has an entry, the database otherwise. */
  function LoadLastVoted(node: Node): (r: Option<Vote>) {
    if node.lastVotedCache.Some? then node.lastVotedCache else node.lastVotedStore
  }

  /** `store_last_voted`: both copies, unconditionally. */
  function StoreLastVoted(node: Node, receipt: ExecutionReceipt): (r: Node) {
    var vote := Some(Vote(receipt.height, receipt));
    node.(lastVotedStore := vote, lastVotedCache := vote)
  }

  /** The first committee entry naming the node carries the node's own key. */
  ghost predicate HasSeat(c: CommitteeCertificate, n: NodeId) {
    exists i :: 0 <= i < |c.members| && c.members[i].node == n && c.members[i].key == n
                && forall j :: 0 <= j < i ==> c.members[j].node != n
  }

  /** The check of a proposal against the last vote. */
  predicate Unconflicted(last: Option<Vote>, receipt: ExecutionReceipt) {
    last.Some? ==>
      && !(last.value.height == receipt.height && last.value.receipt != receipt)
      && !(last.value.height > receipt.height)
  }

  ghost predicate MayVote(c: CommitteeCertificate, n: NodeId, node: Node, receipt: ExecutionReceipt) {
    && LeaderForHeight(c, receipt.height) == Some(receipt.executor)
    && HasSeat(c, n)
    && receipt.height == |node.log| + 1
    && Unconflicted(LoadLastVoted(node), receipt)
  }

  /** The part of every certificate that is a signature somebody made. */
  ghost predicate SignaturesMade(signed: set<(NodeId, ExecutionReceipt)>, aggregated: AggregatedReceipt) {
    forall s :: s in aggregated.signature ==> (s.key, s.receipt) in signed
  }

  ghost predicate Enabled(c: CommitteeCertificate, s: System, step: Step) {
    match step
    case Submit(n, r) =>
      n in s.honest && r.executor == n && 1 <= r.height <= |s.honest[n].log| + 1 && HasSeat(c, n)
    case BeginVote(n, r) =>
      n in s.honest && s.honest[n].handling.None? && MayVote(c, n, s.honest[n], r)
    case FinishVote(n) => n in s.honest && s.honest[n].handling.Some?
    case AbandonVote(n) => n in s.honest
    case Commit(n, a) =>
      n in s.honest && Certifies(a, c) && SignaturesMade(s.signed, a) && a.receipt.height == |s.honest[n].log| + 1
    case Crash(n) => n in s.honest
    case OtherSigns(n, r) => n !in s.honest
  }

  ghost function NextNode(node: Node, step: Step): (r: Node)
    requires step.FinishVote? ==> node.handling.Some?
  {
    match step
    case Submit(_, r) => StoreLastVoted(node, r)
    case BeginVote(_, r) => node.(lastVotedCache := LoadLastVoted(node), handling := Some(r))
    case FinishVote(_) => StoreLastVoted(node, node.handling.value).(handling := None)
    case AbandonVote(_) => node.(handling := None)
    case Commit(_, a) => node.(log := node.log + [a.receipt])
    case Crash(_) => node.(lastVotedCache := None, handling := None)
    case OtherSigns(_, _) => node
  }

  ghost function Next(c: CommitteeCertificate, s: System, step: Step): (r: System)
    requires Enabled(c, s, step)
  {
    var made := match step
      case Submit(n, r) => {(n, r)}
      case FinishVote(n) => {(n, s.honest[n].handling.value)}
      case OtherSigns(n, r) => {(n, r)}
      case _ => {};
    System(
      if step.OtherSigns? then s.honest else s.honest[step.node := NextNode(s.honest[step.node], step)],
      s.signed + made)
  }

  ghost predicate Initial(s: System) {
    && s.signed == {}
    && forall n :: n in s.honest ==> s.honest[n] == Node(None, None, None, [])
  }

  /** No submission signs below the height its node last voted at. */
  ghost predicate Fresh(s: System, step: Step)
    requires step.Submit? ==> step.node in s.honest
  {
    step.Submit? && LoadLastVoted(s.honest[step.node]).Some? ==>
      step.receipt.height >= LoadLastVoted(s.honest[step.node]).value.height
  }

  /** A submission that was not overtaken: it signs at the height that follows the log. */
  ghost predicate NotOvertaken(s: System, step: Step)
    requires step.Submit? ==> step.node in s.honest
  {
    step.Submit? ==> step.receipt.height == |s.honest[step.node].log| + 1
  }

  /** A run and the states it passes through. */
  ghost predicate IsRun(c: CommitteeCertificate, states: seq<System>, steps: seq<Step>) {
    && |states| == |steps| + 1
    && Initial(states[0])
    && forall i :: 0 <= i < |steps| ==> Enabled(c, states[i], steps[i]) && states[i + 1] == Next(c, states[i], steps[i])
  }

  ghost predicate FreshRun(c: CommitteeCertificate, states: seq<System>, steps: seq<Step>) {
    && IsRun(c, states, steps)
    && forall i :: 0 <= i < |steps| ==> Fresh(states[i], steps[i])
  }

  ghost predicate SequentialRun(c: CommitteeCertificate, states: seq<System>, steps: seq<Step>) {
    && IsRun(c, states, steps)
    && forall i :: 0 <= i < |steps| ==> NotOvertaken(states[i], steps[i])
  }

  // ------------------------------------------------------------------------------------------
  // What every step of an honest node keeps
  // ------------------------------------------------------------------------------------------

  /** `v` rules out a second vote at the height of `r`. */
  predicate Covers(n: NodeId, v: Vote, r: ExecutionReceipt) {
    v.height > r.height || (v.height == r.height && (v.receipt == r || v.receipt.executor == n))
  }

  ghost predicate NodeInv(n: NodeId, node: Node, signed: set<(NodeId, ExecutionReceipt)>) {
    && (node.lastVotedCache.Some? ==> node.lastVotedStore == node.lastVotedCache)
    && (forall r :: (n, r) in signed && r.executor != n ==>
          && node.lastVotedStore.Some? && Covers(n, node.lastVotedStore.value, r)
          && (node.handling.Some? ==> Covers(n, Vote(node.handling.value.height, node.handling.value), r)))
  }

  ghost predicate VotesUnique(n: NodeId, signed: set<(NodeId, ExecutionReceipt)>) {
    forall q, r ::
      (n, q) in signed && (n, r) in signed && q.height == r.height && q.executor != n && r.executor != n ==> q == r
  }

  ghost predicate Inv(c: CommitteeCertificate, s: System) {
    forall n :: n in s.honest ==> NodeInv(n, s.honest[n], s.signed) && VotesUnique(n, s.signed) && LogBacked(c, s.signed, s.honest[n].log)
  }

  lemma OwnStepKeepsVotes(c: CommitteeCertificate, s: System, step: Step)
    requires Inv(c, s) && Enabled(c, s, step) && Fresh(s, step) && !step.OtherSigns?
    ensures var t := Next(c, s, step); NodeInv(step.node, t.honest[step.node], t.signed) && VotesUnique(step.node, t.signed)
  {
    var n := step.node;
    assert NodeInv(n, s.honest[n], s.signed) && VotesUnique(n, s.signed);
  }

  lemma StepKeepsInv(c: CommitteeCertificate, s: System, step: Step)
    requires Inv(c, s) && Enabled(c, s, step) && Fresh(s, step)
    ensures Inv(c, Next(c, s, step))
  {
    var t := Next(c, s, step);
    forall n | n in t.honest
      ensures NodeInv(n, t.honest[n], t.signed) && VotesUnique(n, t.signed) && LogBacked(c, t.signed, t.honest[n].log)
    {
      assert NodeInv(n, s.honest[n], s.signed) && VotesUnique(n, s.signed);
      if n == step.node {
        OwnStepKeepsVotes(c, s, step);
      } else {
        assert forall r :: (n, r) in t.signed <==> (n, r) in s.signed;
      }
      LogBackedMonotone(c, s.signed, t.signed, s.honest[n].log);
      if step.Commit? && step.node == n {
        CertifiedIsBacked(c, t.signed, step.aggregated);
      }
    }
  }

  lemma {:induction false} RunKeepsInv(c: CommitteeCertificate, states: seq<System>, steps: seq<Step>, i: nat)
    requires FreshRun(c, states, steps) && i <= |steps|
    ensures Inv(c, states[i])
  {
    if i > 0 {
      RunKeepsInv(c, states, steps, i - 1);
      StepKeepsInv(c, states[i - 1], steps[i - 1]);
    }
  }

  // ------------------------------------------------------------------------------------------
  // Certificates and signatures
  // ------------------------------------------------------------------------------------------

  ghost function SignerFlags(c: CommitteeCertificate, signed: set<(NodeId, ExecutionReceipt)>, r: ExecutionReceipt): (f: seq<bool>)
    ensures |f| == |c.members|
  {
    seq(|c.members|, i requires 0 <= i < |c.members| => (c.members[i].key, r) in signed)
  }

  /** Members weighing the threshold have signed the receipt. */
  ghost predicate Backed(c: CommitteeCertificate, signed: set<(NodeId, ExecutionReceipt)>, r: ExecutionReceipt) {
    Weight(c.members, SignerFlags(c, signed, r)) >= c.threshold
  }

  ghost predicate LogBacked(c: CommitteeCertificate, signed: set<(NodeId, ExecutionReceipt)>, log: seq<ExecutionReceipt>) {
    forall i :: 0 <= i < |log| ==> log[i].height == i + 1 && Backed(c, signed, log[i])
  }

  lemma BackedMonotone(c: CommitteeCertificate, a: set<(NodeId, ExecutionReceipt)>, b: set<(NodeId, ExecutionReceipt)>, r: ExecutionReceipt)
    requires a <= b && Backed(c, a, r)
    ensures Backed(c, b, r)
  {
    WeightMonotone(c.members, SignerFlags(c, a, r), SignerFlags(c, b, r));
  }

  lemma LogBackedMonotone(c: CommitteeCertificate, a: set<(NodeId, ExecutionReceipt)>, b: set<(NodeId, ExecutionReceipt)>, log: seq<ExecutionReceipt>)
    requires a <= b && LogBacked(c, a, log)
    ensures LogBacked(c, b, log)
  {
    forall i | 0 <= i < |log| ensures Backed(c, b, log[i]) { BackedMonotone(c, a, b, log[i]); }
  }

  /** A certificate the verifier accepts is backed by signatures weighing the threshold. */
  lemma CertifiedIsBacked(c: CommitteeCertificate, signed: set<(NodeId, ExecutionReceipt)>, a: AggregatedReceipt)
    requires Certifies(a, c) && SignaturesMade(signed, a)
    ensures Backed(c, signed, a.receipt)
  {
    var flags := BitmapFlags(a.bitmap, |c.members|);
    forall i | 0 <= i < |c.members| && flags[i]
      ensures (c.members[i].key, a.receipt) in signed
    {
      FlaggedKeysSigned(c.members, flags, a.receipt, i);
      assert Signature(c.members[i].key, a.receipt) in a.signature;
    }
    WeightMonotone(c.members, flags, SignerFlags(c, signed, a.receipt));
  }

  // ------------------------------------------------------------------------------------------
  // Agreement
  // ------------------------------------------------------------------------------------------

  /** Members whose key is not held by an honest node, or is held by one of two executors. */
  ghost function MayDoubleSign(c: CommitteeCertificate, honest: set<NodeId>, e1: NodeId, e2: NodeId): (f: seq<bool>)
    ensures |f| == |c.members|
  {
    seq(|c.members|, i requires 0 <= i < |c.members| =>
      c.members[i].key !in honest || c.members[i].key == e1 || c.members[i].key == e2)
  }

  ghost predicate HeavyQuorums(c: CommitteeCertificate, honest: set<NodeId>, e1: NodeId, e2: NodeId) {
    2 * c.threshold > TotalWeight(c.members) + Weight(c.members, MayDoubleSign(c, honest, e1, e2))
  }

  lemma BackedReceiptsAgree(c: CommitteeCertificate, s: System, q: ExecutionReceipt, r: ExecutionReceipt)
    requires Inv(c, s) && q.height == r.height
    requires Backed(c, s.signed, q) && Backed(c, s.signed, r)
    requires HeavyQuorums(c, s.honest.Keys, q.executor, r.executor)
    ensures q == r
  {
    QuorumsIntersect(c.members, SignerFlags(c, s.signed, q), SignerFlags(c, s.signed, r),
                     MayDoubleSign(c, s.honest.Keys, q.executor, r.executor), c.threshold);
    var i :| 0 <= i < |c.members| && SignerFlags(c, s.signed, q)[i] && SignerFlags(c, s.signed, r)[i]
             && !MayDoubleSign(c, s.honest.Keys, q.executor, r.executor)[i];
    assert VotesUnique(c.members[i].key, s.signed);
  }

  /** In every run, two certificates for one height certify the same receipt. */
  lemma Agreement(c: CommitteeCertificate, states: seq<System>, steps: seq<Step>, i: nat, j: nat,
                  a: AggregatedReceipt, b: AggregatedReceipt)
    requires FreshRun(c, states, steps) && i <= j <= |steps|
    requires Certifies(a, c) && SignaturesMade(states[i].signed, a)
    requires Certifies(b, c) && SignaturesMade(states[j].signed, b)
    requires a.receipt.height == b.receipt.height
    requires HeavyQuorums(c, states[j].honest.Keys, a.receipt.executor, b.receipt.executor)
    ensures a.receipt == b.receipt
  {
    RunKeepsInv(c, states, steps, j);
    SignaturesAccumulate(c, states, steps, i, j);
    CertifiedIsBacked(c, states[j].signed, a);
    CertifiedIsBacked(c, states[j].signed, b);
    BackedReceiptsAgree(c, states[j], a.receipt, b.receipt);
  }

  lemma {:induction false} SignaturesAccumulate(c: CommitteeCertificate, states: seq<System>, steps: seq<Step>, i: nat, j: nat)
    requires IsRun(c, states, steps) && i <= j <= |steps|
    ensures states[i].signed <= states[j].signed
    ensures states[i].honest.Keys == states[j].honest.Keys
    decreases j - i
  {
    if i < j {
      SignaturesAccumulate(c, states, steps, i, j - 1);
    }
  }

  /** The logs of any two honest nodes, at any two times, agree on every height both have reached. */
  lemma LogsAgree(c: CommitteeCertificate, states: seq<System>, steps: seq<Step>, i: nat, j: nat, m: NodeId, n: NodeId, k: nat)
    requires FreshRun(c, states, steps) && i <= j <= |steps|
    requires m in states[i].honest && n in states[j].honest
    requires k < |states[i].honest[m].log| && k < |states[j].honest[n].log|
    requires forall e1, e2 :: HeavyQuorums(c, states[j].honest.Keys, e1, e2)
    ensures states[i].honest[m].log[k] == states[j].honest[n].log[k]
  {
    RunKeepsInv(c, states, steps, i);
    RunKeepsInv(c, states, steps, j);
    SignaturesAccumulate(c, states, steps, i, j);
    var q, r := states[i].honest[m].log[k], states[j].honest[n].log[k];
    assert Backed(c, states[i].signed, q) && Backed(c, states[j].signed, r);
    BackedMonotone(c, states[i].signed, states[j].signed, q);
    BackedReceiptsAgree(c, states[j], q, r);
  }

  // ------------------------------------------------------------------------------------------
  // When submissions are fresh
  // ------------------------------------------------------------------------------------------

  ghost predicate VotesWithinReach(s: System) {
    forall n :: n in s.honest ==>
      var node := s.honest[n];
      && (node.lastVotedCache.Some? ==> node.lastVotedStore == node.lastVotedCache)
      && (node.lastVotedStore.Some? ==> node.lastVotedStore.value.height <= |node.log| + 1)
      && (node.handling.Some? ==> node.handling.value.height <= |node.log| + 1)
  }

  lemma {:induction false} SequentialRunIsFresh(c: CommitteeCertificate, states: seq<System>, steps: seq<Step>, i: nat)
    requires SequentialRun(c, states, steps) && i <= |steps|
    ensures VotesWithinReach(states[i])
    ensures i < |steps| ==> Fresh(states[i], steps[i])
  {
    if i > 0 {
      SequentialRunIsFresh(c, states, steps, i - 1);
      assert states[i] == Next(c, states[i - 1], steps[i - 1]);
    }
  }

  /** If no submission is overtaken by a commit, agreement needs no further condition on the run. */
  lemma AgreementOfSequentialRuns(c: CommitteeCertificate, states: seq<System>, steps: seq<Step>, i: nat, j: nat,
                                  a: AggregatedReceipt, b: AggregatedReceipt)
    requires SequentialRun(c, states, steps) && i <= j <= |steps|
    requires Certifies(a, c) && SignaturesMade(states[i].signed, a)
    requires Certifies(b, c) && SignaturesMade(states[j].signed, b)
    requires a.receipt.height == b.receipt.height
    requires HeavyQuorums(c, states[j].honest.Keys, a.receipt.executor, b.receipt.executor)
    ensures a.receipt == b.receipt
  {
    forall k | 0 <= k < |steps| ensures Fresh(states[k], steps[k]) { SequentialRunIsFresh(c, states, steps, k); }
    Agreement(c, states, steps, i, j, a, b);
  }

  /**
    What a submission does to a vote already cast for another node's receipt at the next height:
    the node will refuse a second receipt there exactly when the submission is not below that height.
   */
  lemma SubmissionKeepsVote(c: CommitteeCertificate, n: NodeId, node: Node, own: ExecutionReceipt, second: ExecutionReceipt)
    requires LoadLastVoted(node).Some? && node.handling.None?
    requires var v := LoadLastVoted(node).value;
             && v.receipt.executor != n && v.height == v.receipt.height == |node.log| + 1
             && second != v.receipt && second.executor != n && second.height == v.height
    requires HasSeat(c, n) && LeaderForHeight(c, second.height) == Some(second.executor)
    requires own.executor == n && 1 <= own.height <= |node.log| + 1
    ensures !MayVote(c, n, node, second)
    ensures MayVote(c, n, NextNode(node, Submit(n, own)), second) <==> own.height < LoadLastVoted(node).value.height
  {
  }

  // A run in which an overtaken submission lets a node vote twice

  function Receipt(p: ProgramId, height: u64, executor: NodeId, gas: nat): (r: ExecutionReceipt) {
    ExecutionReceipt(p, height, Empty, [], Blake3([]), gas, Empty, DigestOf([]), executor)
  }

  /** Nodes 0 and 1 lead heights 1 and 2; node 2 alone outweighs the threshold. */
  function Trio(p: ProgramId): (c: CommitteeCertificate) {
    CommitteeCertificate(p, 0, [Member(0, 1, 0), Member(1, 1, 1), Member(2, 10, 2)], 8)
  }

  function Certificate(r: ExecutionReceipt): (a: AggregatedReceipt) {
    AggregatedReceipt(r, 0, [4], multiset{Signature(2, r)})
  }

  lemma CertificateOfNode2(r: ExecutionReceipt)
    ensures Certifies(Certificate(r), Trio(r.programId))
  {
    var members, flags := Trio(r.programId).members, BitmapFlags([4], 3);
    assert !BitSet([4], 0) && !BitSet([4], 1) && BitSet([4], 2);
    assert flags[2] && !flags[..2][0] && !flags[..2][1];
    NobodyWeighsNothing(members[..2], flags[..2]);
    assert Weight(members, flags) == 10 && Keys(members, flags) == [2];
    SignedAlone(r, 2);
  }

  lemma SignedAlone(r: ExecutionReceipt, key: PublicKey)
    ensures Signed(r, [key]) == multiset{Signature(key, r)}
  {
  }

  lemma TrioIsHeavy(p: ProgramId)
    ensures HeavyQuorums(Trio(p), {2}, 1, 1)
  {
    var members := Trio(p).members;
    var all, bad := All(3), MayDoubleSign(Trio(p), {2}, 1, 1);
    assert all == [true, true, true] && bad == [true, true, false];
    assert members[..2][..1] == [members[0]] && members[..2][..1][..0] == [];
    assert Weight([members[0]], [true]) == 1 by {
      assert [members[0]][..0] == [] && [true][..0] == [];
    }
    assert all[..2][..1] == [true] && bad[..2][..1] == [true];
    assert Weight(members[..2], all[..2]) == 2 && Weight(members[..2], bad[..2]) == 2;
    assert Weight(members, all) == 12 && Weight(members, bad) == 2;
  }

  lemma Node2HasSeat(p: ProgramId)
    ensures HasSeat(Trio(p), 2)
    ensures LeaderForHeight(Trio(p), 1) == Some(0) && LeaderForHeight(Trio(p), 2) == Some(1)
  {
    assert Trio(p).members[2].node == 2 && Trio(p).members[2].key == 2;
  }

  /**
    Freshness cannot be dropped: node 2 votes at height 2, a submission it started at height 1
    then overwrites its last vote, and it votes at height 2 again.  Both receipts are certified.
   */
  lemma OvertakenSubmissionBreaksAgreement(p: ProgramId)
      returns (states: seq<System>, steps: seq<Step>, a: AggregatedReceipt, b: AggregatedReceipt)
    ensures IsRun(Trio(p), states, steps)
    ensures Certifies(a, Trio(p)) && SignaturesMade(states[|steps|].signed, a)
    ensures Certifies(b, Trio(p)) && SignaturesMade(states[|steps|].signed, b)
    ensures HeavyQuorums(Trio(p), states[|steps|].honest.Keys, a.receipt.executor, b.receipt.executor)
    ensures a.receipt.height == b.receipt.height && a.receipt != b.receipt
  {
    Node2HasSeat(p);
    TrioIsHeavy(p);
    var r1, r2, own, r2' := Receipt(p, 1, 0, 0), Receipt(p, 2, 1, 0), Receipt(p, 1, 2, 0), Receipt(p, 2, 1, 1);
    CertificateOfNode2(r1);
    CertificateOfNode2(r2);
    CertificateOfNode2(r2');
    a, b := Certificate(r2), Certificate(r2');
    states, steps := [System(map[2 := Node(None, None, None, [])], {})], [];
    states, steps := VoteNext(Trio(p), states, steps, 2, r1);
    states, steps := TakeStep(Trio(p), states, steps, Commit(2, Certificate(r1)));
    states, steps := VoteNext(Trio(p), states, steps, 2, r2);
    states, steps := TakeStep(Trio(p), states, steps, Submit(2, own));
    states, steps := VoteNext(Trio(p), states, steps, 2, r2');
    assert states[|steps|].honest.Keys == {2};
  }

  lemma TakeStep(c: CommitteeCertificate, states: seq<System>, steps: seq<Step>, step: Step)
      returns (states': seq<System>, steps': seq<Step>)
    requires IsRun(c, states, steps) && Enabled(c, states[|steps|], step)
    ensures IsRun(c, states', steps') && |steps'| == |steps| + 1
    ensures states'[|steps'|] == Next(c, states[|steps|], step)
  {
    states', steps' := states + [Next(c, states[|steps|], step)], steps + [step];
  }

  /** A node handles a proposal from start to end. */
  lemma VoteNext(c: CommitteeCertificate, states: seq<System>, steps: seq<Step>, n: NodeId, r: ExecutionReceipt)
      returns (states': seq<System>, steps': seq<Step>)
    requires IsRun(c, states, steps)
    requires var s := states[|steps|]; n in s.honest && s.honest[n].handling.None? && MayVote(c, n, s.honest[n], r)
    ensures IsRun(c, states', steps')
    ensures var s := states[|steps|];
            states'[|steps'|] == System(s.honest[n := StoreLastVoted(s.honest[n], r)], s.signed + {(n, r)})
  {
    states', steps' := TakeStep(c, states, steps, BeginVote(n, r));
    states', steps' := TakeStep(c, states', steps', FinishVote(n));
    var s := states[|steps|];
    assert states'[|steps'|].honest == s.honest[n := StoreLastVoted(s.honest[n], r)];
  }
}
