/**
  Who leads at which height (`leader_for_height` in src/consensus/core/network_handlers.rs and
  src/consensus/core/execution.rs).
 */
module LeaderRotation {
  import opened Wrappers
  import opened Chunking
  import opened Committee

  lemma RemainderOfRound(round: nat, i: nat, n: nat)
    requires i < n
    ensures (round * n + i) % n == i
  {
    DivModUnique(round * n + i, n, round, i);
  }

  /** In every round of as many heights as there are members, the members lead in their order. */
  lemma LeadersInTurn(committee: CommitteeCertificate, round: nat, i: nat)
    requires i < |committee.members|
    ensures LeaderForHeight(committee, round * |committee.members| + i + 1) == Some(committee.members[i].node)
  {
    RemainderOfRound(round, i, |committee.members|);
  }

  /** The members that lead, and when nobody does. */
  lemma LeaderIsMember(committee: CommitteeCertificate, height: nat) returns (round: nat, i: nat)
    requires committee.members != [] && height > 0
    ensures i < |committee.members| && height == round * |committee.members| + i + 1
    ensures LeaderForHeight(committee, height) == Some(committee.members[i].node)
  {
    var n := |committee.members|;
    round, i := (height - 1) / n, (height - 1) % n;
    LeadersInTurn(committee, round, i);
  }

  lemma LeaderRepeats(committee: CommitteeCertificate, height: nat)
    requires committee.members != [] && height > 0
    ensures LeaderForHeight(committee, height + |committee.members|) == LeaderForHeight(committee, height)
  {
    var round, i := LeaderIsMember(committee, height);
    var n := |committee.members|;
    assert (round + 1) * n + i + 1 == height + n;
    LeadersInTurn(committee, round + 1, i);
  }

  ghost predicate Leads(committee: CommitteeCertificate, start: nat, i: nat, height: nat)
    requires i < |committee.members|
  {
    start <= height < start + |committee.members| && LeaderForHeight(committee, height) == Some(committee.members[i].node)
  }

  lemma LeadsWithin(committee: CommitteeCertificate, start: nat, i: nat) returns (height: nat)
    requires i < |committee.members| && start > 0
    ensures Leads(committee, start, i, height)
  {
    var round, k := LeaderIsMember(committee, start);
    var n := |committee.members|;
    if i >= k {
      height := round * n + i + 1;
      LeadersInTurn(committee, round, i);
    } else {
      assert (round + 1) * n == round * n + n;
      height := (round + 1) * n + i + 1;
      LeadersInTurn(committee, round + 1, i);
    }
  }

  lemma NearRounds(a: nat, b: nat, n: nat, i: nat)
    requires a * n + i < b * n + i + n && b * n + i < a * n + i + n
    ensures a == b
  {
    if a < b { TimesMonotone(a + 1, b, n); }
    if b < a { TimesMonotone(b + 1, a, n); }
  }

  /** No member named once leads twice in as many heights as there are members. */
  lemma LeadsOnce(committee: CommitteeCertificate, start: nat, i: nat, g: nat, h: nat)
    requires DistinctMembers(committee.members) && start > 0 && i < |committee.members|
    requires Leads(committee, start, i, g) && Leads(committee, start, i, h)
    ensures g == h
  {
    var n := |committee.members|;
    var a, j := LeaderIsMember(committee, g);
    var b, k := LeaderIsMember(committee, h);
    assert j == i == k;
    NearRounds(a, b, n, i);
  }

  /** Without members, and at height zero, nobody leads. */
  lemma NobodyLeads(committee: CommitteeCertificate, height: nat)
    ensures LeaderForHeight(committee, height) == None <==> committee.members == [] || height == 0
  {
  }
}
