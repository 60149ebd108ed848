/**
  Forwarding an execution to the leader (`forward_execution_to_leader` in
  src/consensus/core/execution.rs): candidates are asked in turn, and an answer may send the
  search somewhere else.
 */
module LeaderForwarding {
  import opened Wrappers
  import opened Committee

  datatype Reply = NoAnswer | Outcome | Redirect(leader: NodeId) | Refused

  datatype Result = Executed | RunLocally | Failed

  const EXTRA_ATTEMPTS: nat := 8

  ghost predicate Distinct(nodes: seq<NodeId>) {
    forall i, j :: 0 <= i < j < |nodes| ==> nodes[i] != nodes[j]
  }

  /** What the network answers: the reply to each request, by its number and whom it went to. */
  type Answers = (nat, NodeId) -> Reply

  /** A candidate, or a node that one of the nodes asked pointed to. */
  ghost predicate Known(members: seq<Member>, hint: NodeId, answers: Answers, asked: seq<NodeId>, n: NodeId) {
    n in Candidates(members, hint) || exists i :: 0 <= i < |asked| && answers(i, asked[i]) == Redirect(n)
  }

  /** The last node asked gave this answer, and it ended the search. */
  ghost predicate Ended(answers: Answers, asked: seq<NodeId>, reply: Reply) {
    asked != [] && answers(|asked| - 1, asked[|asked| - 1]) == reply
  }

  /** The hinted leader first, then the other members in order. */
  function Candidates(members: seq<Member>, hint: NodeId): (r: seq<NodeId>)
    ensures r != [] && r[0] == hint
    ensures forall m :: m in members ==> m.node in r
  {
    [hint] + Others(members, hint)
  }

  function Others(members: seq<Member>, hint: NodeId): (r: seq<NodeId>)
    ensures forall n :: n in r <==> n != hint && exists m :: m in members && m.node == n
  {
    if members == [] then []
    else
      var front, last := members[..|members| - 1], members[|members| - 1];
      assert members == front + [last];
      Others(front, hint) + if last.node == hint then [] else [last.node]
  }

  /** The other members are tried in the order in which the committee names them. */
  lemma {:induction false} OthersInOrder(members: seq<Member>, hint: NodeId, i: nat, j: nat) returns (a: nat, b: nat)
    requires i < j < |members| && members[i].node != hint && members[j].node != hint
    ensures a < b < |Others(members, hint)| && Others(members, hint)[a] == members[i].node && Others(members, hint)[b] == members[j].node
  {
    var n := |members| - 1;
    if j < n {
      a, b := OthersInOrder(members[..n], hint, i, j);
    } else {
      a := OtherIsThere(members[..n], hint, i);
      b := |Others(members[..n], hint)|;
    }
  }

  lemma {:induction false} OtherIsThere(members: seq<Member>, hint: NodeId, i: nat) returns (a: nat)
    requires i < |members| && members[i].node != hint
    ensures a < |Others(members, hint)| && Others(members, hint)[a] == members[i].node
  {
    var n := |members| - 1;
    if i < n {
      a := OtherIsThere(members[..n], hint, i);
    } else {
      a := |Others(members[..n], hint)|;
    }
  }

  /** The candidate whose turn it is: all before it have been asked. */
  ghost predicate NextCandidate(members: seq<Member>, hint: NodeId, asked: seq<NodeId>, n: NodeId) {
    n !in asked
    && exists c :: 0 <= c < |Candidates(members, hint)| && Candidates(members, hint)[c] == n
                   && forall d :: 0 <= d < c ==> Candidates(members, hint)[d] in asked
  }

  /** The last answer points to a node that has not been asked. */
  ghost predicate Redirected(answers: Answers, asked: seq<NodeId>) {
    && asked != [] && answers(|asked| - 1, asked[|asked| - 1]).Redirect?
    && answers(|asked| - 1, asked[|asked| - 1]).leader !in asked
  }

  /** Where the search goes after these requests: where the last answer points, or on through the candidates. */
  ghost predicate NextTarget(members: seq<Member>, hint: NodeId, answers: Answers, asked: seq<NodeId>, n: NodeId) {
    if Redirected(answers, asked) then answers(|asked| - 1, asked[|asked| - 1]).leader == n
    else NextCandidate(members, hint, asked, n)
  }

  /** Every request went where the search had to go. */
  ghost predicate InTurn(members: seq<Member>, hint: NodeId, answers: Answers, asked: seq<NodeId>) {
    forall k :: 0 <= k < |asked| ==> NextTarget(members, hint, answers, asked[..k], asked[k])
  }

  lemma OneMoreInTurn(members: seq<Member>, hint: NodeId, answers: Answers, asked: seq<NodeId>, n: NodeId)
    requires InTurn(members, hint, answers, asked) && NextTarget(members, hint, answers, asked, n)
    ensures InTurn(members, hint, answers, asked + [n])
  {
    var all := asked + [n];
    forall k | 0 <= k < |all|
      ensures NextTarget(members, hint, answers, all[..k], all[k])
    {
      if k < |asked| { assert all[..k] == asked[..k]; } else { assert all[..k] == asked; }
    }
  }

  /** What is still to be tried: perhaps a node just pointed to, then the candidates from `c` on. */
  ghost predicate Plan(members: seq<Member>, hint: NodeId, answers: Answers, asked: seq<NodeId>, queue: seq<NodeId>, c: nat) {
    var candidates := Candidates(members, hint);
    && c <= |candidates|
    && (forall d :: 0 <= d < c ==> candidates[d] in asked)
    && if Redirected(answers, asked) then queue == [answers(|asked| - 1, asked[|asked| - 1]).leader] + candidates[c..]
       else queue == candidates[c..] || (queue != [] && queue[0] in asked && queue[1..] == candidates[c..])
  }

  lemma PlanGivesTarget(members: seq<Member>, hint: NodeId, answers: Answers, asked: seq<NodeId>, queue: seq<NodeId>, c: nat)
    requires Plan(members, hint, answers, asked, queue, c) && queue != [] && queue[0] !in asked
    ensures NextTarget(members, hint, answers, asked, queue[0])
  {
    if !Redirected(answers, asked) { assert queue[0] == Candidates(members, hint)[c]; }
  }

  /** A node already asked is skipped. */
  lemma PlanSkips(members: seq<Member>, hint: NodeId, answers: Answers, asked: seq<NodeId>, queue: seq<NodeId>, c: nat) returns (c': nat)
    requires Plan(members, hint, answers, asked, queue, c) && queue != [] && queue[0] in asked
    ensures Plan(members, hint, answers, asked, queue[1..], c')
  {
    c' := if queue == Candidates(members, hint)[c..] then c + 1 else c;
  }

  /** After a request the plan is what is left, with the node that the answer points to in front. */
  lemma PlanGoesOn(members: seq<Member>, hint: NodeId, answers: Answers, asked: seq<NodeId>, queue: seq<NodeId>, c: nat, reply: Reply)
      returns (c': nat)
    requires Plan(members, hint, answers, asked, queue, c) && queue != [] && queue[0] !in asked
    requires reply == answers(|asked|, queue[0]) && (reply.NoAnswer? || reply.Redirect?)
    ensures Plan(members, hint, answers, asked + [queue[0]], if reply.Redirect? then [reply.leader] + queue[1..] else queue[1..], c')
  {
    var candidates := Candidates(members, hint);
    c' := if Redirected(answers, asked) then c else c + 1;
    assert queue[1..] == candidates[c'..];
    assert (asked + [queue[0]])[|asked|] == queue[0];
  }

  lemma NothingPlanned(members: seq<Member>, hint: NodeId, answers: Answers, asked: seq<NodeId>, c: nat)
    requires Plan(members, hint, answers, asked, [], c)
    ensures forall n :: !NextTarget(members, hint, answers, asked, n)
  {
  }

  /** No node was asked twice, nor the node itself. */
  ghost predicate Visited(self: NodeId, asked: seq<NodeId>, attempted: set<NodeId>) {
    Distinct(asked) && self !in asked && forall n :: n in attempted <==> n in asked
  }

  lemma VisitOne(self: NodeId, asked: seq<NodeId>, attempted: set<NodeId>, n: NodeId)
    requires Visited(self, asked, attempted) && n !in attempted && n != self
    ensures Visited(self, asked + [n], attempted + {n})
  {
  }

  lemma LastAnswer(answers: Answers, asked: seq<NodeId>, n: NodeId, reply: Reply)
    ensures Ended(answers, asked + [n], reply) <==> reply == answers(|asked|, n)
  {
  }

  /** The state of the search, as long as no answer has ended it. */
  ghost predicate Underway(self: NodeId, members: seq<Member>, hint: NodeId, answers: Answers,
                           asked: seq<NodeId>, attempted: set<NodeId>, queue: seq<NodeId>, c: nat) {
    && Visited(self, asked, attempted)
    && Plan(members, hint, answers, asked, queue, c) && InTurn(members, hint, answers, asked)
    && !Ended(answers, asked, Outcome) && !Ended(answers, asked, Refused)
  }

  /** A request that does not end the search. */
  lemma AskOne(self: NodeId, members: seq<Member>, hint: NodeId, answers: Answers,
               asked: seq<NodeId>, attempted: set<NodeId>, queue: seq<NodeId>, c: nat, reply: Reply) returns (c': nat)
    requires Underway(self, members, hint, answers, asked, attempted, queue, c)
    requires queue != [] && queue[0] !in attempted && queue[0] != self
    requires reply == answers(|asked|, queue[0]) && (reply.NoAnswer? || reply.Redirect?)
    ensures Underway(self, members, hint, answers, asked + [queue[0]], attempted + {queue[0]},
                     if reply.Redirect? then [reply.leader] + queue[1..] else queue[1..], c')
  {
    PlanGivesTarget(members, hint, answers, asked, queue, c);
    OneMoreInTurn(members, hint, answers, asked, queue[0]);
    c' := PlanGoesOn(members, hint, answers, asked, queue, c, reply);
    VisitOne(self, asked, attempted, queue[0]);
    LastAnswer(answers, asked, queue[0], Outcome);
    LastAnswer(answers, asked, queue[0], Refused);
  }

  /** A request whose answer ends the search. */
  lemma AskLast(self: NodeId, members: seq<Member>, hint: NodeId, answers: Answers,
                asked: seq<NodeId>, attempted: set<NodeId>, queue: seq<NodeId>, c: nat)
    requires Underway(self, members, hint, answers, asked, attempted, queue, c)
    requires queue != [] && queue[0] !in attempted && queue[0] != self
    ensures var all := asked + [queue[0]];
            && Distinct(all) && self !in all && InTurn(members, hint, answers, all)
            && forall reply :: Ended(answers, all, reply) <==> reply == answers(|asked|, queue[0])
  {
    PlanGivesTarget(members, hint, answers, asked, queue, c);
    OneMoreInTurn(members, hint, answers, asked, queue[0]);
    VisitOne(self, asked, attempted, queue[0]);
    forall reply { LastAnswer(answers, asked, queue[0], reply); }
  }

  /** The loop: every request goes where the search has to go, until an answer ends it or there is nowhere left. */
  method Search(self: NodeId, members: seq<Member>, hint: NodeId, answers: Answers) returns (result: Result, asked: seq<NodeId>)
    ensures Distinct(asked) && self !in asked && |asked| <= |members| + EXTRA_ATTEMPTS
    ensures InTurn(members, hint, answers, asked)
    ensures result == Executed <==> Ended(answers, asked, Outcome)
    ensures result == RunLocally <==>
              && NextTarget(members, hint, answers, asked, self) && |asked| < |members| + EXTRA_ATTEMPTS
              && !Ended(answers, asked, Outcome) && !Ended(answers, asked, Refused)
    ensures result == Failed ==>
              || Ended(answers, asked, Refused)
              || |asked| == |members| + EXTRA_ATTEMPTS
              || forall n :: !NextTarget(members, hint, answers, asked, n)
  {
    var queue := Candidates(members, hint);
    var attempted: set<NodeId> := {};
    var maxAttempts := |members| + EXTRA_ATTEMPTS;
    asked := [];
    ghost var c := 0;
    while queue != []
      invariant |asked| <= maxAttempts && Underway(self, members, hint, answers, asked, attempted, queue, c)
      decreases maxAttempts - |asked|, |queue|
    {
      var target := queue[0];
      if target in attempted {
        c := PlanSkips(members, hint, answers, asked, queue, c);
        queue := queue[1..];
        continue;
      }
      if |asked| == maxAttempts {
        return Failed, asked;
      }
      if target == self {
        PlanGivesTarget(members, hint, answers, asked, queue, c);
        return RunLocally, asked;
      }
      var reply := answers(|asked|, target);
      if reply.Outcome? || reply.Refused? {
        AskLast(self, members, hint, answers, asked, attempted, queue, c);
        return if reply.Outcome? then Executed else Failed, asked + [target];
      }
      c := AskOne(self, members, hint, answers, asked, attempted, queue, c, reply);
      asked, attempted := asked + [target], attempted + {target};
      queue := if reply.Redirect? then [reply.leader] + queue[1..] else queue[1..];
    }
    NothingPlanned(members, hint, answers, asked, c);
    result := Failed;
  }

  /** There is only one place to go. */
  lemma OnlyTarget(members: seq<Member>, hint: NodeId, answers: Answers, asked: seq<NodeId>, a: NodeId, b: NodeId)
    requires NextTarget(members, hint, answers, asked, a) && NextTarget(members, hint, answers, asked, b)
    ensures a == b
  {
  }

  /** A target is a candidate, or a node that one of those asked pointed to. */
  lemma TargetIsKnown(members: seq<Member>, hint: NodeId, answers: Answers, asked: seq<NodeId>, n: NodeId)
    requires NextTarget(members, hint, answers, asked, n)
    ensures Known(members, hint, answers, asked, n)
  {
  }

  lemma KnownStays(members: seq<Member>, hint: NodeId, answers: Answers, asked: seq<NodeId>, k: nat, n: NodeId)
    requires k <= |asked| && Known(members, hint, answers, asked[..k], n)
    ensures Known(members, hint, answers, asked, n)
  {
    if n !in Candidates(members, hint) {
      var i :| 0 <= i < k && answers(i, asked[..k][i]) == Redirect(n);
      assert asked[..k][i] == asked[i];
    }
  }

  /** Nobody else is asked. */
  lemma AskedAreKnown(members: seq<Member>, hint: NodeId, answers: Answers, asked: seq<NodeId>, k: nat)
    requires InTurn(members, hint, answers, asked) && k < |asked|
    ensures Known(members, hint, answers, asked, asked[k])
  {
    TargetIsKnown(members, hint, answers, asked[..k], asked[k]);
    KnownStays(members, hint, answers, asked, k, asked[k]);
  }

  /** When there is nowhere to go, every candidate has been asked. */
  lemma {:induction false} AllAsked(members: seq<Member>, hint: NodeId, answers: Answers, asked: seq<NodeId>, c: nat)
    requires (forall n :: !NextTarget(members, hint, answers, asked, n)) && c < |Candidates(members, hint)|
    ensures Candidates(members, hint)[c] in asked
  {
    forall d | 0 <= d < c ensures Candidates(members, hint)[d] in asked { AllAsked(members, hint, answers, asked, d); }
    if Redirected(answers, asked) {
      assert NextTarget(members, hint, answers, asked, answers(|asked| - 1, asked[|asked| - 1]).leader);
    } else if Candidates(members, hint)[c] !in asked {
      assert NextTarget(members, hint, answers, asked, Candidates(members, hint)[c]);
    }
  }

  lemma EveryCandidateAsked(members: seq<Member>, hint: NodeId, answers: Answers, asked: seq<NodeId>)
    requires forall n :: !NextTarget(members, hint, answers, asked, n)
    ensures forall n :: n in Candidates(members, hint) ==> n in asked
  {
    forall c | 0 <= c < |Candidates(members, hint)|
      ensures Candidates(members, hint)[c] in asked
    {
      AllAsked(members, hint, answers, asked, c);
    }
  }

  lemma OnlyKnownAsked(members: seq<Member>, hint: NodeId, answers: Answers, asked: seq<NodeId>)
    requires InTurn(members, hint, answers, asked)
    ensures forall n :: n in asked ==> Known(members, hint, answers, asked, n)
  {
    forall k | 0 <= k < |asked| ensures Known(members, hint, answers, asked, asked[k]) { AskedAreKnown(members, hint, answers, asked, k); }
  }

  /**
    The search.  It ends for every sequence of answers, goes where an answer points unless that
    node was asked before, otherwise on through the candidates, asks no node twice, sends at most
    eight requests more than there are members, and never one to itself.
   */
  method Forward(self: NodeId, members: seq<Member>, hint: NodeId, answers: Answers) returns (result: Result, asked: seq<NodeId>)
    ensures Distinct(asked) && self !in asked && |asked| <= |members| + EXTRA_ATTEMPTS
    ensures InTurn(members, hint, answers, asked)
    ensures forall n :: n in asked ==> Known(members, hint, answers, asked, n)
    ensures result == Executed <==> Ended(answers, asked, Outcome)
    ensures result == RunLocally <==>
              && NextTarget(members, hint, answers, asked, self) && |asked| < |members| + EXTRA_ATTEMPTS
              && !Ended(answers, asked, Outcome) && !Ended(answers, asked, Refused)
    ensures result == RunLocally ==> Known(members, hint, answers, asked, self)
    ensures result == Failed ==>
              || Ended(answers, asked, Refused)
              || |asked| == |members| + EXTRA_ATTEMPTS
              || ((forall n :: !NextTarget(members, hint, answers, asked, n)) && forall n :: n in Candidates(members, hint) ==> n in asked)
  {
    result, asked := Search(self, members, hint, answers);
    OnlyKnownAsked(members, hint, answers, asked);
    if result == RunLocally { TargetIsKnown(members, hint, answers, asked, self); }
    if forall n :: !NextTarget(members, hint, answers, asked, n) { EveryCandidateAsked(members, hint, answers, asked); }
  }
}
