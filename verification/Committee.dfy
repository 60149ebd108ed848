/**
  Receipts, committees and quorum certificates (src/types.rs, src/consensus/core/receipt_verifier.rs,
  the certificate code of src/consensus/core/network_handlers.rs).

  Signatures are ideal: a signature records its key and what was signed, an aggregate is the
  multiset of its parts, and a public key is identified with the node that holds its secret.
  Hashing a receipt is injective, so a receipt stands for its own id.
 */
module Committee {
  import opened Wrappers
  import opened Crypto
  import opened SparseMerkle
  import opened StateStorage

  type NodeId = nat
  type PublicKey = NodeId

  const U64_MAX: nat := 0xFFFF_FFFF_FFFF_FFFF
  const MAX_COMMITTEE_SIZE: nat := 1000
  const MAX_BITMAP_SIZE: nat := 128

  type u32 = n: nat | n < 0x1_0000_0000
  type u64 = n: nat | n <= U64_MAX

  datatype ExecutionReceipt = ExecutionReceipt(
    programId: ProgramId,
    height: u64,
    stateRootIn: Digest,
    calldata: Bytes,
    inputsHash: ContentHash,
    gasUsed: nat,
    stateRootOut: Digest,
    writeDigest: WriteDigest,
    executor: NodeId)

  /** The hash of an encoded list of writes. */
  datatype WriteDigest = DigestOf(writes: seq<StateWrite>)

  datatype Member = Member(node: NodeId, weight: u64, key: PublicKey)

  datatype CommitteeCertificate = CommitteeCertificate(
    programId: ProgramId,
    epoch: nat,
    members: seq<Member>,
    threshold: u32)

  datatype Signature = Signature(key: PublicKey, receipt: ExecutionReceipt)

  datatype AggregatedReceipt = AggregatedReceipt(
    receipt: ExecutionReceipt,
    epoch: nat,
    bitmap: seq<bv8>,
    signature: multiset<Signature>)

  datatype Bundle = Bundle(
    aggregated: AggregatedReceipt,
    committee: CommitteeCertificate,
    writes: seq<StateWrite>)

  datatype PendingTransition = PendingTransition(
    committee: CommitteeCertificate,
    receipt: ExecutionReceipt,
    writes: seq<StateWrite>,
    signatures: map<NodeId, Signature>)

  /** The rotating leader of a height. */
  function LeaderForHeight(committee: CommitteeCertificate, height: nat): (r: Option<NodeId>) {
    if committee.members == [] || height == 0 then None
    else Some(committee.members[(height - 1) % |committee.members|].node)
  }

  // ------------------------------------------------------------------------------------------
  // Sets of members, as one flag per member
  // ------------------------------------------------------------------------------------------

  /** The exact weight of the flagged members. */
  ghost function Weight(members: seq<Member>, flags: seq<bool>): (w: nat)
    requires |flags| == |members|
  {
    if members == [] then 0
    else
      var n := |members| - 1;
      Weight(members[..n], flags[..n]) + (if flags[n] then members[n].weight else 0)
  }

  /** The keys of the flagged members, in member order. */
  ghost function Keys(members: seq<Member>, flags: seq<bool>): (r: seq<PublicKey>)
    requires |flags| == |members|
  {
    if members == [] then []
    else
      var n := |members| - 1;
      Keys(members[..n], flags[..n]) + (if flags[n] then [members[n].key] else [])
  }

  lemma TakeOneMore(members: seq<Member>, flags: seq<bool>, i: nat)
    requires |flags| == |members| && i < |members|
    ensures Weight(members[..i + 1], flags[..i + 1])
            == Weight(members[..i], flags[..i]) + (if flags[i] then members[i].weight else 0)
    ensures Keys(members[..i + 1], flags[..i + 1])
            == Keys(members[..i], flags[..i]) + (if flags[i] then [members[i].key] else [])
  {
    assert members[..i + 1][..i] == members[..i] && flags[..i + 1][..i] == flags[..i];
  }

  /** The sum of signatures a receipt needs from the given keys. */
  ghost function Signed(receipt: ExecutionReceipt, keys: seq<PublicKey>): (r: multiset<Signature>) {
    if keys == [] then multiset{}
    else Signed(receipt, keys[..|keys| - 1]) + multiset{Signature(keys[|keys| - 1], receipt)}
  }

  /** u64 addition in the code saturates. */
  function Saturate(n: nat): (r: u64) {
    if n > U64_MAX then U64_MAX else n
  }

  function SaturatingAdd(a: u64, b: u64): (r: u64)
    ensures r == Saturate(a + b)
  {
    if a + b > U64_MAX then U64_MAX else a + b
  }

  /** A saturating running sum is the saturated exact sum. */
  lemma RunningWeight(members: seq<Member>, flags: seq<bool>, i: nat)
    requires |flags| == |members| && i < |members|
    ensures Saturate(Weight(members[..i + 1], flags[..i + 1]))
            == if flags[i] then SaturatingAdd(Saturate(Weight(members[..i], flags[..i])), members[i].weight)
               else Saturate(Weight(members[..i], flags[..i]))
  {
    TakeOneMore(members, flags, i);
  }

  ghost function All(n: nat): (r: seq<bool>) {
    seq(n, _ => true)
  }

  ghost function Both(a: seq<bool>, b: seq<bool>): (r: seq<bool>)
    requires |a| == |b|
  {
    seq(|a|, i requires 0 <= i < |a| => a[i] && b[i])
  }

  ghost function TotalWeight(members: seq<Member>): (w: nat) {
    Weight(members, All(|members|))
  }

  lemma {:induction false} WeightMonotone(members: seq<Member>, a: seq<bool>, b: seq<bool>)
    requires |a| == |b| == |members|
    requires forall i :: 0 <= i < |a| ==> a[i] ==> b[i]
    ensures Weight(members, a) <= Weight(members, b)
  {
    if members != [] {
      var n := |members| - 1;
      WeightMonotone(members[..n], a[..n], b[..n]);
    }
  }

  lemma {:induction false} InclusionExclusion(members: seq<Member>, a: seq<bool>, b: seq<bool>)
    requires |a| == |b| == |members|
    ensures Weight(members, a) + Weight(members, b) <= TotalWeight(members) + Weight(members, Both(a, b))
  {
    if members != [] {
      var n := |members| - 1;
      InclusionExclusion(members[..n], a[..n], b[..n]);
      assert Both(a, b)[..n] == Both(a[..n], b[..n]);
      assert All(n + 1)[..n] == All(n);
    }
  }

  /** Two quorums heavy enough to outweigh the excluded members share one that is not excluded. */
  lemma QuorumsIntersect(members: seq<Member>, a: seq<bool>, b: seq<bool>, excluded: seq<bool>, threshold: nat)
    requires |a| == |b| == |excluded| == |members|
    requires Weight(members, a) >= threshold && Weight(members, b) >= threshold
    requires 2 * threshold > TotalWeight(members) + Weight(members, excluded)
    ensures exists i :: 0 <= i < |members| && a[i] && b[i] && !excluded[i]
  {
    InclusionExclusion(members, a, b);
    if forall i :: 0 <= i < |members| && a[i] && b[i] ==> excluded[i] {
      WeightMonotone(members, Both(a, b), excluded);
    }
  }

  // ------------------------------------------------------------------------------------------
  // The bitmap
  // ------------------------------------------------------------------------------------------

  predicate BitSet(bitmap: seq<bv8>, i: nat)
    requires i / 8 < |bitmap|
  {
    (bitmap[i / 8] >> (i % 8)) & 1 == 1
  }

  ghost function BitmapFlags(bitmap: seq<bv8>, n: nat): (r: seq<bool>)
    requires (n + 7) / 8 <= |bitmap|
  {
    seq(n, i requires 0 <= i < n => BitSet(bitmap, i))
  }

  /** `select_signers`: the keys and weight of the members whose bit is set. */
  method SelectSigners(committee: CommitteeCertificate, bitmap: seq<bv8>) returns (keys: seq<PublicKey>, weight: u64)
    requires (|committee.members| + 7) / 8 <= |bitmap|
    ensures var flags := BitmapFlags(bitmap, |committee.members|);
            keys == Keys(committee.members, flags) && weight == Saturate(Weight(committee.members, flags))
  {
    var members := committee.members;
    ghost var flags := BitmapFlags(bitmap, |members|);
    keys, weight := [], 0;
    for i := 0 to |members|
      invariant keys == Keys(members[..i], flags[..i])
      invariant weight == Saturate(Weight(members[..i], flags[..i]))
    {
      TakeOneMore(members, flags, i);
      RunningWeight(members, flags, i);
      if BitSet(bitmap, i) {
        keys := keys + [members[i].key];
        weight := SaturatingAdd(weight, members[i].weight);
      }
    }
    assert members[..|members|] == members && flags[..|members|] == flags;
  }

  // ------------------------------------------------------------------------------------------
  // Verification
  // ------------------------------------------------------------------------------------------

  datatype Verdict =
    | Accepted
    | ProgramMismatch
    | EpochMismatch
    | CommitteeTooLarge
    | InvalidBitmapSize
    | NoSigners
    | InsufficientWeight
    | InvalidSignature

  /** What a certificate means: members of the stored committee weighing the threshold signed the receipt. */
  ghost predicate Certifies(aggregated: AggregatedReceipt, committee: CommitteeCertificate) {
    var members, bitmap := committee.members, aggregated.bitmap;
    && aggregated.receipt.programId == committee.programId
    && aggregated.epoch == committee.epoch
    && |members| <= MAX_COMMITTEE_SIZE
    && (|members| + 7) / 8 <= |bitmap| <= MAX_BITMAP_SIZE
    && var flags := BitmapFlags(bitmap, |members|);
       && Weight(members, flags) > 0
       && Weight(members, flags) >= committee.threshold
       && aggregated.signature == Signed(aggregated.receipt, Keys(members, flags))
  }

  /** A certificate is for one program, one epoch and a committee that fits its bitmap. */
  lemma CertifiesOneEpoch(a: AggregatedReceipt, c: CommitteeCertificate, d: CommitteeCertificate)
    requires Certifies(a, c) && Certifies(a, d)
    ensures c.programId == d.programId == a.receipt.programId && c.epoch == d.epoch == a.epoch
    ensures |c.members| <= 8 * |a.bitmap| <= 1024 && |c.members| <= 1000
  {
  }

  /** Member `i` has bit `i % 8`, counted from the least significant one, of byte `i / 8`. */
  lemma BitOfMember(n: nat, i: nat)
    requires i / 8 < n
    ensures var b := Mark(Blank(n), i)[i / 8];
            match i % 8
            case 0 => b == 1 case 1 => b == 2 case 2 => b == 4 case 3 => b == 8
            case 4 => b == 16 case 5 => b == 32 case 6 => b == 64 case _ => b == 128
  {
  }

  method AggregateOf(receipt: ExecutionReceipt, keys: seq<PublicKey>) returns (r: multiset<Signature>)
    ensures r == Signed(receipt, keys)
  {
    r := multiset{};
    for i := 0 to |keys|
      invariant r == Signed(receipt, keys[..i])
    {
      assert keys[..i + 1][..i] == keys[..i];
      r := r + multiset{Signature(keys[i], receipt)};
    }
    assert keys[..|keys|] == keys;
  }

  method VerifyAggregatedReceipt(aggregated: AggregatedReceipt, committee: CommitteeCertificate) returns (v: Verdict)
    ensures v == Accepted <==> Certifies(aggregated, committee)
    ensures v == ProgramMismatch <==> aggregated.receipt.programId != committee.programId
    ensures v == EpochMismatch <==> aggregated.receipt.programId == committee.programId && aggregated.epoch != committee.epoch
    ensures v == CommitteeTooLarge ==> |committee.members| > 1000
    ensures v == InvalidBitmapSize ==> |aggregated.bitmap| > 128 || 8 * |aggregated.bitmap| < |committee.members| <= 1000
    ensures v in {NoSigners, InsufficientWeight, InvalidSignature} ==>
              && (|committee.members| + 7) / 8 <= |aggregated.bitmap|
              && var flags := BitmapFlags(aggregated.bitmap, |committee.members|);
                 && (v == NoSigners <==> Weight(committee.members, flags) == 0)
                 && (v == InvalidSignature ==> Weight(committee.members, flags) >= committee.threshold)
                 && (v == InvalidSignature ==> aggregated.signature != Signed(aggregated.receipt, Keys(committee.members, flags)))
                 && (v == InsufficientWeight ==> 0 < Weight(committee.members, flags) < committee.threshold)
  {
    if aggregated.receipt.programId != committee.programId {
      return ProgramMismatch;
    }
    if aggregated.epoch != committee.epoch {
      return EpochMismatch;
    }
    if |committee.members| > MAX_COMMITTEE_SIZE {
      return CommitteeTooLarge;
    }
    var expected := (|committee.members| + 7) / 8;
    if |aggregated.bitmap| > MAX_BITMAP_SIZE || |aggregated.bitmap| < expected {
      return InvalidBitmapSize;
    }
    var keys, weight := SelectSigners(committee, aggregated.bitmap);
    if keys == [] || weight == 0 {
      NoKeysNoWeight(committee.members, BitmapFlags(aggregated.bitmap, |committee.members|));
      return NoSigners;
    }
    if weight < committee.threshold {
      return InsufficientWeight;
    }
    var needed := AggregateOf(aggregated.receipt, keys);
    if aggregated.signature != needed {
      return InvalidSignature;
    }
    v := Accepted;
  }

  lemma {:induction false} NoKeysNoWeight(members: seq<Member>, flags: seq<bool>)
    requires |flags| == |members|
    ensures Keys(members, flags) == [] ==> Weight(members, flags) == 0
  {
    if members != [] {
      var n := |members| - 1;
      NoKeysNoWeight(members[..n], flags[..n]);
    }
  }

  lemma SignedStep(members: seq<Member>, flags: seq<bool>, receipt: ExecutionReceipt)
    requires |flags| == |members| > 0
    ensures var n := |members| - 1;
            Signed(receipt, Keys(members, flags))
            == Signed(receipt, Keys(members[..n], flags[..n]))
               + (if flags[n] then multiset{Signature(members[n].key, receipt)} else multiset{})
  {
    var n := |members| - 1;
    var front, keys := Keys(members[..n], flags[..n]), Keys(members, flags);
    if flags[n] {
      assert keys == front + [members[n].key];
      assert keys[..|keys| - 1] == front;
    } else {
      assert keys == front;
    }
  }

  /** A certificate carries a signature of every flagged member's key, and of no other key. */
  lemma {:induction false} FlaggedKeysSigned(members: seq<Member>, flags: seq<bool>, receipt: ExecutionReceipt, i: nat)
    requires |flags| == |members| && i < |members| && flags[i]
    ensures Signature(members[i].key, receipt) in Signed(receipt, Keys(members, flags))
  {
    var n := |members| - 1;
    SignedStep(members, flags, receipt);
    if i < n {
      FlaggedKeysSigned(members[..n], flags[..n], receipt, i);
    }
  }

  // ------------------------------------------------------------------------------------------
  // Collecting votes and forming the certificate
  // ------------------------------------------------------------------------------------------

  predicate DistinctMembers(members: seq<Member>) {
    forall i, j :: 0 <= i < j < |members| ==> members[i].node != members[j].node
  }

  /** Every stored vote is by a member, and signs this receipt with that member's key. */
  ghost predicate AcceptedVotes(entry: PendingTransition) {
    forall n :: n in entry.signatures ==>
      exists i :: 0 <= i < |entry.committee.members| && entry.committee.members[i].node == n
                  && entry.signatures[n] == Signature(entry.committee.members[i].key, entry.receipt)
  }

  ghost function VoteFlags(members: seq<Member>, voters: set<NodeId>): (r: seq<bool>)
    ensures |r| == |members|
  {
    seq(|members|, i requires 0 <= i < |members| => members[i].node in voters)
  }

  /** Counting each voter once, at the first member entry that names it. */
  ghost function FirstVoteFlags(members: seq<Member>, voters: set<NodeId>): (r: seq<bool>)
    ensures |r| == |members|
  {
    seq(|members|, i requires 0 <= i < |members| =>
      members[i].node in voters && forall j :: 0 <= j < i ==> members[j].node != members[i].node)
  }

  lemma FirstVotesOfDistinct(members: seq<Member>, voters: set<NodeId>)
    requires DistinctMembers(members)
    ensures FirstVoteFlags(members, voters) == VoteFlags(members, voters)
  {
  }

  lemma {:induction false} WeightWithOneMore(members: seq<Member>, a: seq<bool>, b: seq<bool>, i: nat)
    requires |a| == |b| == |members| && i < |members| && !a[i] && b == a[i := true]
    ensures Weight(members, b) == Weight(members, a) + members[i].weight
  {
    var n := |members| - 1;
    if i < n {
      assert b[..n] == a[..n][i := true];
      WeightWithOneMore(members[..n], a[..n], b[..n], i);
    } else {
      assert b[..n] == a[..n];
    }
  }

  lemma FirstVotesWeighLess(members: seq<Member>, voters: set<NodeId>)
    ensures Weight(members, FirstVoteFlags(members, voters)) <= Weight(members, VoteFlags(members, voters))
    ensures DistinctMembers(members) ==> FirstVoteFlags(members, voters) == VoteFlags(members, voters)
  {
    WeightMonotone(members, FirstVoteFlags(members, voters), VoteFlags(members, voters));
    if DistinctMembers(members) { FirstVotesOfDistinct(members, voters); }
  }

  lemma CountVoter(members: seq<Member>, voters: set<NodeId>, i: nat)
    requires i < |members| && members[i].node !in voters
    requires forall j :: 0 <= j < i ==> members[j].node != members[i].node
    ensures Weight(members, FirstVoteFlags(members, voters + {members[i].node}))
            == Weight(members, FirstVoteFlags(members, voters)) + members[i].weight
  {
    var a, b := FirstVoteFlags(members, voters), FirstVoteFlags(members, voters + {members[i].node});
    assert b == a[i := true];
    WeightWithOneMore(members, a, b, i);
  }

  lemma StrangersWeighNothing(members: seq<Member>, voters: set<NodeId>, n: NodeId)
    requires forall i :: 0 <= i < |members| ==> members[i].node != n
    ensures FirstVoteFlags(members, voters + {n}) == FirstVoteFlags(members, voters)
  {
  }

  method FindMember(members: seq<Member>, node: NodeId) returns (index: Option<nat>)
    ensures index.None? ==> forall i :: 0 <= i < |members| ==> members[i].node != node
    ensures index.Some? ==> index.value < |members| && members[index.value].node == node
                            && forall i :: 0 <= i < index.value ==> members[i].node != node
  {
    for i := 0 to |members|
      invariant forall j :: 0 <= j < i ==> members[j].node != node
    {
      if members[i].node == node {
        return Some(i);
      }
    }
    index := None;
  }

  /** `signer_weight`: a saturating sum over the voters, in whatever order they are visited. */
  method SignerWeight(committee: CommitteeCertificate, voters: set<NodeId>) returns (weight: u64)
    ensures weight == Saturate(Weight(committee.members, FirstVoteFlags(committee.members, voters)))
  {
    var members := committee.members;
    weight := 0;
    var todo := voters;
    NobodyWeighsNothing(members, FirstVoteFlags(members, {}));
    assert voters - todo == {};
    while todo != {}
      invariant todo <= voters
      invariant weight == Saturate(Weight(members, FirstVoteFlags(members, voters - todo)))
      decreases |todo|
    {
      var voter :| voter in todo;
      var found := FindMember(members, voter);
      ghost var counted := voters - todo;
      if found.Some? {
        CountVoter(members, counted, found.value);
        weight := SaturatingAdd(weight, members[found.value].weight);
      } else {
        StrangersWeighNothing(members, counted, voter);
      }
      todo := todo - {voter};
      assert voters - todo == counted + {voter};
    }
    assert voters - todo == voters;
  }

  lemma {:induction false} NobodyWeighsNothing(members: seq<Member>, flags: seq<bool>)
    requires |flags| == |members| && forall i :: 0 <= i < |flags| ==> !flags[i]
    ensures Weight(members, flags) == 0 && Keys(members, flags) == []
  {
    if members != [] {
      var n := |members| - 1;
      NobodyWeighsNothing(members[..n], flags[..n]);
    }
  }

  datatype VoteOutcome = Ignored | Pending(entry: PendingTransition) | Finalizing(entry: PendingTransition)

  /** A vote for this transition, the first by its signer, that signs the receipt with that member's key. */
  ghost predicate GoodVote(entry: PendingTransition, programId: ProgramId, epoch: nat, signer: NodeId, signature: Signature) {
    && programId == entry.receipt.programId && epoch == entry.committee.epoch && signer !in entry.signatures
    && exists i :: IsFirst(entry.committee.members, signer, i)
                   && signature == Signature(entry.committee.members[i].key, entry.receipt)
  }

  ghost predicate IsFirst(members: seq<Member>, node: NodeId, i: int) {
    0 <= i < |members| && members[i].node == node && forall j :: 0 <= j < i ==> members[j].node != node
  }

  /** A vote counts for one program and epoch, once, and with one signature. */
  lemma VoteIsForOne(entry: PendingTransition, p: ProgramId, e: nat, p': ProgramId, e': nat, signer: NodeId, s: Signature, s': Signature)
    requires GoodVote(entry, p, e, signer, s) && GoodVote(entry, p', e', signer, s')
    ensures p == p' == entry.receipt.programId && e == e' == entry.committee.epoch && s == s' && s.receipt == entry.receipt
    ensures !GoodVote(entry.(signatures := entry.signatures[signer := s]), p, e, signer, s')
  {
  }

  /** `handle_state_transition_vote`, on the pending entry it finds. */
  method HandleVote(entry: PendingTransition, programId: ProgramId, epoch: nat, signer: NodeId, signature: Signature)
      returns (outcome: VoteOutcome)
    requires AcceptedVotes(entry)
    ensures outcome.Ignored? <==> !GoodVote(entry, programId, epoch, signer, signature)
    ensures !outcome.Ignored? ==>
              && outcome.entry == entry.(signatures := entry.signatures[signer := signature])
              && signer !in entry.signatures
              && AcceptedVotes(outcome.entry)
    ensures outcome.Finalizing? <==>
              && GoodVote(entry, programId, epoch, signer, signature)
              && Weight(entry.committee.members, FirstVoteFlags(entry.committee.members, entry.signatures.Keys + {signer}))
                 >= entry.committee.threshold
    ensures outcome.Finalizing? ==> QuorumReached(outcome.entry)
    ensures outcome.Pending? && DistinctMembers(entry.committee.members) ==> !QuorumReached(outcome.entry)
  {
    if programId != entry.receipt.programId || epoch != entry.committee.epoch {
      return Ignored;
    }
    var found := FindMember(entry.committee.members, signer);
    if found.None? || signer in entry.signatures {
      return Ignored;
    }
    assert IsFirst(entry.committee.members, signer, found.value);
    if signature != Signature(entry.committee.members[found.value].key, entry.receipt) {
      return Ignored;
    }
    var updated := entry.(signatures := entry.signatures[signer := signature]);
    var weight := SignerWeight(entry.committee, updated.signatures.Keys);
    assert updated.signatures.Keys == entry.signatures.Keys + {signer};
    FirstVotesWeighLess(entry.committee.members, updated.signatures.Keys);
    outcome := if weight >= entry.committee.threshold then Finalizing(updated) else Pending(updated);
  }

  ghost predicate QuorumReached(entry: PendingTransition) {
    Weight(entry.committee.members, VoteFlags(entry.committee.members, entry.signatures.Keys)) >= entry.committee.threshold
  }

  /** The stored signatures of the flagged members, in member order. */
  ghost function VotesCast(members: seq<Member>, signatures: map<NodeId, Signature>): (r: multiset<Signature>) {
    if members == [] then multiset{}
    else
      var n := |members| - 1;
      VotesCast(members[..n], signatures)
      + (if members[n].node in signatures then multiset{signatures[members[n].node]} else multiset{})
  }

  /** One pass over the members builds bitmap, aggregate and weight. */
  method TallySigners(members: seq<Member>, votes: map<NodeId, Signature>)
      returns (bitmap: seq<bv8>, signatures: multiset<Signature>, weight: u64)
    ensures |bitmap| == (|members| + 7) / 8 && BitmapFlags(bitmap, |members|) == VoteFlags(members, votes.Keys)
    ensures signatures == VotesCast(members, votes)
    ensures weight == Saturate(Weight(members, VoteFlags(members, votes.Keys)))
  {
    ghost var flags := VoteFlags(members, votes.Keys);
    bitmap := Blank((|members| + 7) / 8);
    BlankIsUnmarked(flags);
    signatures := multiset{};
    weight := 0;
    for i := 0 to |members|
      invariant |bitmap| == (|members| + 7) / 8 && MarkedUpTo(bitmap, flags, i)
      invariant signatures == VotesCast(members[..i], votes)
      invariant weight == Saturate(Weight(members[..i], flags[..i]))
    {
      RunningWeight(members, flags, i);
      CastOneMore(members, votes, i);
      MarkNext(bitmap, flags, i);
      assert flags[i] <==> members[i].node in votes;
      if members[i].node in votes {
        bitmap := Mark(bitmap, i);
        signatures := signatures + multiset{votes[members[i].node]};
        weight := SaturatingAdd(weight, members[i].weight);
      }
    }
    assert members[..|members|] == members && flags[..|members|] == flags;
    MarkedAll(bitmap, flags);
  }

  lemma CastOneMore(members: seq<Member>, votes: map<NodeId, Signature>, i: nat)
    requires i < |members|
    ensures VotesCast(members[..i + 1], votes)
            == VotesCast(members[..i], votes) + (if members[i].node in votes then multiset{votes[members[i].node]} else multiset{})
  {
    assert members[..i + 1][..i] == members[..i];
  }

  /** `finalize_transition`: the certificate, unless the votes fall short or there are none to aggregate. */
  method FormCertificate(entry: PendingTransition) returns (bundle: Option<Bundle>)
    ensures bundle.Some? <==> QuorumReached(entry) && VotesCast(entry.committee.members, entry.signatures) != multiset{}
    ensures bundle.Some? ==>
              var members := entry.committee.members;
              && bundle.value.committee == entry.committee && bundle.value.writes == entry.writes
              && bundle.value.aggregated.receipt == entry.receipt && bundle.value.aggregated.epoch == entry.committee.epoch
              && |bundle.value.aggregated.bitmap| == (|members| + 7) / 8
              && BitmapFlags(bundle.value.aggregated.bitmap, |members|) == VoteFlags(members, entry.signatures.Keys)
              && bundle.value.aggregated.signature == VotesCast(members, entry.signatures)
  {
    var bitmap, signatures, weight := TallySigners(entry.committee.members, entry.signatures);
    if weight < entry.committee.threshold || signatures == multiset{} {
      return None;
    }
    bundle := Some(Bundle(AggregatedReceipt(entry.receipt, entry.committee.epoch, bitmap, signatures), entry.committee, entry.writes));
  }

  function Mark(bitmap: seq<bv8>, i: nat): (r: seq<bv8>)
    requires i / 8 < |bitmap|
    ensures |r| == |bitmap|
  {
    bitmap[i / 8 := bitmap[i / 8] | (1 << (i % 8))]
  }

  lemma MarkSigner(bitmap: seq<bv8>, i: nat, j: nat)
    requires i / 8 < |bitmap| && j / 8 < |bitmap|
    ensures BitSet(Mark(bitmap, i), j) <==> j == i || BitSet(bitmap, j)
  {
  }

  /** The bitmap has exactly the flags of the first `n` members. */
  ghost predicate MarkedUpTo(bitmap: seq<bv8>, flags: seq<bool>, n: nat)
    requires n <= |flags| && |bitmap| == (|flags| + 7) / 8
  {
    forall j: nat :: j < |flags| ==> (BitSet(bitmap, j) <==> j < n && flags[j])
  }

  function Blank(n: nat): (r: seq<bv8>)
    ensures |r| == n
  {
    seq(n, _ => 0)
  }

  lemma BlankIsUnmarked(flags: seq<bool>)
    ensures MarkedUpTo(Blank((|flags| + 7) / 8), flags, 0)
  {
  }

  lemma MarkNext(bitmap: seq<bv8>, flags: seq<bool>, n: nat)
    requires n < |flags| && |bitmap| == (|flags| + 7) / 8 && MarkedUpTo(bitmap, flags, n)
    ensures MarkedUpTo(if flags[n] then Mark(bitmap, n) else bitmap, flags, n + 1)
  {
    forall j: nat | j < |flags|
      ensures flags[n] ==> (BitSet(Mark(bitmap, n), j) <==> j == n || BitSet(bitmap, j))
    {
      MarkSigner(bitmap, n, j);
    }
  }

  lemma MarkedAll(bitmap: seq<bv8>, flags: seq<bool>)
    requires |bitmap| == (|flags| + 7) / 8 && MarkedUpTo(bitmap, flags, |flags|)
    ensures BitmapFlags(bitmap, |flags|) == flags
  {
  }

  /** The votes a node accepted are the signatures the verifier asks for. */
  lemma {:induction false} VotesAreKeySignatures(members: seq<Member>, signatures: map<NodeId, Signature>, receipt: ExecutionReceipt)
    requires forall i :: 0 <= i < |members| && members[i].node in signatures ==>
               signatures[members[i].node] == Signature(members[i].key, receipt)
    ensures VotesCast(members, signatures) == Signed(receipt, Keys(members, VoteFlags(members, signatures.Keys)))
  {
    if members != [] {
      var n := |members| - 1;
      VotesAreKeySignatures(members[..n], signatures, receipt);
      var flags := VoteFlags(members, signatures.Keys);
      assert flags[..n] == VoteFlags(members[..n], signatures.Keys);
      SignedStep(members, flags, receipt);
    }
  }

  /**
    Round trip: any accepted votes that reach the threshold make a certificate, and the verifier
    accepts it against the same committee.
   */
  method CertificateRoundTrip(entry: PendingTransition) returns (bundle: Bundle, verdict: Verdict)
    requires DistinctMembers(entry.committee.members) && |entry.committee.members| <= MAX_COMMITTEE_SIZE
    requires entry.committee.threshold >= 1 && entry.receipt.programId == entry.committee.programId
    requires AcceptedVotes(entry) && QuorumReached(entry)
    ensures verdict == Accepted && Certifies(bundle.aggregated, entry.committee)
    ensures bundle.aggregated.receipt == entry.receipt
    ensures BitmapFlags(bundle.aggregated.bitmap, |entry.committee.members|)
            == VoteFlags(entry.committee.members, entry.signatures.Keys)
  {
    var members := entry.committee.members;
    VotesAreKeySignatures(members, entry.signatures, entry.receipt);
    NoKeysNoWeight(members, VoteFlags(members, entry.signatures.Keys));
    var formed := FormCertificate(entry);
    bundle := formed.value;
    verdict := VerifyAggregatedReceipt(bundle.aggregated, entry.committee);
  }
}
