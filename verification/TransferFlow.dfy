/**
  Flow control of outgoing transfers (the event loop of src/network/service.rs): which peers are
  ready, where every transfer job waits, how many requests are in flight.

  This module gives the state, the steps the loop takes and the invariant all of them keep;
  `TransferLoop` is the loop itself.  A job is named by its position in the order of submission,
  and `status` and `sent` record what became of it.
 */
module TransferFlow {
  type Peer = nat
  type JobId = nat
  type RequestId = nat

  const STREAMS_PER_PEER_MIN: nat := 2
  const STREAMS_PER_PEER_CAP: nat := 32
  const STREAMS_TOTAL_CAP: nat := 256
  const QUEUE_PER_PEER: nat := 256
  const BUFFER_PER_PEER: nat := 64

  datatype Limits = Limits(perPeer: nat, total: nat)

  function Min(a: nat, b: nat): (r: nat) { if a < b then a else b }

  function Max(a: nat, b: nat): (r: nat) { if a < b then b else a }

  /** One peer may always have two requests in flight, and never more than all peers together. */
  function LimitsFor(maxInboundStreams: nat): (l: Limits)
    ensures 2 <= l.perPeer <= 32 && l.perPeer <= l.total <= 256
    ensures l.total == 256 <==> maxInboundStreams >= 128
    ensures l.total == 8 * l.perPeer
    ensures maxInboundStreams < 8 ==> l.perPeer == 2
    ensures 8 <= maxInboundStreams < 128 ==> 4 * l.perPeer <= maxInboundStreams < 4 * l.perPeer + 4
  {
    var perPeer := Min(Max(maxInboundStreams / 4, STREAMS_PER_PEER_MIN), STREAMS_PER_PEER_CAP);
    Limits(perPeer, Max(perPeer, Min(STREAMS_TOTAL_CAP, perPeer * 8)))
  }

  datatype Job = Job(peer: Peer, wantsReply: bool)

  /** How a job ended: with an answer, without one because nobody asked, or with its reply channel dropped. */
  datatype Outcome = Replied(ok: bool) | Silent | Abandoned

  datatype Status = Buffered | Queued | InFlight(request: RequestId) | Finished(outcome: Outcome)

  datatype Pending = Pending(peer: Peer, job: JobId)

  datatype PeerEvent = PeerConnected(peer: Peer) | PeerDisconnected(peer: Peer)

  type Lists = map<Peer, seq<JobId>>

  datatype Flow = Flow(
    limits: Limits,
    ready: set<Peer>,
    blocked: set<Peer>,
    buffer: Lists,
    queue: Lists,
    pending: map<RequestId, Pending>,
    total: nat,
    perPeer: map<Peer, nat>,
    peers: set<Peer>,
    events: seq<PeerEvent>,
    nextRequest: RequestId,
    jobs: seq<Job>,
    status: seq<Status>,
    sent: Lists)

  function Get(m: Lists, p: Peer): (r: seq<JobId>) {
    if p in m then m[p] else []
  }

  function InFlightTo(perPeer: map<Peer, nat>, p: Peer): (n: nat) {
    if p in perPeer then perPeer[p] else 0
  }

  function AnswerTo(job: Job, ok: bool): (s: Status) {
    Finished(if job.wantsReply then Replied(ok) else Silent)
  }

  // ------------------------------------------------------------------------------------------
  // The invariant
  // ------------------------------------------------------------------------------------------

  ghost function PendingOf(pending: map<RequestId, Pending>, p: Peer): (r: set<RequestId>) {
    set r | r in pending && pending[r].peer == p
  }

  ghost function Count(pending: map<RequestId, Pending>, p: Peer): (n: nat) {
    |PendingOf(pending, p)|
  }

  ghost predicate CountedAt(pending: map<RequestId, Pending>, perPeer: map<Peer, nat>, limit: nat, p: Peer) {
    && InFlightTo(perPeer, p) == Count(pending, p) <= limit
    && (p in perPeer ==> perPeer[p] > 0)
  }

  /** The counters count what is pending, and stay within their limits. */
  ghost predicate Accounted(f: Flow) {
    && f.total == |f.pending| <= f.limits.total
    && (forall p :: CountedAt(f.pending, f.perPeer, f.limits.perPeer, p))
    && (forall r :: r in f.pending ==> r < f.nextRequest)
  }

  ghost predicate WaitsAt(f: Flow, p: Peer) {
    && (Get(f.queue, p) != [] ==> p in f.ready)
    && (Get(f.buffer, p) != [] ==> p !in f.ready && p !in f.blocked)
    && |Get(f.queue, p)| <= QUEUE_PER_PEER && |Get(f.buffer, p)| <= BUFFER_PER_PEER
  }

  function AfterEvent(peers: set<Peer>, e: PeerEvent): (r: set<Peer>) {
    match e
    case PeerConnected(p) => peers + {p}
    case PeerDisconnected(p) => peers - {p}
  }

  /** A peer is announced only when it was absent, and withdrawn only when it was there. */
  predicate IsNews(peers: set<Peer>, e: PeerEvent) {
    if e.PeerConnected? then e.peer !in peers else e.peer in peers
  }

  /** The peer set as the receiver of the events rebuilds it. */
  function Rebuild(events: seq<PeerEvent>): (r: set<Peer>) {
    if events == [] then {} else AfterEvent(Rebuild(events[..|events| - 1]), events[|events| - 1])
  }

  ghost predicate Paired(events: seq<PeerEvent>) {
    events == [] ||
    (Paired(events[..|events| - 1]) && IsNews(Rebuild(events[..|events| - 1]), events[|events| - 1]))
  }

  ghost predicate Readiness(f: Flow) {
    && f.ready !! f.blocked
    && f.peers == f.ready == Rebuild(f.events) && Paired(f.events)
    && forall p :: WaitsAt(f, p)
  }

  ghost predicate IsJob(jobs: seq<Job>, status: seq<Status>, t: JobId, p: Peer, s: Status) {
    t < |jobs| == |status| && jobs[t].peer == p && status[t] == s
  }

  ghost predicate AllAre(jobs: seq<Job>, status: seq<Status>, list: seq<JobId>, p: Peer, s: Status) {
    forall i :: 0 <= i < |list| ==> IsJob(jobs, status, list[i], p, s)
  }

  ghost predicate ListsAt(f: Flow, p: Peer) {
    && AllAre(f.jobs, f.status, Get(f.queue, p), p, Queued)
    && AllAre(f.jobs, f.status, Get(f.buffer, p), p, Buffered)
  }

  /** The job is where its status says. */
  ghost predicate Found(f: Flow, t: JobId)
    requires t < |f.jobs| == |f.status|
  {
    match f.status[t]
    case Buffered => t in Get(f.buffer, f.jobs[t].peer)
    case Queued => t in Get(f.queue, f.jobs[t].peer)
    case InFlight(r) => r in f.pending && f.pending[r] == Pending(f.jobs[t].peer, t)
    case Finished(_) => true
  }

  /** Every job is in exactly one place: statuses and places determine each other. */
  ghost predicate Placed(f: Flow) {
    && |f.jobs| == |f.status|
    && (forall p :: ListsAt(f, p))
    && (forall r :: r in f.pending ==> IsJob(f.jobs, f.status, f.pending[r].job, f.pending[r].peer, InFlight(r)))
    && (forall t :: 0 <= t < |f.jobs| ==> Found(f, t))
  }

  ghost predicate Rising(line: seq<JobId>) {
    forall i, j :: 0 <= i < j < |line| ==> line[i] < line[j]
  }

  ghost predicate Addressed(jobs: seq<Job>, line: seq<JobId>, p: Peer) {
    forall i :: 0 <= i < |line| ==> line[i] < |jobs| && jobs[line[i]].peer == p
  }

  /** What was sent to a peer, then what is queued for it, then what is buffered. */
  ghost function Line(f: Flow, p: Peer): (r: seq<JobId>) {
    Get(f.sent, p) + Get(f.queue, p) + Get(f.buffer, p)
  }

  /** Requests reach a peer in the order in which they were submitted. */
  ghost predicate InOrder(f: Flow) {
    forall p :: Rising(Line(f, p)) && Addressed(f.jobs, Line(f, p), p)
  }

  ghost predicate Inv(f: Flow) {
    Accounted(f) && Readiness(f) && Placed(f) && InOrder(f)
  }

  // ------------------------------------------------------------------------------------------
  // The steps
  // ------------------------------------------------------------------------------------------

  function Initial(limits: Limits): (f: Flow) {
    Flow(limits, {}, {}, map[], map[], map[], 0, map[], {}, [], 0, [], [], map[])
  }

  /** The head of a peer's queue goes out under a fresh request id. */
  function Send(f: Flow, p: Peer): (f': Flow)
    requires Get(f.queue, p) != [] && Get(f.queue, p)[0] < |f.status|
  {
    var t, r := Get(f.queue, p)[0], f.nextRequest;
    f.(queue := f.queue[p := Get(f.queue, p)[1..]],
       pending := f.pending[r := Pending(p, t)],
       total := f.total + 1,
       perPeer := f.perPeer[p := InFlightTo(f.perPeer, p) + 1],
       nextRequest := r + 1,
       status := f.status[t := InFlight(r)],
       sent := f.sent[p := Get(f.sent, p) + [t]])
  }

  function Lowered(perPeer: map<Peer, nat>, p: Peer): (r: map<Peer, nat>) {
    if p !in perPeer then perPeer
    else if perPeer[p] <= 1 then perPeer - {p}
    else perPeer[p := perPeer[p] - 1]
  }

  /** A response or a failure for a pending request; a late one for a forgotten id changes nothing. */
  function Complete(f: Flow, r: RequestId, ok: bool): (f': Flow)
    requires r in f.pending ==> f.pending[r].job < |f.jobs| == |f.status|
  {
    if r !in f.pending then f
    else
      var t := f.pending[r].job;
      f.(pending := f.pending - {r},
         total := if f.total > 0 then f.total - 1 else 0,
         perPeer := Lowered(f.perPeer, f.pending[r].peer),
         status := f.status[t := AnswerTo(f.jobs[t], ok)])
  }

  /** What becomes of a job of a peer whose waiting or pending jobs are given up. */
  function GivenUp(job: Job, s: Status, p: Peer, waiting: bool, pending: bool): (s': Status) {
    if job.peer != p then s
    else match s
      case Buffered => if waiting then Finished(Abandoned) else s
      case Queued => if waiting then Finished(Abandoned) else s
      case InFlight(_) => if pending then AnswerTo(job, false) else s
      case Finished(_) => s
  }

  function GiveUp(jobs: seq<Job>, status: seq<Status>, p: Peer, waiting: bool, pending: bool): (r: seq<Status>)
    requires |jobs| == |status|
    ensures |r| == |status|
    ensures forall t :: 0 <= t < |r| ==> r[t] == GivenUp(jobs[t], status[t], p, waiting, pending)
  {
    seq(|status|, t requires 0 <= t < |status| => GivenUp(jobs[t], status[t], p, waiting, pending))
  }

  function Leave(f: Flow, p: Peer): (f': Flow) {
    f.(peers := f.peers - {p},
       events := if p in f.peers then f.events + [PeerDisconnected(p)] else f.events,
       ready := f.ready - {p})
  }

  /** A handshake that failed, or data that does not decode. */
  function Block(f: Flow, p: Peer): (f': Flow)
    requires |f.jobs| == |f.status|
  {
    Leave(f, p).(blocked := f.blocked + {p}, buffer := f.buffer - {p}, queue := f.queue - {p},
                 status := GiveUp(f.jobs, f.status, p, true, false))
  }

  /** The requests pending at a peer are answered with an error. */
  ghost function DropPending(f: Flow, p: Peer): (f': Flow)
    requires |f.jobs| == |f.status|
  {
    var removed := Count(f.pending, p);
    f.(pending := f.pending - PendingOf(f.pending, p),
       total := if removed <= f.total then f.total - removed else 0,
       perPeer := if removed > 0 then f.perPeer - {p} else f.perPeer,
       status := GiveUp(f.jobs, f.status, p, false, true))
  }

  /** A connection closed; `remaining` are left to the same peer. */
  ghost function Closed(f: Flow, p: Peer, remaining: nat): (f': Flow)
    requires |f.jobs| == |f.status|
  {
    if remaining == 0 then
      var g := DropPending(Leave(f, p), p);
      g.(buffer := g.buffer - {p}, queue := g.queue - {p}, status := GiveUp(g.jobs, g.status, p, true, false))
    else if p !in f.ready && p !in f.blocked then DropPending(f, p)
    else f
  }

  /** A job that was buffered is queued. */
  function Released(job: Job, s: Status, p: Peer): (s': Status) {
    if job.peer == p && s == Buffered then Queued else s
  }

  function Release(jobs: seq<Job>, status: seq<Status>, p: Peer): (r: seq<Status>)
    requires |jobs| == |status|
    ensures |r| == |status|
    ensures forall t :: 0 <= t < |r| ==> r[t] == Released(jobs[t], status[t], p)
  {
    seq(|status|, t requires 0 <= t < |status| => Released(jobs[t], status[t], p))
  }

  /** A handshake that succeeded. */
  function BecomeReady(f: Flow, p: Peer): (f': Flow)
    requires |f.jobs| == |f.status|
  {
    f.(peers := f.peers + {p},
       events := if p in f.peers then f.events else f.events + [PeerConnected(p)],
       blocked := f.blocked - {p},
       ready := f.ready + {p},
       buffer := f.buffer - {p},
       queue := if p in f.buffer then f.queue[p := Get(f.queue, p) + f.buffer[p]] else f.queue,
       status := Release(f.jobs, f.status, p))
  }

  function Log(f: Flow, job: Job, s: Status): (f': Flow) {
    f.(jobs := f.jobs + [job], status := f.status + [s])
  }

  /** The oldest buffered job makes room. */
  function DropOldest(f: Flow, p: Peer): (f': Flow)
    requires Get(f.buffer, p) != [] && Get(f.buffer, p)[0] < |f.jobs| == |f.status|
  {
    var list := Get(f.buffer, p);
    f.(buffer := f.buffer[p := list[1..]], status := f.status[list[0] := AnswerTo(f.jobs[list[0]], false)])
  }

  /** A job for a peer that is not ready: buffered, the oldest one making room if need be. */
  function Buffer(f: Flow, job: Job): (f': Flow)
    requires |f.jobs| == |f.status|
    requires forall i :: 0 <= i < |Get(f.buffer, job.peer)| ==> Get(f.buffer, job.peer)[i] < |f.jobs|
  {
    var g := if |Get(f.buffer, job.peer)| >= BUFFER_PER_PEER then DropOldest(f, job.peer) else f;
    Log(g, job, Buffered).(buffer := g.buffer[job.peer := Get(g.buffer, job.peer) + [|f.jobs|]])
  }

  /** A job for a ready peer: queued, or refused when the queue is full. */
  function Enqueue(f: Flow, job: Job): (f': Flow) {
    var t, list := |f.jobs|, Get(f.queue, job.peer);
    if |list| >= QUEUE_PER_PEER then Log(f, job, AnswerTo(job, false)).(queue := f.queue[job.peer := list])
    else Log(f, job, Queued).(queue := f.queue[job.peer := list + [t]])
  }

  /** What the loop does with a submitted job, before it drains the queues. */
  function Submit(f: Flow, job: Job): (f': Flow)
    requires |f.jobs| == |f.status|
    requires forall i :: 0 <= i < |Get(f.buffer, job.peer)| ==> Get(f.buffer, job.peer)[i] < |f.jobs|
  {
    if job.peer in f.blocked then Log(f, job, Finished(Abandoned))
    else if job.peer !in f.ready then Buffer(f, job)
    else Enqueue(f, job)
  }

  // ------------------------------------------------------------------------------------------
  // Every step keeps the invariant
  // ------------------------------------------------------------------------------------------

  lemma CountAfterInsert(pending: map<RequestId, Pending>, r: RequestId, e: Pending, p: Peer)
    requires r !in pending
    ensures Count(pending[r := e], p) == Count(pending, p) + if e.peer == p then 1 else 0
    ensures |pending[r := e]| == |pending| + 1
  {
    var after := pending[r := e];
    assert PendingOf(after, p) == if e.peer == p then PendingOf(pending, p) + {r} else PendingOf(pending, p);
    assert after.Keys == pending.Keys + {r};
  }

  lemma CountAfterRemove(pending: map<RequestId, Pending>, r: RequestId, p: Peer)
    requires r in pending
    ensures Count(pending, p) == Count(pending - {r}, p) + if pending[r].peer == p then 1 else 0
    ensures |pending| == |pending - {r}| + 1
  {
    var after := pending - {r};
    assert PendingOf(pending, p) == if pending[r].peer == p then PendingOf(after, p) + {r} else PendingOf(after, p);
    assert pending.Keys == after.Keys + {r};
  }

  lemma CountAfterDrop(pending: map<RequestId, Pending>, q: Peer, p: Peer)
    ensures Count(pending - PendingOf(pending, q), p) == if p == q then 0 else Count(pending, p)
    ensures |pending - PendingOf(pending, q)| == |pending| - Count(pending, q)
  {
    var after := pending - PendingOf(pending, q);
    assert PendingOf(after, p) == if p == q then {} else PendingOf(pending, p);
    assert pending.Keys == after.Keys + PendingOf(pending, q) && after.Keys !! PendingOf(pending, q);
  }

  lemma SendAccounted(f: Flow, p: Peer)
    requires Accounted(f) && Get(f.queue, p) != [] && Get(f.queue, p)[0] < |f.status|
    requires f.total < f.limits.total && InFlightTo(f.perPeer, p) < f.limits.perPeer
    ensures Accounted(Send(f, p))
  {
    var f' := Send(f, p);
    forall q
      ensures CountedAt(f'.pending, f'.perPeer, f'.limits.perPeer, q)
    {
      assert CountedAt(f.pending, f.perPeer, f.limits.perPeer, q);
      CountAfterInsert(f.pending, f.nextRequest, f'.pending[f.nextRequest], q);
    }
    CountAfterInsert(f.pending, f.nextRequest, f'.pending[f.nextRequest], p);
  }

  lemma CompleteAccounted(f: Flow, r: RequestId, ok: bool)
    requires Accounted(f) && (r in f.pending ==> f.pending[r].job < |f.jobs| == |f.status|)
    ensures Accounted(Complete(f, r, ok))
  {
    var f' := Complete(f, r, ok);
    if r in f.pending {
      forall q
        ensures CountedAt(f'.pending, f'.perPeer, f'.limits.perPeer, q)
      {
        assert CountedAt(f.pending, f.perPeer, f.limits.perPeer, q);
        CountAfterRemove(f.pending, r, q);
      }
      CountAfterRemove(f.pending, r, f.pending[r].peer);
    }
  }

  lemma DropAccounted(f: Flow, p: Peer)
    requires Accounted(f) && |f.jobs| == |f.status|
    ensures Accounted(DropPending(f, p))
  {
    var f' := DropPending(f, p);
    CountAfterDrop(f.pending, p, p);
    forall q
      ensures CountedAt(f'.pending, f'.perPeer, f'.limits.perPeer, q)
    {
      assert CountedAt(f.pending, f.perPeer, f.limits.perPeer, q);
      CountAfterDrop(f.pending, p, q);
    }
  }

  // --- readiness ---------------------------------------------------------------------------

  lemma OneMoreEvent(events: seq<PeerEvent>, e: PeerEvent)
    ensures Rebuild(events + [e]) == AfterEvent(Rebuild(events), e)
    ensures Paired(events + [e]) <==> Paired(events) && IsNews(Rebuild(events), e)
  {
  }

  lemma LeaveReadiness(f: Flow, p: Peer)
    requires Readiness(f)
    ensures var f' := Leave(f, p);
            f'.peers == f'.ready == Rebuild(f'.events) && Paired(f'.events)
  {
  }

  lemma BlockReadiness(f: Flow, p: Peer)
    requires Readiness(f) && |f.jobs| == |f.status|
    ensures Readiness(Block(f, p))
  {
    LeaveReadiness(f, p);
    var f' := Block(f, p);
    forall q
      ensures WaitsAt(f', q)
    {
      assert WaitsAt(f, q);
    }
  }

  lemma ClosedReadiness(f: Flow, p: Peer, remaining: nat)
    requires Readiness(f) && |f.jobs| == |f.status|
    ensures Readiness(Closed(f, p, remaining))
  {
    LeaveReadiness(f, p);
    var f' := Closed(f, p, remaining);
    forall q
      ensures WaitsAt(f', q)
    {
      assert WaitsAt(f, q);
    }
  }

  lemma BecomeReadyReadiness(f: Flow, p: Peer)
    requires Readiness(f) && |f.jobs| == |f.status|
    ensures Readiness(BecomeReady(f, p))
  {
    OneMoreEvent(f.events, PeerConnected(p));
    assert p in f.peers ==> f.peers + {p} == f.peers;
    var f' := BecomeReady(f, p);
    forall q
      ensures WaitsAt(f', q)
    {
      assert WaitsAt(f, q);
    }
  }

  lemma OneListChanged(f: Flow, f': Flow, p: Peer)
    requires Readiness(f) && WaitsAt(f', p)
    requires f'.ready == f.ready && f'.blocked == f.blocked && f'.peers == f.peers && f'.events == f.events
    requires forall q :: q != p ==> Get(f'.queue, q) == Get(f.queue, q) && Get(f'.buffer, q) == Get(f.buffer, q)
    ensures Readiness(f')
  {
    forall q
      ensures WaitsAt(f', q)
    {
      assert WaitsAt(f, q);
    }
  }

  lemma BufferReadiness(f: Flow, job: Job)
    requires Readiness(f) && |f.jobs| == |f.status| && job.peer !in f.ready && job.peer !in f.blocked
    requires forall i :: 0 <= i < |Get(f.buffer, job.peer)| ==> Get(f.buffer, job.peer)[i] < |f.jobs|
    ensures Readiness(Buffer(f, job))
  {
    assert WaitsAt(f, job.peer);
    OneListChanged(f, Buffer(f, job), job.peer);
  }

  lemma EnqueueReadiness(f: Flow, job: Job)
    requires Readiness(f) && job.peer in f.ready
    ensures Readiness(Enqueue(f, job))
  {
    assert WaitsAt(f, job.peer);
    OneListChanged(f, Enqueue(f, job), job.peer);
  }

  lemma SendReadiness(f: Flow, p: Peer)
    requires Readiness(f) && Get(f.queue, p) != [] && Get(f.queue, p)[0] < |f.status|
    ensures Readiness(Send(f, p))
  {
    assert WaitsAt(f, p);
    OneListChanged(f, Send(f, p), p);
  }

  // --- placement ---------------------------------------------------------------------------

  lemma ListKept(jobs: seq<Job>, status: seq<Status>, status': seq<Status>, list: seq<JobId>, p: Peer, s: Status)
    requires AllAre(jobs, status, list, p, s) && |status'| == |status|
    requires forall t :: 0 <= t < |status| && status[t] == s && status'[t] != s ==> t !in list
    ensures AllAre(jobs, status', list, p, s)
  {
  }

  lemma SendPlaced(f: Flow, p: Peer)
    requires Placed(f) && Accounted(f) && Get(f.queue, p) != [] && Get(f.queue, p)[0] < |f.status|
    requires Rising(Get(f.queue, p))
    ensures Placed(Send(f, p))
  {
    var f', list := Send(f, p), Get(f.queue, p);
    var t := list[0];
    assert ListsAt(f, p) && IsJob(f.jobs, f.status, t, p, Queued);
    assert t !in list[1..];
    forall q
      ensures ListsAt(f', q)
    {
      assert ListsAt(f, q);
      if q == p { assert AllAre(f.jobs, f.status, list[1..], p, Queued); }
      assert t in Get(f'.queue, q) ==> q == p;
      ListKept(f.jobs, f.status, f'.status, Get(f'.queue, q), q, Queued);
      ListKept(f.jobs, f.status, f'.status, Get(f'.buffer, q), q, Buffered);
    }
    forall t' | 0 <= t' < |f.jobs|
      ensures Found(f', t')
    {
      assert Found(f, t');
    }
  }

  lemma CompletePlaced(f: Flow, r: RequestId, ok: bool)
    requires Placed(f)
    ensures r in f.pending ==> f.pending[r].job < |f.jobs| == |f.status|
    ensures Placed(Complete(f, r, ok))
  {
    if r in f.pending {
      var f', t := Complete(f, r, ok), f.pending[r].job;
      assert IsJob(f.jobs, f.status, t, f.pending[r].peer, InFlight(r));
      forall q
        ensures ListsAt(f', q)
      {
        assert ListsAt(f, q);
        ListKept(f.jobs, f.status, f'.status, Get(f'.queue, q), q, Queued);
        ListKept(f.jobs, f.status, f'.status, Get(f'.buffer, q), q, Buffered);
      }
      forall t' | 0 <= t' < |f.jobs|
        ensures Found(f', t')
      {
        assert Found(f, t');
      }
    }
  }

  lemma DropPlaced(f: Flow, p: Peer)
    requires Placed(f)
    ensures Placed(DropPending(f, p))
  {
    var f' := DropPending(f, p);
    forall q
      ensures ListsAt(f', q)
    {
      assert ListsAt(f, q);
      ListKept(f.jobs, f.status, f'.status, Get(f'.queue, q), q, Queued);
      ListKept(f.jobs, f.status, f'.status, Get(f'.buffer, q), q, Buffered);
    }
    forall t | 0 <= t < |f.jobs|
      ensures Found(f', t)
    {
      assert Found(f, t);
    }
  }

  /** Giving up what waits for a peer, together with its lists. */
  lemma GiveUpWaitingPlaced(f: Flow, p: Peer, f': Flow)
    requires Placed(f)
    requires f'.jobs == f.jobs && f'.pending == f.pending && f'.buffer == f.buffer - {p} && f'.queue == f.queue - {p}
    requires f'.status == GiveUp(f.jobs, f.status, p, true, false)
    ensures Placed(f')
  {
    forall q
      ensures ListsAt(f', q)
    {
      assert ListsAt(f, q);
      if q != p {
        OthersUntouched(f.jobs, f.status, Get(f.queue, q), p, q, Queued);
        OthersUntouched(f.jobs, f.status, Get(f.buffer, q), p, q, Buffered);
      }
    }
    forall t | 0 <= t < |f.jobs|
      ensures Found(f', t)
    {
      assert Found(f, t);
    }
  }

  lemma OthersUntouched(jobs: seq<Job>, status: seq<Status>, list: seq<JobId>, p: Peer, q: Peer, s: Status)
    requires q != p && AllAre(jobs, status, list, q, s) && |jobs| == |status|
    ensures AllAre(jobs, GiveUp(jobs, status, p, true, false), list, q, s)
  {
  }

  lemma BecomeReadyPlaced(f: Flow, p: Peer)
    requires Placed(f)
    ensures Placed(BecomeReady(f, p))
  {
    var f' := BecomeReady(f, p);
    assert ListsAt(f, p);
    forall q
      ensures ListsAt(f', q)
    {
      assert ListsAt(f, q);
      ReleasedLists(f, p, q);
    }
    forall t | 0 <= t < |f.jobs|
      ensures Found(f', t)
    {
      assert Found(f, t);
    }
  }

  lemma ReleasedLists(f: Flow, p: Peer, q: Peer)
    requires |f.jobs| == |f.status| && ListsAt(f, q)
    ensures ListsAt(BecomeReady(f, p), q)
  {
  }

  /** Lists of older jobs say the same after one more is logged. */
  lemma ListLogged(jobs: seq<Job>, status: seq<Status>, job: Job, s': Status, list: seq<JobId>, p: Peer, s: Status)
    requires AllAre(jobs, status, list, p, s) && |jobs| == |status|
    ensures AllAre(jobs + [job], status + [s'], list, p, s)
  {
  }

  /** A new job, put at the end of the list its status names. */
  lemma LoggedPlaced(f: Flow, job: Job, s: Status, f': Flow)
    requires Placed(f) && !s.InFlight?
    requires f'.jobs == f.jobs + [job] && f'.status == f.status + [s] && f'.pending == f.pending
    requires Get(f'.queue, job.peer) == Get(f.queue, job.peer) + if s == Queued then [|f.jobs|] else []
    requires Get(f'.buffer, job.peer) == Get(f.buffer, job.peer) + if s == Buffered then [|f.jobs|] else []
    requires forall q :: q != job.peer ==> Get(f'.queue, q) == Get(f.queue, q) && Get(f'.buffer, q) == Get(f.buffer, q)
    ensures Placed(f')
  {
    forall q
      ensures ListsAt(f', q)
    {
      assert ListsAt(f, q);
      ListLogged(f.jobs, f.status, job, s, Get(f.queue, q), q, Queued);
      ListLogged(f.jobs, f.status, job, s, Get(f.buffer, q), q, Buffered);
    }
    forall t | 0 <= t < |f'.jobs|
      ensures Found(f', t)
    {
      if t < |f.jobs| { assert Found(f, t); }
    }
    forall r | r in f'.pending
      ensures IsJob(f'.jobs, f'.status, f'.pending[r].job, f'.pending[r].peer, InFlight(r))
    {
      assert IsJob(f.jobs, f.status, f.pending[r].job, f.pending[r].peer, InFlight(r));
    }
  }

  lemma DropOldestPlaced(f: Flow, p: Peer)
    requires Placed(f) && Get(f.buffer, p) != [] && Get(f.buffer, p)[0] < |f.jobs|
    requires Rising(Get(f.buffer, p))
    ensures Placed(DropOldest(f, p))
  {
    var f', list := DropOldest(f, p), Get(f.buffer, p);
    var t := list[0];
    assert ListsAt(f, p) && IsJob(f.jobs, f.status, t, p, Buffered);
    assert t !in list[1..];
    forall q
      ensures ListsAt(f', q)
    {
      assert ListsAt(f, q);
      if q == p { assert AllAre(f.jobs, f.status, list[1..], p, Buffered); }
      assert t in Get(f'.buffer, q) ==> q == p;
      ListKept(f.jobs, f.status, f'.status, Get(f'.queue, q), q, Queued);
      ListKept(f.jobs, f.status, f'.status, Get(f'.buffer, q), q, Buffered);
    }
    forall t' | 0 <= t' < |f.jobs|
      ensures Found(f', t')
    {
      assert Found(f, t');
    }
  }

  // --- order -------------------------------------------------------------------------------

  lemma ListsRise(f: Flow, p: Peer)
    requires Rising(Line(f, p)) && Addressed(f.jobs, Line(f, p), p)
    ensures Rising(Get(f.queue, p)) && Rising(Get(f.buffer, p))
    ensures Addressed(f.jobs, Get(f.queue, p), p) && Addressed(f.jobs, Get(f.buffer, p), p)
  {
    var n, m := |Get(f.sent, p)|, |Get(f.sent, p)| + |Get(f.queue, p)|;
    assert Get(f.queue, p) == Line(f, p)[n..m] && Get(f.buffer, p) == Line(f, p)[m..];
  }

  lemma HeadMoves(sent: seq<JobId>, queue: seq<JobId>, buffer: seq<JobId>)
    requires queue != []
    ensures (sent + [queue[0]]) + queue[1..] + buffer == sent + queue + buffer
  {
  }

  lemma SendInOrder(f: Flow, p: Peer)
    requires InOrder(f) && Get(f.queue, p) != [] && Get(f.queue, p)[0] < |f.status|
    ensures InOrder(Send(f, p))
  {
    HeadMoves(Get(f.sent, p), Get(f.queue, p), Get(f.buffer, p));
    forall q
      ensures Line(Send(f, p), q) == Line(f, q)
    {
    }
  }

  lemma BufferMoves(sent: seq<JobId>, queue: seq<JobId>, buffer: seq<JobId>)
    ensures sent + (queue + buffer) + [] == sent + queue + buffer
  {
  }

  lemma BecomeReadyInOrder(f: Flow, p: Peer)
    requires InOrder(f) && |f.jobs| == |f.status|
    ensures InOrder(BecomeReady(f, p))
  {
    var f' := BecomeReady(f, p);
    forall q
      ensures Line(f', q) == Line(f, q)
    {
      BufferMoves(Get(f.sent, q), Get(f.queue, q), Get(f.buffer, q));
      assert Get(f'.queue, q) == if q == p then Get(f.queue, q) + Get(f.buffer, q) else Get(f.queue, q);
    }
  }

  /** Cutting the end off a line, or taking one job out of it. */
  lemma CutInOrder(f: Flow, p: Peer, f': Flow)
    requires InOrder(f) && f'.jobs == f.jobs
    requires Line(f', p) <= Line(f, p)
    requires forall q :: q != p ==> Line(f', q) == Line(f, q)
    ensures InOrder(f')
  {
  }

  lemma TakeOut(jobs: seq<Job>, line: seq<JobId>, p: Peer, n: nat)
    requires Rising(line) && Addressed(jobs, line, p) && n < |line|
    ensures Rising(line[..n] + line[n + 1..]) && Addressed(jobs, line[..n] + line[n + 1..], p)
  {
  }

  lemma DropOldestInOrder(f: Flow, p: Peer)
    requires InOrder(f) && Get(f.buffer, p) != [] && Get(f.buffer, p)[0] < |f.jobs| == |f.status|
    ensures InOrder(DropOldest(f, p))
  {
    var f' := DropOldest(f, p);
    forall q
      ensures Rising(Line(f', q)) && Addressed(f'.jobs, Line(f', q), q)
    {
      assert Rising(Line(f, q)) && Addressed(f.jobs, Line(f, q), q);
      if q == p {
        var n := |Get(f.sent, p)| + |Get(f.queue, p)|;
        TakeOut(f.jobs, Line(f, p), p, n);
        assert Line(f', p) == Line(f, p)[..n] + Line(f, p)[n + 1..];
      }
    }
  }

  lemma AddNewest(jobs: seq<Job>, line: seq<JobId>, job: Job, q: Peer)
    requires Rising(line) && Addressed(jobs, line, q)
    ensures Addressed(jobs + [job], line, q)
    ensures q == job.peer ==> Rising(line + [|jobs|]) && Addressed(jobs + [job], line + [|jobs|], q)
  {
  }

  /** A new job at the end of its peer's line. */
  lemma LoggedInOrder(f: Flow, job: Job, f': Flow)
    requires InOrder(f) && f'.jobs == f.jobs + [job]
    requires Line(f', job.peer) == Line(f, job.peer) + [|f.jobs|] || Line(f', job.peer) == Line(f, job.peer)
    requires forall q :: q != job.peer ==> Line(f', q) == Line(f, q)
    ensures InOrder(f')
  {
    forall q
      ensures Rising(Line(f', q)) && Addressed(f'.jobs, Line(f', q), q)
    {
      AddNewest(f.jobs, Line(f, q), job, q);
    }
  }

  // --- all of it ---------------------------------------------------------------------------

  /** What has ended stays as it ended, jobs are not forgotten, and what was sent stays sent. */
  ghost predicate Settled(f: Flow, f': Flow) {
    && f.jobs <= f'.jobs && |f.jobs| == |f.status| && |f'.jobs| == |f'.status|
    && (forall t :: 0 <= t < |f.status| && f.status[t].Finished? ==> f'.status[t] == f.status[t])
    && (forall p :: Get(f.sent, p) <= Get(f'.sent, p))
  }

  ghost predicate DrainedAt(f: Flow, p: Peer) {
    Get(f.queue, p) != [] ==> f.total >= f.limits.total || InFlightTo(f.perPeer, p) >= f.limits.perPeer
  }

  /** Nothing more could be sent. */
  ghost predicate Drained(f: Flow) {
    forall p :: DrainedAt(f, p)
  }

  lemma InitialInv(limits: Limits)
    ensures Inv(Initial(limits)) && Drained(Initial(limits))
  {
  }

  lemma SendKeeps(f: Flow, p: Peer)
    requires Inv(f) && Get(f.queue, p) != []
    requires f.total < f.limits.total && InFlightTo(f.perPeer, p) < f.limits.perPeer
    ensures Get(f.queue, p)[0] < |f.status|
    ensures Inv(Send(f, p)) && Settled(f, Send(f, p))
  {
    assert ListsAt(f, p) && IsJob(f.jobs, f.status, Get(f.queue, p)[0], p, Queued);
    ListsRise(f, p);
    SendAccounted(f, p);
    SendReadiness(f, p);
    SendPlaced(f, p);
    SendInOrder(f, p);
  }

  lemma CompleteKeeps(f: Flow, r: RequestId, ok: bool)
    requires Inv(f)
    ensures r in f.pending ==> f.pending[r].job < |f.jobs| == |f.status|
    ensures Inv(Complete(f, r, ok)) && Settled(f, Complete(f, r, ok))
  {
    CompletePlaced(f, r, ok);
    CompleteAccounted(f, r, ok);
    var f' := Complete(f, r, ok);
    assert forall q :: WaitsAt(f, q) ==> WaitsAt(f', q);
    assert forall q :: Line(f', q) == Line(f, q);
    if r in f.pending { assert IsJob(f.jobs, f.status, f.pending[r].job, f.pending[r].peer, InFlight(r)); }
  }

  lemma BlockInOrder(f: Flow, p: Peer)
    requires InOrder(f) && |f.jobs| == |f.status|
    ensures InOrder(Block(f, p))
  {
    CutInOrder(f, p, Block(f, p));
  }

  lemma BlockSettles(f: Flow, p: Peer)
    requires |f.jobs| == |f.status|
    ensures Settled(f, Block(f, p))
    ensures Drained(f) ==> Drained(Block(f, p))
  {
    assert forall q :: DrainedAt(f, q) ==> DrainedAt(Block(f, p), q);
  }

  lemma BlockKeeps(f: Flow, p: Peer)
    requires Inv(f)
    ensures Inv(Block(f, p)) && Settled(f, Block(f, p))
    ensures Drained(f) ==> Drained(Block(f, p))
  {
    BlockSettles(f, p);
    BlockReadiness(f, p);
    GiveUpWaitingPlaced(f, p, Block(f, p));
    BlockInOrder(f, p);
  }

  lemma DropKeeps(f: Flow, p: Peer)
    requires Inv(f)
    ensures Inv(DropPending(f, p)) && Settled(f, DropPending(f, p))
  {
    var f' := DropPending(f, p);
    DropAccounted(f, p);
    DropPlaced(f, p);
    assert forall q :: WaitsAt(f, q) ==> WaitsAt(f', q);
    assert forall q :: Line(f', q) == Line(f, q);
  }

  lemma LastClosedPlaced(f: Flow, p: Peer)
    requires Placed(f)
    ensures Placed(Closed(f, p, 0))
  {
    var g := Leave(f, p);
    assert forall q :: ListsAt(f, q) ==> ListsAt(g, q);
    assert forall t :: 0 <= t < |f.jobs| && Found(f, t) ==> Found(g, t);
    DropPlaced(g, p);
    GiveUpWaitingPlaced(DropPending(Leave(f, p), p), p, Closed(f, p, 0));
  }

  lemma LastClosedInOrder(f: Flow, p: Peer)
    requires InOrder(f) && |f.jobs| == |f.status|
    ensures InOrder(Closed(f, p, 0))
  {
    CutInOrder(f, p, Closed(f, p, 0));
  }

  lemma LastClosedSettles(f: Flow, p: Peer)
    requires |f.jobs| == |f.status|
    ensures Settled(f, Closed(f, p, 0))
  {
  }

  lemma LastClosedAccounted(f: Flow, p: Peer)
    requires Accounted(f) && |f.jobs| == |f.status|
    ensures Accounted(Closed(f, p, 0))
  {
    DropAccounted(Leave(f, p), p);
  }

  lemma ClosedKeeps(f: Flow, p: Peer, remaining: nat)
    requires Inv(f)
    ensures Inv(Closed(f, p, remaining)) && Settled(f, Closed(f, p, remaining))
  {
    if remaining == 0 {
      LastClosedSettles(f, p);
      LastClosedAccounted(f, p);
      ClosedReadiness(f, p, 0);
      LastClosedPlaced(f, p);
      LastClosedInOrder(f, p);
    } else {
      DropKeeps(f, p);
    }
  }

  lemma BecomeReadyKeeps(f: Flow, p: Peer)
    requires Inv(f)
    ensures Inv(BecomeReady(f, p)) && Settled(f, BecomeReady(f, p))
    ensures |Get(f.queue, p)| + |Get(f.buffer, p)| <= QUEUE_PER_PEER
  {
    BecomeReadyReadiness(f, p);
    BecomeReadyPlaced(f, p);
    BecomeReadyInOrder(f, p);
    assert WaitsAt(f, p);
  }

  lemma DropOldestKeeps(f: Flow, p: Peer)
    requires Placed(f) && InOrder(f) && Get(f.buffer, p) != []
    ensures Get(f.buffer, p)[0] < |f.jobs| == |f.status|
    ensures Placed(DropOldest(f, p)) && InOrder(DropOldest(f, p)) && Settled(f, DropOldest(f, p))
  {
    ListsRise(f, p);
    assert ListsAt(f, p) && IsJob(f.jobs, f.status, Get(f.buffer, p)[0], p, Buffered);
    DropOldestPlaced(f, p);
    DropOldestInOrder(f, p);
  }

  /** A job at the end of a buffer with room. */
  lemma BufferedKeeps(g: Flow, job: Job)
    requires Placed(g) && InOrder(g)
    ensures var f' := Log(g, job, Buffered).(buffer := g.buffer[job.peer := Get(g.buffer, job.peer) + [|g.jobs|]]);
            Placed(f') && InOrder(f') && Settled(g, f')
  {
    var f' := Log(g, job, Buffered).(buffer := g.buffer[job.peer := Get(g.buffer, job.peer) + [|g.jobs|]]);
    LoggedPlaced(g, job, Buffered, f');
    BufferGrows(Get(g.sent, job.peer), Get(g.queue, job.peer), Get(g.buffer, job.peer), |g.jobs|);
    LoggedInOrder(g, job, f');
  }

  lemma BufferGrows(sent: seq<JobId>, queue: seq<JobId>, buffer: seq<JobId>, t: JobId)
    ensures sent + queue + (buffer + [t]) == sent + queue + buffer + [t]
  {
  }

  lemma BufferKeeps(f: Flow, job: Job)
    requires Inv(f) && job.peer !in f.ready && job.peer !in f.blocked
    ensures forall i :: 0 <= i < |Get(f.buffer, job.peer)| ==> Get(f.buffer, job.peer)[i] < |f.jobs|
    ensures Inv(Buffer(f, job)) && Settled(f, Buffer(f, job))
  {
    ListsRise(f, job.peer);
    BufferReadiness(f, job);
    if |Get(f.buffer, job.peer)| >= BUFFER_PER_PEER {
      DropOldestKeeps(f, job.peer);
      BufferedKeeps(DropOldest(f, job.peer), job);
    } else {
      BufferedKeeps(f, job);
    }
  }

  lemma EnqueueInOrder(f: Flow, job: Job)
    requires InOrder(f) && Get(f.buffer, job.peer) == []
    ensures InOrder(Enqueue(f, job))
  {
    var list := Get(f.queue, job.peer);
    assert Get(f.sent, job.peer) + (list + [|f.jobs|]) + [] == Get(f.sent, job.peer) + list + [] + [|f.jobs|];
    LoggedInOrder(f, job, Enqueue(f, job));
  }

  lemma EnqueuePlaced(f: Flow, job: Job)
    requires Placed(f)
    ensures Placed(Enqueue(f, job)) && Settled(f, Enqueue(f, job))
  {
    var s := if |Get(f.queue, job.peer)| >= QUEUE_PER_PEER then AnswerTo(job, false) else Queued;
    LoggedPlaced(f, job, s, Enqueue(f, job));
  }

  lemma EnqueueKeeps(f: Flow, job: Job)
    requires Inv(f) && job.peer in f.ready
    ensures Inv(Enqueue(f, job)) && Settled(f, Enqueue(f, job))
  {
    EnqueueReadiness(f, job);
    assert WaitsAt(f, job.peer);
    EnqueuePlaced(f, job);
    EnqueueInOrder(f, job);
  }

  lemma RefuseKeeps(f: Flow, job: Job)
    requires Inv(f)
    ensures Inv(Log(f, job, Finished(Abandoned))) && Settled(f, Log(f, job, Finished(Abandoned)))
  {
    var f' := Log(f, job, Finished(Abandoned));
    assert WaitsAt(f, job.peer);
    OneListChanged(f, f', job.peer);
    LoggedPlaced(f, job, Finished(Abandoned), f');
    LoggedInOrder(f, job, f');
  }

  lemma SubmitKeeps(f: Flow, job: Job)
    requires Inv(f)
    ensures forall i :: 0 <= i < |Get(f.buffer, job.peer)| ==> Get(f.buffer, job.peer)[i] < |f.jobs|
    ensures Inv(Submit(f, job)) && Settled(f, Submit(f, job))
  {
    ListsRise(f, job.peer);
    if job.peer in f.blocked {
      RefuseKeeps(f, job);
    } else if job.peer !in f.ready {
      BufferKeeps(f, job);
    } else {
      EnqueueKeeps(f, job);
    }
  }

  /** An empty queue is removed. */
  function Forget(f: Flow, p: Peer): (f': Flow) {
    f.(queue := f.queue - {p})
  }

  lemma ForgetPlaced(f: Flow, p: Peer)
    requires Placed(f) && Get(f.queue, p) == []
    ensures Placed(Forget(f, p))
  {
    var f' := Forget(f, p);
    forall q
      ensures ListsAt(f', q)
    {
      assert ListsAt(f, q);
    }
    forall t | 0 <= t < |f.jobs|
      ensures Found(f', t)
    {
      assert Found(f, t);
    }
  }

  lemma ForgetReadiness(f: Flow, p: Peer)
    requires Readiness(f) && Get(f.queue, p) == []
    ensures Readiness(Forget(f, p))
  {
    assert WaitsAt(f, p);
    OneListChanged(f, Forget(f, p), p);
  }

  lemma ForgetInOrder(f: Flow, p: Peer)
    requires InOrder(f) && Get(f.queue, p) == []
    ensures InOrder(Forget(f, p))
  {
    CutInOrder(f, p, Forget(f, p));
  }

  lemma ForgetKeeps(f: Flow, p: Peer)
    requires Inv(f) && Get(f.queue, p) == []
    ensures Inv(Forget(f, p)) && Settled(f, Forget(f, p))
  {
    ForgetReadiness(f, p);
    ForgetPlaced(f, p);
    ForgetInOrder(f, p);
    SettledAtOnce(f);
  }

  // ------------------------------------------------------------------------------------------
  // Runs
  // ------------------------------------------------------------------------------------------

  datatype Step =
    | Submitted(job: Job)
    | Sent(peer: Peer)
    | Forgotten(peer: Peer)
    | Answered(request: RequestId, ok: bool)
    | HandshakeSucceeded(peer: Peer)
    | PeerBlocked(peer: Peer)
    | ConnectionClosed(peer: Peer, remaining: nat)

  /** Every list entry and pending request a step looks at names a job. */
  ghost predicate InBounds(f: Flow, step: Step) {
    && |f.jobs| == |f.status|
    && (step.Submitted? ==> BufferNamesJobs(f, step.job.peer))
    && (step.Sent? && Get(f.queue, step.peer) != [] ==> Get(f.queue, step.peer)[0] < |f.status|)
    && (step.Answered? && step.request in f.pending ==> f.pending[step.request].job < |f.jobs|)
  }

  ghost predicate BufferNamesJobs(f: Flow, p: Peer) {
    forall i :: 0 <= i < |Get(f.buffer, p)| ==> Get(f.buffer, p)[i] < |f.jobs|
  }

  /** When the loop may take a step: sending needs a job and room, forgetting an empty queue. */
  ghost predicate Allowed(f: Flow, step: Step) {
    && (step.Sent? ==>
          && Get(f.queue, step.peer) != []
          && f.total < f.limits.total && InFlightTo(f.perPeer, step.peer) < f.limits.perPeer)
    && (step.Forgotten? ==> Get(f.queue, step.peer) == [])
  }

  ghost predicate Enabled(f: Flow, step: Step) {
    InBounds(f, step) && Allowed(f, step)
  }

  ghost function Next(f: Flow, step: Step): (f': Flow)
    requires Enabled(f, step)
  {
    match step
    case Submitted(job) => Submit(f, job)
    case Sent(p) => Send(f, p)
    case Forgotten(p) => Forget(f, p)
    case Answered(r, ok) => Complete(f, r, ok)
    case HandshakeSucceeded(p) => BecomeReady(f, p)
    case PeerBlocked(p) => Block(f, p)
    case ConnectionClosed(p, remaining) => Closed(f, p, remaining)
  }

  lemma NextKeeps(f: Flow, step: Step)
    requires Inv(f) && Enabled(f, step)
    ensures Inv(Next(f, step)) && Settled(f, Next(f, step))
  {
    match step
    case Submitted(job) => SubmitKeeps(f, job);
    case Sent(p) => SendKeeps(f, p);
    case Forgotten(p) => ForgetKeeps(f, p);
    case Answered(r, ok) => CompleteKeeps(f, r, ok);
    case HandshakeSucceeded(p) => BecomeReadyKeeps(f, p);
    case PeerBlocked(p) => BlockKeeps(f, p);
    case ConnectionClosed(p, remaining) => ClosedKeeps(f, p, remaining);
  }

  /** No step is ever held up by its bounds. */
  lemma AlwaysInBounds(f: Flow, step: Step)
    requires Inv(f)
    ensures InBounds(f, step)
  {
    match step
    case Submitted(job) => SubmitKeeps(f, job);
    case Sent(p) => assert ListsAt(f, p);
      if Get(f.queue, p) != [] { assert IsJob(f.jobs, f.status, Get(f.queue, p)[0], p, Queued); }
    case Answered(r, ok) => CompleteKeeps(f, r, ok);
    case _ =>
  }

  ghost predicate IsStep(f: Flow, f': Flow) {
    exists step :: Enabled(f, step) && f' == Next(f, step)
  }

  /** The states of a run, from the empty loop on. */
  ghost predicate IsRun(run: seq<Flow>, limits: Limits) {
    && run != [] && run[0] == Initial(limits)
    && forall i, j {:trigger IsStep(run[i], run[j])} :: 0 <= i && j == i + 1 && j < |run| ==> IsStep(run[i], run[j])
  }

  lemma StepKeeps(f: Flow, f': Flow)
    requires Inv(f) && IsStep(f, f')
    ensures Inv(f') && Settled(f, f')
  {
    var step :| Enabled(f, step) && f' == Next(f, step);
    NextKeeps(f, step);
  }

  lemma {:induction false} EveryRunKeepsInv(run: seq<Flow>, limits: Limits, n: nat)
    requires IsRun(run, limits) && n < |run|
    ensures Inv(run[n])
  {
    if n == 0 {
      InitialInv(limits);
    } else {
      EveryRunKeepsInv(run, limits, n - 1);
      StepKeeps(run[n - 1], run[n]);
    }
  }

  lemma EveryStepSettles(run: seq<Flow>, limits: Limits, n: nat)
    requires IsRun(run, limits) && 0 < n < |run|
    ensures Settled(run[n - 1], run[n])
  {
    EveryRunKeepsInv(run, limits, n - 1);
    StepKeeps(run[n - 1], run[n]);
  }

  lemma SettledAtOnce(f: Flow)
    requires |f.jobs| == |f.status|
    ensures Settled(f, f)
  {
  }

  lemma SettledTransitive(a: Flow, b: Flow, c: Flow)
    requires Settled(a, b) && Settled(b, c)
    ensures Settled(a, c)
  {
  }

  /** A job is answered at most once: what is finished in one state of a run is so in all later ones. */
  lemma {:induction false} AnsweredAtMostOnce(run: seq<Flow>, limits: Limits, i: nat, j: nat)
    requires IsRun(run, limits) && i <= j < |run|
    ensures Settled(run[i], run[j])
  {
    if i == j {
      EveryRunKeepsInv(run, limits, i);
      SettledAtOnce(run[i]);
    } else {
      AnsweredAtMostOnce(run, limits, i, j - 1);
      EveryStepSettles(run, limits, j);
      SettledTransitive(run[i], run[j - 1], run[j]);
    }
  }

  ghost predicate AtMostOnce(list: seq<JobId>, t: JobId) {
    forall i, j :: 0 <= i < j < |list| ==> list[i] != t || list[j] != t
  }

  lemma ListedOnce(jobs: seq<Job>, status: seq<Status>, list: seq<JobId>, p: Peer, s: Status, t: JobId)
    requires AllAre(jobs, status, list, p, s) && Rising(list) && t in list
    ensures IsJob(jobs, status, t, p, s) && AtMostOnce(list, t)
  {
  }

  /** Every submitted job is in exactly one place, exactly once. */
  lemma ExactlyOnePlace(f: Flow, t: JobId, p: Peer, r: RequestId)
    requires Placed(f) && InOrder(f) && t < |f.jobs|
    ensures t in Get(f.buffer, p) <==> f.status[t] == Buffered && f.jobs[t].peer == p
    ensures t in Get(f.queue, p) <==> f.status[t] == Queued && f.jobs[t].peer == p
    ensures r in f.pending && f.pending[r].job == t <==> f.status[t] == InFlight(r)
    ensures AtMostOnce(Get(f.buffer, p), t) && AtMostOnce(Get(f.queue, p), t)
  {
    assert ListsAt(f, p) && Found(f, t);
    ListsRise(f, p);
    if t in Get(f.buffer, p) { ListedOnce(f.jobs, f.status, Get(f.buffer, p), p, Buffered, t); }
    if t in Get(f.queue, p) { ListedOnce(f.jobs, f.status, Get(f.queue, p), p, Queued, t); }
    if r in f.pending { assert IsJob(f.jobs, f.status, f.pending[r].job, f.pending[r].peer, InFlight(r)); }
  }

  /** What was sent to a peer is a subsequence of what was submitted for it, in the same order. */
  lemma SentIsSubsequence(f: Flow, p: Peer)
    requires Inv(f)
    ensures Rising(Get(f.sent, p)) && Addressed(f.jobs, Get(f.sent, p), p)
  {
    var line := Line(f, p);
    assert Rising(line) && Addressed(f.jobs, line, p);
    assert Get(f.sent, p) == line[..|Get(f.sent, p)|];
  }

  // ------------------------------------------------------------------------------------------
  // What a job is told, and why
  // ------------------------------------------------------------------------------------------

  /** The outcome of a job that is answered: whoever waits for the reply learns whether it worked. */
  ghost predicate Learns(job: Job, s: Status, ok: bool) {
    if job.wantsReply then s == Finished(Replied(ok)) else s == Finished(Silent)
  }

  /** A response or failure of a pending request ends its job, and tells it which of them it was. */
  lemma AnswerIsTold(f: Flow, r: RequestId, ok: bool)
    requires Inv(f)
    ensures InBounds(f, Answered(r, ok))
    ensures var f' := Complete(f, r, ok);
            if r in f.pending
            then f.pending[r].job < |f.jobs| == |f'.status| && Learns(f.jobs[f.pending[r].job], f'.status[f.pending[r].job], ok)
                 && r !in f'.pending
            else f' == f
  {
    AlwaysInBounds(f, Answered(r, ok));
  }

  /** The end of the last connection ends all jobs of the peer: those in flight learn that they failed. */
  lemma LastCloseIsTold(f: Flow, p: Peer, t: JobId)
    requires |f.jobs| == |f.status| && t < |f.jobs|
    ensures var f' := Closed(f, p, 0);
            && |f'.status| == |f.status|
            && (f.jobs[t].peer == p && f.status[t].InFlight? ==> Learns(f.jobs[t], f'.status[t], false))
            && (f.jobs[t].peer == p && (f.status[t].Queued? || f.status[t].Buffered?) ==> f'.status[t] == Finished(Abandoned))
            && (f.jobs[t].peer != p ==> f'.status[t] == f.status[t])
  {
    var g := DropPending(Leave(f, p), p);
    assert g.status[t] == GivenUp(f.jobs[t], f.status[t], p, false, true);
    assert Closed(f, p, 0).status[t] == GivenUp(f.jobs[t], g.status[t], p, true, false);
  }

  /** The end of another one matters only to a peer neither ready nor blocked, whose pending requests fail. */
  lemma CloseIsTold(f: Flow, p: Peer, remaining: nat, t: JobId)
    requires |f.jobs| == |f.status| && t < |f.jobs| && remaining > 0
    ensures p in f.ready || p in f.blocked ==> Closed(f, p, remaining) == f
    ensures p !in f.ready && p !in f.blocked && f.jobs[t].peer == p && f.status[t].InFlight? ==>
              var f' := Closed(f, p, remaining);
              |f'.status| == |f.status| && Learns(f.jobs[t], f'.status[t], false) && PendingOf(f'.pending, p) == {}
  {
  }

  /** After the last connection closed, nothing of the peer is left. */
  lemma CloseLeavesNothing(f: Flow, p: Peer)
    requires |f.jobs| == |f.status|
    ensures var f' := Closed(f, p, 0);
            && p !in f'.ready && p !in f'.peers && PendingOf(f'.pending, p) == {}
            && Get(f'.queue, p) == [] && Get(f'.buffer, p) == [] && (p in f'.blocked <==> p in f.blocked)
  {
  }

  lemma BlockIsTold(f: Flow, p: Peer, t: JobId)
    requires |f.jobs| == |f.status| && t < |f.jobs|
    ensures var f' := Block(f, p);
            && |f'.status| == |f.status|
            && p in f'.blocked && p !in f'.ready && Get(f'.queue, p) == [] && Get(f'.buffer, p) == [] && f'.pending == f.pending
            && f'.status[t] == (if f.jobs[t].peer == p && (f.status[t].Queued? || f.status[t].Buffered?)
                                then Finished(Abandoned) else f.status[t])
  {
  }

  /** A handshake makes the peer ready and lets all that was buffered for it go ahead, behind what is queued. */
  lemma HandshakeOpens(f: Flow, p: Peer, t: JobId)
    requires Inv(f) && t < |f.jobs|
    ensures var f' := BecomeReady(f, p);
            && |f'.status| == |f.status|
            && p in f'.ready && p !in f'.blocked && Get(f'.buffer, p) == []
            && Get(f'.queue, p) == Get(f.queue, p) + Get(f.buffer, p)
            && f'.status[t] == (if t in Get(f.buffer, p) then Queued else f.status[t])
  {
    ExactlyOnePlace(f, t, p, 0);
  }

  /** A job for a blocked peer is abandoned. */
  lemma BlockedIsAbandoned(f: Flow, job: Job)
    requires |f.jobs| == |f.status| && BufferNamesJobs(f, job.peer) && job.peer in f.blocked
    ensures Submit(f, job) == f.(jobs := f.jobs + [job], status := f.status + [Finished(Abandoned)])
  {
  }

  /** A job for a ready peer is queued last, or refused by a full queue and told so. */
  lemma SubmittedIsPlaced(f: Flow, job: Job)
    requires |f.jobs| == |f.status| && BufferNamesJobs(f, job.peer) && job.peer !in f.blocked && job.peer in f.ready
    ensures var f', t, list := Submit(f, job), |f.jobs|, Get(f.queue, job.peer);
            && |f'.status| == t + 1 && f'.jobs == f.jobs + [job] && f'.status[..t] == f.status
            && if |list| < QUEUE_PER_PEER then f'.status[t] == Queued && Get(f'.queue, job.peer) == list + [t]
               else Learns(job, f'.status[t], false) && Get(f'.queue, job.peer) == list
  {
    assert Submit(f, job) == Enqueue(f, job);
  }

  /** A job for any other peer is buffered last; only a full buffer gives way, by its oldest job alone, which learns so. */
  lemma OldestGivesWay(f: Flow, job: Job)
    requires |f.jobs| == |f.status| && BufferNamesJobs(f, job.peer) && job.peer !in f.blocked && job.peer !in f.ready
    ensures var f', t, list := Submit(f, job), |f.jobs|, Get(f.buffer, job.peer);
            && |f'.status| == |f'.jobs| == t + 1 && f'.jobs == f.jobs + [job] && f'.status[t] == Buffered
            && if |list| < BUFFER_PER_PEER then f'.status[..t] == f.status && Get(f'.buffer, job.peer) == list + [t]
               else && Get(f'.buffer, job.peer) == list[1..] + [t] && Learns(f.jobs[list[0]], f'.status[list[0]], false)
                    && forall u :: 0 <= u < t && u != list[0] ==> f'.status[u] == f.status[u]
  {
    var list := Get(f.buffer, job.peer);
    if |list| >= BUFFER_PER_PEER {
      assert Submit(f, job).status == f.status[list[0] := AnswerTo(f.jobs[list[0]], false)] + [Buffered];
    } else {
      assert Submit(f, job).status == f.status + [Buffered];
    }
  }

  predicate Waits(s: Status) {
    s == Queued || s == Buffered
  }

  /** A step that answers a job with a failure: its request failed or was dropped, or it was refused or pushed out. */
  ghost predicate Fails(f: Flow, step: Step, t: JobId) {
    match step
    case Answered(r, ok) => !ok && t < |f.status| && f.status[t] == InFlight(r)
    case ConnectionClosed(p, _) => t < |f.status| == |f.jobs| && f.status[t].InFlight? && f.jobs[t].peer == p
    case Submitted(job) =>
      || (t == |f.jobs| && job.peer in f.ready && |Get(f.queue, job.peer)| >= QUEUE_PER_PEER)
      || (|Get(f.buffer, job.peer)| >= BUFFER_PER_PEER && t == Get(f.buffer, job.peer)[0])
    case _ => false
  }

  ghost predicate Succeeds(f: Flow, step: Step, t: JobId) {
    t < |f.status| && f.status[t].InFlight? && step == Answered(f.status[t].request, true)
  }

  /** A step that gives up a job nobody has sent: its peer is blocked or gone. */
  ghost predicate GivesUp(f: Flow, step: Step, t: JobId) {
    match step
    case PeerBlocked(p) => t < |f.status| == |f.jobs| && Waits(f.status[t]) && f.jobs[t].peer == p
    case ConnectionClosed(p, remaining) => remaining == 0 && t < |f.status| == |f.jobs| && Waits(f.status[t]) && f.jobs[t].peer == p
    case Submitted(job) => t == |f.jobs| && job.peer in f.blocked
    case _ => false
  }

  ghost predicate Ends(f: Flow, step: Step, t: JobId, outcome: Outcome) {
    match outcome
    case Replied(ok) => if ok then Succeeds(f, step, t) else Fails(f, step, t)
    case Silent => Succeeds(f, step, t) || Fails(f, step, t)
    case Abandoned => GivesUp(f, step, t)
  }

  ghost predicate EndsAt(f: Flow, f': Flow, t: JobId, outcome: Outcome) {
    exists step :: Enabled(f, step) && f' == Next(f, step) && Ends(f, step, t, outcome)
  }

  /** Only who wants a reply gets one. */
  ghost predicate Fitting(job: Job, s: Status) {
    s.Finished? ==> (s.outcome.Replied? ==> job.wantsReply) && (s.outcome.Silent? ==> !job.wantsReply)
  }

  /** If the job is finished after the step, it was before, or the step ended it as it says. */
  ghost predicate Caused(f: Flow, f': Flow, step: Step, t: JobId) {
    |f'.jobs| == |f'.status| &&
    (t < |f'.status| && f'.status[t].Finished? ==>
       || (t < |f.status| && f'.status[t] == f.status[t])
       || (Fitting(f'.jobs[t], f'.status[t]) && Ends(f, step, t, f'.status[t].outcome)))
  }

  lemma BufferCauses(f: Flow, job: Job, t: JobId)
    requires InBounds(f, Submitted(job)) && job.peer !in f.blocked && job.peer !in f.ready
    ensures Caused(f, Submit(f, job), Submitted(job), t)
  {
    if |Get(f.buffer, job.peer)| >= BUFFER_PER_PEER {
      var g := DropOldest(f, job.peer);
      assert Submit(f, job).status == g.status + [Buffered] && Submit(f, job).jobs == f.jobs + [job];
    } else {
      assert Submit(f, job).status == f.status + [Buffered];
    }
  }

  lemma EnqueueCauses(f: Flow, job: Job, t: JobId)
    requires InBounds(f, Submitted(job)) && (job.peer in f.blocked || job.peer in f.ready)
    ensures Caused(f, Submit(f, job), Submitted(job), t)
  {
  }

  lemma AnswerCauses(f: Flow, r: RequestId, ok: bool, t: JobId)
    requires InBounds(f, Answered(r, ok))
    requires r in f.pending ==> IsJob(f.jobs, f.status, f.pending[r].job, f.pending[r].peer, InFlight(r))
    ensures Caused(f, Complete(f, r, ok), Answered(r, ok), t)
  {
  }

  lemma BlockCauses(f: Flow, p: Peer, t: JobId)
    requires |f.jobs| == |f.status|
    ensures Caused(f, Block(f, p), PeerBlocked(p), t)
  {
    if t < |f.jobs| { BlockIsTold(f, p, t); }
  }

  lemma CloseCauses(f: Flow, p: Peer, remaining: nat, t: JobId)
    requires |f.jobs| == |f.status|
    ensures Caused(f, Closed(f, p, remaining), ConnectionClosed(p, remaining), t)
  {
    var g := Leave(f, p);
    assert g.jobs == f.jobs && g.status == f.status;
    if t < |f.jobs| {
      assert remaining == 0 ==> Closed(f, p, remaining).status[t]
                                == GivenUp(f.jobs[t], GivenUp(f.jobs[t], f.status[t], p, false, true), p, true, false);
    }
  }

  lemma MoveCauses(f: Flow, step: Step, t: JobId)
    requires Enabled(f, step) && (step.Sent? || step.Forgotten? || step.HandshakeSucceeded?)
    ensures Caused(f, Next(f, step), step, t)
  {
  }

  lemma StepCauses(f: Flow, step: Step, t: JobId)
    requires Enabled(f, step)
    requires step.Answered? && step.request in f.pending ==>
               IsJob(f.jobs, f.status, f.pending[step.request].job, f.pending[step.request].peer, InFlight(step.request))
    ensures Caused(f, Next(f, step), step, t)
  {
    match step
    case Submitted(job) =>
      if job.peer in f.blocked || job.peer in f.ready { EnqueueCauses(f, job, t); } else { BufferCauses(f, job, t); }
    case Answered(r, ok) => AnswerCauses(f, r, ok, t);
    case PeerBlocked(p) => BlockCauses(f, p, t);
    case ConnectionClosed(p, remaining) => CloseCauses(f, p, remaining, t);
    case _ => MoveCauses(f, step, t);
  }

  lemma CausedByStep(f: Flow, f': Flow, t: JobId) returns (step: Step)
    requires Inv(f) && IsStep(f, f')
    ensures Enabled(f, step) && f' == Next(f, step) && Caused(f, f', step, t)
    ensures f.jobs <= f'.jobs && |f.jobs| == |f.status|
  {
    step :| Enabled(f, step) && f' == Next(f, step);
    StepKeeps(f, f');
    StepCauses(f, step, t);
  }

  ghost predicate EndedBefore(run: seq<Flow>, n: nat, t: JobId, outcome: Outcome)
    requires n < |run|
  {
    exists i, j {:trigger EndsAt(run[i], run[j], t, outcome)} :: 0 <= i < n && j == i + 1 && EndsAt(run[i], run[j], t, outcome)
  }

  lemma EndedLater(run: seq<Flow>, n: nat, t: JobId, outcome: Outcome)
    requires 0 < n < |run| && EndedBefore(run, n - 1, t, outcome)
    ensures EndedBefore(run, n, t, outcome)
  {
    var i, j :| 0 <= i < n - 1 && j == i + 1 && EndsAt(run[i], run[j], t, outcome);
  }

  /** The outcome fits what the job wants, and a step before gave it. */
  ghost predicate HasCause(run: seq<Flow>, n: nat, t: JobId)
    requires n < |run|
  {
    t < |run[n].status| == |run[n].jobs| && run[n].status[t].Finished? ==>
      Fitting(run[n].jobs[t], run[n].status[t]) && EndedBefore(run, n, t, run[n].status[t].outcome)
  }

  lemma SizesMatch(run: seq<Flow>, limits: Limits, n: nat)
    requires IsRun(run, limits) && n < |run|
    ensures |run[n].status| == |run[n].jobs|
  {
    EveryRunKeepsInv(run, limits, n);
  }

  lemma CauseStays(run: seq<Flow>, limits: Limits, n: nat, t: JobId)
    requires IsRun(run, limits) && 0 < n < |run| && HasCause(run, n - 1, t)
    ensures HasCause(run, n, t)
  {
    EveryRunKeepsInv(run, limits, n - 1);
    var step := CausedByStep(run[n - 1], run[n], t);
    if t < |run[n].status| == |run[n].jobs| && run[n].status[t].Finished? {
      if t < |run[n - 1].status| && run[n].status[t] == run[n - 1].status[t] {
        EndedLater(run, n, t, run[n].status[t].outcome);
      } else {
        assert EndsAt(run[n - 1], run[n], t, run[n].status[t].outcome);
      }
    }
  }

  /**
    Every outcome in every run has its cause: a job is answered with success only if its response
    came while it was in flight, with a failure only if its request failed or was dropped, or it
    was refused or pushed out, and it is abandoned only while it waits.
   */
  lemma {:induction false} OutcomeHasCause(run: seq<Flow>, limits: Limits, n: nat, t: JobId)
    requires IsRun(run, limits) && n < |run|
    ensures |run[n].status| == |run[n].jobs| && HasCause(run, n, t)
  {
    SizesMatch(run, limits, n);
    if n > 0 {
      OutcomeHasCause(run, limits, n - 1, t);
      CauseStays(run, limits, n, t);
    }
  }

  // ------------------------------------------------------------------------------------------
  // Closing a connection leaves the queues as they are
  // ------------------------------------------------------------------------------------------

  /** Closing the connection drops none of the peer's requests. */
  ghost predicate DropsNothing(f: Flow, p: Peer, remaining: nat) {
    (remaining > 0 && (p in f.ready || p in f.blocked)) || InFlightTo(f.perPeer, p) == 0
  }

  /** No other peer waits for the total alone. */
  ghost predicate OthersFull(f: Flow, p: Peer) {
    forall q :: q != p && Get(f.queue, q) != [] ==> InFlightTo(f.perPeer, q) >= f.limits.perPeer
  }

  /** Requests that are dropped are uncounted. */
  lemma DroppedMakeRoom(f: Flow, p: Peer, remaining: nat)
    requires Accounted(f) && |f.jobs| == |f.status| && !DropsNothing(f, p, remaining)
    ensures Closed(f, p, remaining).total < f.limits.total
  {
    assert CountedAt(f.pending, f.perPeer, f.limits.perPeer, p);
    CountAfterDrop(f.pending, p, p);
  }

  /** Other peers keep their queues and their counts. */
  lemma ClosedTouchesOne(f: Flow, p: Peer, remaining: nat, q: Peer)
    requires |f.jobs| == |f.status| && q != p
    ensures var f' := Closed(f, p, remaining);
            Get(f'.queue, q) == Get(f.queue, q) && InFlightTo(f'.perPeer, q) == InFlightTo(f.perPeer, q) && f'.limits == f.limits
  {
  }

  lemma NothingDropped(f: Flow, p: Peer, remaining: nat, q: Peer)
    requires Accounted(f) && |f.jobs| == |f.status| && DropsNothing(f, p, remaining) && DrainedAt(f, q)
    ensures DrainedAt(Closed(f, p, remaining), q)
  {
    assert CountedAt(f.pending, f.perPeer, f.limits.perPeer, p);
  }

  lemma OwnQueueIsGone(f: Flow, p: Peer, remaining: nat)
    requires Readiness(f) && |f.jobs| == |f.status| && !DropsNothing(f, p, remaining)
    ensures DrainedAt(Closed(f, p, remaining), p)
  {
    assert WaitsAt(f, p);
  }

  /** Where nothing more could be sent before a connection closes, something can be afterwards unless one of these holds. */
  lemma ClosedIsDrained(f: Flow, p: Peer, remaining: nat)
    requires Inv(f) && Drained(f)
    ensures Drained(Closed(f, p, remaining)) <==> DropsNothing(f, p, remaining) || OthersFull(f, p)
  {
    if DropsNothing(f, p, remaining) {
      forall q { NothingDropped(f, p, remaining, q); }
    } else {
      DroppedMakeRoom(f, p, remaining);
      OwnQueueIsGone(f, p, remaining);
      forall q | q != p
        ensures DrainedAt(Closed(f, p, remaining), q) <==> Get(f.queue, q) != [] ==> InFlightTo(f.perPeer, q) >= f.limits.perPeer
      {
        ClosedTouchesOne(f, p, remaining, q);
      }
    }
  }

  lemma ExtendRun(run: seq<Flow>, limits: Limits, f': Flow)
    requires IsRun(run, limits) && IsStep(run[|run| - 1], f')
    ensures IsRun(run + [f'], limits)
  {
    var run' := run + [f'];
    forall i, j | 0 <= i && j == i + 1 && j < |run'|
      ensures IsStep(run'[i], run'[j])
    {
      if j < |run| { assert IsStep(run[i], run[j]); }
    }
  }

  /** Where the loop may take a step, its run goes on with it. */
  lemma TakeStep(run: seq<Flow>, limits: Limits, step: Step) returns (run': seq<Flow>)
    requires IsRun(run, limits) && Allowed(run[|run| - 1], step)
    ensures Enabled(run[|run| - 1], step)
    ensures IsRun(run', limits) && run' == run + [Next(run[|run| - 1], step)]
  {
    EveryRunKeepsInv(run, limits, |run| - 1);
    AlwaysInBounds(run[|run| - 1], step);
    run' := run + [Next(run[|run| - 1], step)];
    ExtendRun(run, limits, Next(run[|run| - 1], step));
  }

  /** The first `n` peers are ready, and these many requests are in flight. */
  ghost predicate Busy(f: Flow, limits: Limits, n: nat, total: nat, perPeer: map<Peer, nat>) {
    f.limits == limits && f.blocked == {} && f.ready == FirstPeers(n) && f.total == total && f.perPeer == perPeer
  }

  ghost predicate NothingWaits(f: Flow) {
    forall q :: Get(f.queue, q) == [] && Get(f.buffer, q) == []
  }

  /** One job waits, in the queue of its peer. */
  ghost predicate OneWaits(f: Flow, p: Peer) {
    && |Get(f.queue, p)| == 1
    && forall q :: (q != p ==> Get(f.queue, q) == []) && Get(f.buffer, q) == []
  }

  function FirstPeers(n: nat): (r: set<Peer>) {
    if n == 0 then {} else FirstPeers(n - 1) + {n - 1}
  }

  lemma {:induction false} FirstPeersAre(n: nat, q: Peer)
    ensures q in FirstPeers(n) <==> q < n
  {
    if n > 0 { FirstPeersAre(n - 1, q); }
  }

  lemma ReadyQueues(f: Flow, limits: Limits, n: nat, total: nat, perPeer: map<Peer, nat>, p: Peer)
    requires Busy(f, limits, n, total, perPeer) && NothingWaits(f) && p in f.ready && Enabled(f, Submitted(Job(p, false)))
    ensures var f' := Next(f, Submitted(Job(p, false))); Busy(f', limits, n, total, perPeer) && OneWaits(f', p)
  {
    var f' := Enqueue(f, Job(p, false));
    assert Get(f.queue, p) == [];
    assert f'.queue == f.queue[p := [] + [|f.jobs|]] && f'.buffer == f.buffer;
    forall q
      ensures (q != p ==> Get(f'.queue, q) == []) && Get(f'.buffer, q) == []
    {
      assert Get(f.queue, q) == [] && Get(f.buffer, q) == [];
    }
  }

  lemma SendEmpties(f: Flow, limits: Limits, n: nat, total: nat, perPeer: map<Peer, nat>, p: Peer)
    requires Busy(f, limits, n, total, perPeer) && OneWaits(f, p) && Enabled(f, Sent(p))
    ensures var f' := Next(f, Sent(p));
            Busy(f', limits, n, total + 1, perPeer[p := InFlightTo(perPeer, p) + 1]) && NothingWaits(f')
  {
    var f' := Next(f, Sent(p));
    forall q
      ensures Get(f'.queue, q) == [] && Get(f'.buffer, q) == []
    {
      assert Get(f.buffer, q) == [];
    }
  }

  lemma SubmitAndSend(run: seq<Flow>, limits: Limits, n: nat, total: nat, perPeer: map<Peer, nat>, p: Peer) returns (run': seq<Flow>)
    requires IsRun(run, limits) && Busy(run[|run| - 1], limits, n, total, perPeer) && NothingWaits(run[|run| - 1])
    requires p < n && total < limits.total && InFlightTo(perPeer, p) < limits.perPeer
    ensures IsRun(run', limits) && NothingWaits(run'[|run'| - 1])
    ensures Busy(run'[|run'| - 1], limits, n, total + 1, perPeer[p := InFlightTo(perPeer, p) + 1])
  {
    FirstPeersAre(n, p);
    run' := TakeStep(run, limits, Submitted(Job(p, false)));
    ReadyQueues(run[|run| - 1], limits, n, total, perPeer, p);
    var f := run'[|run'| - 1];
    run' := TakeStep(run', limits, Sent(p));
    SendEmpties(f, limits, n, total, perPeer, p);
  }

  lemma HandshakeAdds(f: Flow, limits: Limits, n: nat, total: nat, perPeer: map<Peer, nat>)
    requires Busy(f, limits, n, total, perPeer) && NothingWaits(f) && Enabled(f, HandshakeSucceeded(n))
    ensures var f' := Next(f, HandshakeSucceeded(n)); Busy(f', limits, n + 1, total, perPeer) && NothingWaits(f')
  {
    var f' := Next(f, HandshakeSucceeded(n));
    forall q
      ensures Get(f'.queue, q) == [] && Get(f'.buffer, q) == []
    {
      assert Get(f.queue, q) == [] && Get(f.buffer, q) == [];
    }
  }

  lemma MakeReady(run: seq<Flow>, limits: Limits, n: nat, total: nat, perPeer: map<Peer, nat>) returns (run': seq<Flow>)
    requires IsRun(run, limits) && Busy(run[|run| - 1], limits, n, total, perPeer) && NothingWaits(run[|run| - 1])
    ensures IsRun(run', limits) && Busy(run'[|run'| - 1], limits, n + 1, total, perPeer) && NothingWaits(run'[|run'| - 1])
  {
    run' := TakeStep(run, limits, HandshakeSucceeded(n));
    HandshakeAdds(run[|run| - 1], limits, n, total, perPeer);
  }

  function TwoEach(n: nat): (m: map<Peer, nat>) {
    if n == 0 then map[] else TwoEach(n - 1)[n - 1 := 2]
  }

  lemma {:induction false} TwoEachIs(n: nat, q: Peer)
    ensures InFlightTo(TwoEach(n), q) == if q < n then 2 else 0
  {
    if n > 0 { TwoEachIs(n - 1, q); }
  }

  lemma {:induction false} FillUp(limits: Limits, n: nat) returns (run: seq<Flow>)
    requires limits.perPeer == 2 && 2 * n <= limits.total
    ensures IsRun(run, limits) && Busy(run[|run| - 1], limits, n, 2 * n, TwoEach(n)) && NothingWaits(run[|run| - 1])
  {
    if n == 0 {
      run := [Initial(limits)];
    } else {
      run := FillUp(limits, n - 1);
      TwoEachIs(n - 1, n - 1);
      run := MakeReady(run, limits, n - 1, 2 * (n - 1), TwoEach(n - 1));
      run := SubmitAndSend(run, limits, n, 2 * n - 2, TwoEach(n - 1), n - 1);
      run := SubmitAndSend(run, limits, n, 2 * n - 1, TwoEach(n - 1)[n - 1 := 1], n - 1);
      assert TwoEach(n - 1)[n - 1 := 1][n - 1 := 2] == TwoEach(n);
    }
  }

  /** All requests in flight belong to the first `n` peers; the next one waits. */
  lemma LastOneWaits(limits: Limits, n: nat) returns (run: seq<Flow>)
    requires limits.perPeer == 2 && 2 * n == limits.total > 0
    ensures IsRun(run, limits) && Busy(run[|run| - 1], limits, n + 1, 2 * n, TwoEach(n)) && OneWaits(run[|run| - 1], n)
  {
    run := FillUp(limits, n);
    run := MakeReady(run, limits, n, 2 * n, TwoEach(n));
    FirstPeersAre(n + 1, n);
    var f := run[|run| - 1];
    run := TakeStep(run, limits, Submitted(Job(n, false)));
    ReadyQueues(f, limits, n + 1, 2 * n, TwoEach(n), n);
  }

  lemma WaitingInVain(f: Flow, limits: Limits, n: nat)
    requires Inv(f) && Busy(f, limits, n + 1, 2 * n, TwoEach(n)) && OneWaits(f, n)
    requires limits.perPeer == 2 && 2 * n == limits.total > 0
    ensures Drained(f) && !Drained(Closed(f, 0, 0))
  {
    TwoEachIs(n, n);
    TwoEachIs(n, 0);
    forall q
      ensures DrainedAt(f, q)
    {
    }
    assert Get(f.queue, n) != [];
    ClosedIsDrained(f, 0, 0);
  }

  lemma WaitingInRun(run: seq<Flow>, limits: Limits, n: nat)
    requires IsRun(run, limits) && Busy(run[|run| - 1], limits, n + 1, 2 * n, TwoEach(n)) && OneWaits(run[|run| - 1], n)
    requires limits.perPeer == 2 && 2 * n == limits.total > 0
    ensures var f := run[|run| - 1]; |f.jobs| == |f.status| && Drained(f) && !Drained(Closed(f, 0, 0))
  {
    EveryRunKeepsInv(run, limits, |run| - 1);
    WaitingInVain(run[|run| - 1], limits, n);
  }

  lemma WaitThenClose(limits: Limits, n: nat) returns (run: seq<Flow>)
    requires limits.perPeer == 2 && 2 * n == limits.total > 0
    ensures IsRun(run, limits) && EndsByClosing(run, 0) && Drained(run[|run| - 2]) && !Drained(run[|run| - 1])
  {
    run := LastOneWaits(limits, n);
    WaitingInRun(run, limits, n);
    run := TakeStep(run, limits, ConnectionClosed(0, 0));
  }

  /** The last step of the run closes the last connection to a peer. */
  ghost predicate EndsByClosing(run: seq<Flow>, p: Peer) {
    |run| >= 2 && var f := run[|run| - 2]; |f.jobs| == |f.status| && run[|run| - 1] == Closed(f, p, 0)
  }

  /** With the smallest limits: eight peers take all there is and a ninth waits, also after one of the eight has gone. */
  lemma ClosingLeavesRoom() returns (run: seq<Flow>)
    ensures IsRun(run, LimitsFor(0)) && EndsByClosing(run, 0) && Drained(run[|run| - 2]) && !Drained(run[|run| - 1])
  {
    run := WaitThenClose(LimitsFor(0), 8);
  }
}
