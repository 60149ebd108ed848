/**
  The event loop of src/network/service.rs, as far as it moves transfer jobs: its variables, and
  one method per event.  Every method is proved to take steps of `TransferFlow`.  The swarm is an
  environment that hands out fresh request ids and may report anything in any order.
 */
module TransferLoop {
  import opened TransferFlow

  /** The statuses after the jobs of a list have all ended the same way. */
  ghost function MarkAll(status: seq<Status>, list: seq<JobId>, s: Status): (r: seq<Status>)
    ensures |r| == |status|
    ensures forall t :: 0 <= t < |r| ==> r[t] == if t in list then s else status[t]
  {
    seq(|status|, t requires 0 <= t < |status| => if t in list then s else status[t])
  }

  /** Dropping a list of jobs drops their reply channels. */
  method DropList(status: seq<Status>, list: seq<JobId>) returns (status': seq<Status>)
    requires forall i :: 0 <= i < |list| ==> list[i] < |status|
    ensures status' == MarkAll(status, list, Finished(Abandoned))
  {
    status' := status;
    for i := 0 to |list|
      invariant |status'| == |status|
      invariant forall t :: 0 <= t < |status| ==> status'[t] == if t in list[..i] then Finished(Abandoned) else status[t]
    {
      assert list[..i + 1] == list[..i] + [list[i]];
      status' := status'[list[i] := Finished(Abandoned)];
    }
    assert list[..|list|] == list;
  }

  /** Dropping a peer's two lists gives up exactly what waits for it. */
  lemma DroppedLists(f: Flow, p: Peer)
    requires Placed(f) && InOrder(f)
    ensures MarkAll(MarkAll(f.status, Get(f.buffer, p), Finished(Abandoned)), Get(f.queue, p), Finished(Abandoned))
            == GiveUp(f.jobs, f.status, p, true, false)
  {
    var marked := MarkAll(MarkAll(f.status, Get(f.buffer, p), Finished(Abandoned)), Get(f.queue, p), Finished(Abandoned));
    forall t | 0 <= t < |f.status|
      ensures marked[t] == GivenUp(f.jobs[t], f.status[t], p, true, false)
    {
      ExactlyOnePlace(f, t, p, 0);
    }
  }

  lemma ListsNameJobs(f: Flow, p: Peer)
    requires Placed(f)
    ensures forall i :: 0 <= i < |Get(f.buffer, p)| ==> Get(f.buffer, p)[i] < |f.status|
    ensures forall i :: 0 <= i < |Get(f.queue, p)| ==> Get(f.queue, p)[i] < |f.status|
  {
    assert ListsAt(f, p);
    assert forall i :: 0 <= i < |Get(f.buffer, p)| ==> IsJob(f.jobs, f.status, Get(f.buffer, p)[i], p, Buffered);
    assert forall i :: 0 <= i < |Get(f.queue, p)| ==> IsJob(f.jobs, f.status, Get(f.queue, p)[i], p, Queued);
  }

  /** The jobs of a list are queued now. */
  method MarkQueued(status: seq<Status>, list: seq<JobId>) returns (status': seq<Status>)
    requires forall i :: 0 <= i < |list| ==> list[i] < |status|
    ensures status' == MarkAll(status, list, Queued)
  {
    status' := status;
    for i := 0 to |list|
      invariant |status'| == |status|
      invariant forall t :: 0 <= t < |status| ==> status'[t] == if t in list[..i] then Queued else status[t]
    {
      assert list[..i + 1] == list[..i] + [list[i]];
      status' := status'[list[i] := Queued];
    }
    assert list[..|list|] == list;
  }

  lemma ReleasedList(f: Flow, p: Peer)
    requires Placed(f) && InOrder(f)
    ensures MarkAll(f.status, Get(f.buffer, p), Queued) == Release(f.jobs, f.status, p)
    ensures forall i :: 0 <= i < |Get(f.buffer, p)| ==> Get(f.buffer, p)[i] < |f.status|
  {
    var marked := MarkAll(f.status, Get(f.buffer, p), Queued);
    forall t | 0 <= t < |f.status|
      ensures marked[t] == Released(f.jobs[t], f.status[t], p)
    {
      ExactlyOnePlace(f, t, p, 0);
    }
    ListsNameJobs(f, p);
  }

  lemma LeaveCommutes(f: Flow, p: Peer)
    requires |f.jobs| == |f.status|
    ensures DropPending(Leave(f, p), p) == Leave(DropPending(f, p), p)
  {
  }

  ghost predicate PendingSound(jobs: seq<Job>, status: seq<Status>, pending: map<RequestId, Pending>) {
    && |jobs| == |status|
    && (forall r :: r in pending ==> IsJob(jobs, status, pending[r].job, pending[r].peer, InFlight(r)))
    && (forall t :: 0 <= t < |status| ==> IsPending(status[t], pending, t))
  }

  ghost predicate IsPending(s: Status, pending: map<RequestId, Pending>, t: JobId) {
    s.InFlight? ==> s.request in pending && pending[s.request].job == t
  }

  lemma PlacedPending(f: Flow)
    requires Placed(f)
    ensures PendingSound(f.jobs, f.status, f.pending)
  {
    forall t | 0 <= t < |f.status|
      ensures IsPending(f.status[t], f.pending, t)
    {
      assert Found(f, t);
    }
  }

  /** The statuses while the pending requests of a peer are being answered; those in `todo` are still to come. */
  ghost predicate HalfAnswered(jobs: seq<Job>, status: seq<Status>, status': seq<Status>, p: Peer, todo: set<RequestId>, t: JobId)
    requires |jobs| == |status| == |status'| && t < |jobs|
  {
    status'[t] == if status[t].InFlight? && status[t].request in todo then status[t]
                  else GivenUp(jobs[t], status[t], p, false, true)
  }

  /** One more request is looked at, and answered if it is the peer's. */
  lemma AnswerOne(jobs: seq<Job>, status: seq<Status>, before: seq<Status>, after: seq<Status>,
                  pending: map<RequestId, Pending>, p: Peer, todo: set<RequestId>, r: RequestId, t: JobId)
    requires |jobs| == |status| == |before| == |after| && t < |jobs| && r in pending && r in todo
    requires IsJob(jobs, status, pending[r].job, pending[r].peer, InFlight(r)) && IsPending(status[t], pending, t)
    requires after == if pending[r].peer == p then before[pending[r].job := AnswerTo(jobs[pending[r].job], false)] else before
    requires HalfAnswered(jobs, status, before, p, todo, t)
    ensures HalfAnswered(jobs, status, after, p, todo - {r}, t)
  {
  }

  lemma AllAnswered(jobs: seq<Job>, status: seq<Status>, status': seq<Status>, p: Peer)
    requires |jobs| == |status| == |status'| && forall t :: 0 <= t < |status| ==> HalfAnswered(jobs, status, status', p, {}, t)
    ensures status' == GiveUp(jobs, status, p, false, true)
  {
    forall t | 0 <= t < |status|
      ensures status'[t] == GivenUp(jobs[t], status[t], p, false, true)
    {
      assert HalfAnswered(jobs, status, status', p, {}, t);
    }
  }

  /** The `retain` over the pending requests: those of the peer are answered with an error and removed. */
  method RetainOthers(jobs: seq<Job>, status: seq<Status>, pending: map<RequestId, Pending>, p: Peer)
      returns (status': seq<Status>, pending': map<RequestId, Pending>, removed: nat)
    requires PendingSound(jobs, status, pending)
    ensures pending' == pending - PendingOf(pending, p)
    ensures removed == Count(pending, p)
    ensures status' == GiveUp(jobs, status, p, false, true)
  {
    status', pending', removed := status, pending, 0;
    var todo := pending.Keys;
    ghost var gone := {};
    while todo != {}
      invariant todo <= pending.Keys && gone <= PendingOf(pending, p)
      invariant forall r :: r in PendingOf(pending, p) ==> r in gone || r in todo
      invariant gone !! todo && removed == |gone|
      invariant pending' == pending - gone
      invariant |status'| == |status|
      invariant forall t :: 0 <= t < |status| ==> HalfAnswered(jobs, status, status', p, todo, t)
    {
      var r :| r in todo;
      ghost var before, was := status', todo;
      todo := todo - {r};
      assert IsJob(jobs, status, pending[r].job, pending[r].peer, InFlight(r));
      if pending[r].peer == p {
        removed := removed + 1;
        gone := gone + {r};
        status' := status'[pending[r].job := AnswerTo(jobs[pending[r].job], false)];
        pending' := pending' - {r};
      }
      forall t | 0 <= t < |status|
        ensures HalfAnswered(jobs, status, status', p, todo, t)
      {
        AnswerOne(jobs, status, before, status', pending, p, was, r, t);
      }
    }
    assert gone == PendingOf(pending, p);
    AllAnswered(jobs, status, status', p);
  }

  /** The buffer of a peer is appended to its queue, as far as the queue has room. */
  method MoveBuffer(queue: seq<JobId>, buffer: seq<JobId>) returns (queue': seq<JobId>, overflow: seq<JobId>)
    ensures exists k :: 0 <= k <= |buffer| && queue' == queue + buffer[..k] && overflow == buffer[k..]
                        && (k < |buffer| ==> |queue'| >= QUEUE_PER_PEER)
    ensures |queue| + |buffer| <= QUEUE_PER_PEER ==> queue' == queue + buffer && overflow == []
  {
    queue', overflow := queue, [];
    ghost var k := 0;
    for i := 0 to |buffer|
      invariant 0 <= k <= i && queue' == queue + buffer[..k] && overflow == buffer[k..i]
      invariant k < i ==> |queue'| >= QUEUE_PER_PEER
    {
      if |queue'| >= QUEUE_PER_PEER {
        overflow := overflow + [buffer[i]];
      } else {
        queue' := queue' + [buffer[i]];
        k := k + 1;
      }
    }
  }

  // ------------------------------------------------------------------------------------------
  // Draining
  // ------------------------------------------------------------------------------------------

  /** What left the queue of a peer was sent to it, in order. */
  ghost predicate SentFrom(f: Flow, f': Flow, p: Peer) {
    && Get(f.sent, p) <= Get(f'.sent, p)
    && Get(f'.sent, p) + Get(f'.queue, p) == Get(f.sent, p) + Get(f.queue, p)
  }

  /** A status stays, or a queued job is in flight. */
  ghost predicate SentStatus(s: Status, s': Status) {
    s' == s || (s == Queued && s'.InFlight?)
  }

  /** Jobs went from queues to the swarm, and nothing else happened. */
  ghost predicate OnlySent(f: Flow, f': Flow) {
    && f'.limits == f.limits && f'.ready == f.ready && f'.blocked == f.blocked && f'.buffer == f.buffer
    && f'.peers == f.peers && f'.events == f.events && f'.jobs == f.jobs && |f'.status| == |f.status|
    && (forall p :: SentFrom(f, f', p))
    && (forall r :: r in f.pending ==> r in f'.pending && f'.pending[r] == f.pending[r])
    && (forall t :: 0 <= t < |f.status| ==> SentStatus(f.status[t], f'.status[t]))
  }

  /** The job of the request, if there was one, has learnt how it ended. */
  ghost predicate Told(before: Flow, r: RequestId, ok: bool, after: Flow) {
    r in before.pending ==>
      var t := before.pending[r].job;
      t < |before.jobs| && t < |after.status| && Learns(before.jobs[t], after.status[t], ok)
  }

  lemma ResponseIsTold(before: Flow, r: RequestId, after: Flow)
    requires Inv(before) && InBounds(before, Answered(r, true)) && OnlySent(Complete(before, r, true), after)
    ensures Told(before, r, true, after)
  {
    AnswerIsTold(before, r, true);
    if r in before.pending {
      var t := before.pending[r].job;
      assert SentStatus(Complete(before, r, true).status[t], after.status[t]);
    }
  }

  lemma FailureIsTold(before: Flow, r: RequestId, p: Peer, undecodable: bool, after: Flow)
    requires Inv(before) && InBounds(before, Answered(r, false))
    requires var answered := Complete(before, r, false);
             |answered.jobs| == |answered.status| && OnlySent(if undecodable then Block(answered, p) else answered, after)
    ensures Told(before, r, false, after)
  {
    AnswerIsTold(before, r, false);
    if r in before.pending {
      var answered, t := Complete(before, r, false), before.pending[r].job;
      BlockIsTold(answered, p, t);
      var last := if undecodable then Block(answered, p) else answered;
      assert SentStatus(last.status[t], after.status[t]);
    }
  }

  lemma OnlySentTransitive(a: Flow, b: Flow, c: Flow)
    requires OnlySent(a, b) && OnlySent(b, c)
    ensures OnlySent(a, c)
  {
    forall p
      ensures SentFrom(a, c, p)
    {
      assert SentFrom(a, b, p) && SentFrom(b, c, p);
    }
    forall t | 0 <= t < |a.status|
      ensures SentStatus(a.status[t], c.status[t])
    {
      assert SentStatus(a.status[t], b.status[t]) && SentStatus(b.status[t], c.status[t]);
    }
  }

  lemma OnlySentNothing(f: Flow)
    ensures OnlySent(f, f)
  {
  }

  lemma SendMovesHead(f: Flow, p: Peer, q: Peer)
    requires Get(f.queue, p) != [] && Get(f.queue, p)[0] < |f.status|
    ensures SentFrom(f, Send(f, p), q)
  {
    if q == p { HeadMoves(Get(f.sent, p), Get(f.queue, p), []); }
  }

  lemma SendOnlySends(f: Flow, p: Peer)
    requires Get(f.queue, p) != [] && Get(f.queue, p)[0] < |f.status| && f.status[Get(f.queue, p)[0]] == Queued
    requires forall r :: r in f.pending ==> r < f.nextRequest
    ensures OnlySent(f, Send(f, p))
  {
    forall q { SendMovesHead(f, p, q); }
  }

  lemma HeadIsQueued(f: Flow, p: Peer)
    requires Placed(f) && Get(f.queue, p) != []
    ensures Get(f.queue, p)[0] < |f.status| && f.status[Get(f.queue, p)[0]] == Queued
  {
    assert ListsAt(f, p) && IsJob(f.jobs, f.status, Get(f.queue, p)[0], p, Queued);
  }

  lemma ForgetOnlySends(f: Flow, p: Peer)
    requires Get(f.queue, p) == []
    ensures OnlySent(f, Forget(f, p))
  {
  }

  /** One step of draining. */
  ghost predicate IsSend(f: Flow, f': Flow) {
    exists p :: (Enabled(f, Sent(p)) && f' == Send(f, p)) || (Enabled(f, Forgotten(p)) && f' == Forget(f, p))
  }

  /** The run went on from `from`, by draining alone. */
  ghost predicate OnlySends(from: seq<Flow>, to: seq<Flow>) {
    && from != [] && from <= to
    && forall i, j {:trigger IsSend(to[i], to[j])} :: |from| - 1 <= i && j == i + 1 && j < |to| ==> IsSend(to[i], to[j])
  }

  lemma OnlySendsMore(from: seq<Flow>, to: seq<Flow>, f': Flow)
    requires OnlySends(from, to) && IsSend(to[|to| - 1], f')
    ensures OnlySends(from, to + [f'])
  {
    var to' := to + [f'];
    forall i, j | |from| - 1 <= i && j == i + 1 && j < |to'|
      ensures IsSend(to'[i], to'[j])
    {
      if j < |to| { assert IsSend(to[i], to[j]); }
    }
  }

  lemma OnlySendsTransitive(a: seq<Flow>, b: seq<Flow>, c: seq<Flow>)
    requires OnlySends(a, b) && OnlySends(b, c)
    ensures OnlySends(a, c)
  {
    forall i, j | |a| - 1 <= i && j == i + 1 && j < |c|
      ensures IsSend(c[i], c[j])
    {
      if j < |b| { assert IsSend(b[i], b[j]); }
    }
  }

  ghost predicate SameAt(f: Flow, f': Flow, q: Peer) {
    Get(f'.queue, q) == Get(f.queue, q) && InFlightTo(f'.perPeer, q) == InFlightTo(f.perPeer, q)
  }

  /** Requests to one peer were sent, and nothing else happened. */
  ghost predicate SentMore(start: Flow, f: Flow, p: Peer) {
    OnlySent(start, f) && f.total >= start.total && forall q :: q != p ==> SameAt(start, f, q)
  }

  lemma SendMore(start: Flow, f: Flow, p: Peer)
    requires SentMore(start, f, p) && Inv(f) && Enabled(f, Sent(p))
    ensures SentMore(start, Send(f, p), p) && |Get(Send(f, p).queue, p)| < |Get(f.queue, p)|
  {
    HeadIsQueued(f, p);
    SendOnlySends(f, p);
    SendTouchesOne(start, f, p);
    OnlySentTransitive(start, f, Send(f, p));
  }

  lemma SendTouchesOne(start: Flow, f: Flow, p: Peer)
    requires Get(f.queue, p) != [] && Get(f.queue, p)[0] < |f.status|
    requires forall q :: q != p ==> SameAt(start, f, q)
    ensures forall q :: q != p ==> SameAt(start, Send(f, p), q)
  {
    forall q | q != p
      ensures SameAt(start, Send(f, p), q)
    {
      assert SameAt(start, f, q);
    }
  }

  lemma ForgetMore(start: Flow, f: Flow, p: Peer)
    requires SentMore(start, f, p) && Get(f.queue, p) == []
    ensures SentMore(start, Forget(f, p), p)
  {
    ForgetOnlySends(f, p);
    OnlySentTransitive(start, f, Forget(f, p));
    forall q | q != p
      ensures SameAt(start, Forget(f, p), q)
    {
      assert SameAt(start, f, q);
    }
  }

  ghost predicate DrainedBut(f: Flow, todo: set<Peer>) {
    forall q :: q !in todo ==> DrainedAt(f, q)
  }

  lemma DrainedOneMore(f: Flow, f': Flow, p: Peer, todo: set<Peer>)
    requires DrainedBut(f, todo) && SentMore(f, f', p) && DrainedAt(f', p)
    ensures DrainedBut(f', todo - {p})
  {
    forall q | q !in todo - {p}
      ensures DrainedAt(f', q)
    {
      if q != p { assert DrainedAt(f, q) && SameAt(f, f', q); }
    }
  }

  lemma NotReadyIsDrained(f: Flow, p: Peer)
    requires Readiness(f) && (p in f.blocked || p !in f.ready)
    ensures DrainedAt(f, p)
  {
    assert WaitsAt(f, p);
  }

  /** A run goes on with a drain step. */
  lemma DrainStep(run: seq<Flow>, from: seq<Flow>, limits: Limits, step: Step)
    requires IsRun(run, limits) && OnlySends(from, run) && Inv(run[|run| - 1])
    requires (step.Sent? || step.Forgotten?) && Allowed(run[|run| - 1], step)
    ensures Enabled(run[|run| - 1], step) && Inv(Next(run[|run| - 1], step))
    ensures IsRun(run + [Next(run[|run| - 1], step)], limits) && OnlySends(from, run + [Next(run[|run| - 1], step)])
  {
    var f := run[|run| - 1];
    AlwaysInBounds(f, step);
    NextKeeps(f, step);
    assert IsStep(f, Next(f, step)) && IsSend(f, Next(f, step));
    ExtendRun(run, limits, Next(f, step));
    OnlySendsMore(from, run, Next(f, step));
  }

  class EventLoop {
    var f: Flow                  // the loop's variables
    ghost var run: seq<Flow>     // the values they have had

    ghost predicate Valid()
      reads this
    {
      IsRun(run, f.limits) && f == run[|run| - 1] && Inv(f)
    }

    constructor (maxInboundStreams: nat)
      ensures Valid() && run == [Initial(LimitsFor(maxInboundStreams))]
    {
      f := Initial(LimitsFor(maxInboundStreams));
      run := [Initial(LimitsFor(maxInboundStreams))];
      InitialInv(LimitsFor(maxInboundStreams));
    }

    /** The head of a queue is handed to the swarm. */
    method SendHead(p: Peer, ghost from: seq<Flow>, ghost start: Flow)
      requires Valid() && OnlySends(from, run) && SentMore(start, f, p) && Allowed(f, Sent(p))
      modifies this
      ensures Valid() && OnlySends(from, run) && SentMore(start, f, p)
      ensures |Get(f.queue, p)| < |Get(old(f).queue, p)|
    {
      DrainStep(run, from, f.limits, Sent(p));
      SendMore(start, f, p);
      f := Send(f, p);
      run := run + [f];
    }

    /** An empty queue is removed. */
    method ForgetQueue(p: Peer, ghost from: seq<Flow>, ghost start: Flow)
      requires Valid() && OnlySends(from, run) && SentMore(start, f, p) && Get(f.queue, p) == []
      modifies this
      ensures Valid() && OnlySends(from, run) && SentMore(start, f, p) && Get(f.queue, p) == []
    {
      DrainStep(run, from, f.limits, Forgotten(p));
      ForgetMore(start, f, p);
      f := Forget(f, p);
      run := run + [f];
    }

    /** The inner loop of `drain_transfer_queues`. */
    method DrainPeer(p: Peer)
      requires Valid()
      modifies this
      ensures Valid() && OnlySends(old(run), run)
      ensures SentMore(old(f), f, p) && DrainedAt(f, p)
    {
      ghost var start, from := f, run;
      OnlySentNothing(f);
      while f.total < f.limits.total
        invariant Valid() && OnlySends(from, run) && SentMore(start, f, p)
        decreases |Get(f.queue, p)|
      {
        if InFlightTo(f.perPeer, p) >= f.limits.perPeer {
          return;
        }
        if Get(f.queue, p) == [] {
          ForgetQueue(p, from, start);
          return;
        }
        SendHead(p, from, start);
      }
    }

    /** `drain_transfer_queues`, over the peers in any order: it only sends, until nothing more could be sent. */
    method Drain()
      requires Valid()
      modifies this
      ensures Valid() && OnlySends(old(run), run)
      ensures OnlySent(old(f), f) && Drained(f)
    {
      ghost var start, from := f, run;
      OnlySentNothing(f);
      var todo := f.queue.Keys;
      while todo != {}
        invariant Valid() && OnlySends(from, run) && OnlySent(start, f) && DrainedBut(f, todo)
        decreases todo
      {
        var p :| p in todo;
        if f.total >= f.limits.total {
          return;
        }
        ghost var before, past := f, run;
        if p !in f.blocked && p in f.ready {
          DrainPeer(p);
          OnlySendsTransitive(from, past, run);
          OnlySentTransitive(start, before, f);
          DrainedOneMore(before, f, p, todo);
        } else {
          NotReadyIsDrained(f, p);
        }
        todo := todo - {p};
      }
    }

    /** A job is refused, buffered or queued. */
    method PlaceJob(job: Job)
      requires Valid()
      modifies this
      ensures Valid() && |old(f).jobs| == |old(f).status| && BufferNamesJobs(old(f), job.peer)
      ensures f == Submit(old(f), job) && run == old(run) + [f]
    {
      StepOn(run, f.limits, Submitted(job));
      f := Submit(f, job);
      run := run + [f];
    }

    /** A job arrives from the node; one that is queued may go out at once. */
    method ReceiveJob(job: Job)
      requires Valid()
      modifies this
      ensures Valid() && |old(f).jobs| == |old(f).status| && BufferNamesJobs(old(f), job.peer)
      ensures OnlySends(old(run) + [Submit(old(f), job)], run) && OnlySent(Submit(old(f), job), f)
      ensures job.peer in old(f).ready && |Get(old(f).queue, job.peer)| < QUEUE_PER_PEER ==> Drained(f)
    {
      var queued := job.peer !in f.blocked && job.peer in f.ready && |Get(f.queue, job.peer)| < QUEUE_PER_PEER;
      PlaceJob(job);
      OnlySentNothing(f);
      if queued {
        Drain();
      }
    }

    /** A response; a late one, for an id that was forgotten, only drains. */
    method ReceiveResponse(r: RequestId)
      requires Valid()
      modifies this
      ensures Valid() && Drained(f) && InBounds(old(f), Answered(r, true))
      ensures var answered := Complete(old(f), r, true);
              OnlySends(old(run) + [answered], run) && OnlySent(answered, f)
      ensures Told(old(f), r, true, f)
    {
      StepOn(run, f.limits, Answered(r, true));
      f := Complete(f, r, true);
      run := run + [f];
      Drain();
      ResponseIsTold(old(f), r, f);
    }

    /** The peer is no longer announced, and what waits for it is dropped. */
    method DropPeer(p: Peer)
      requires Placed(f) && InOrder(f)
      modifies this`f
      ensures f == Leave(old(f), p).(buffer := old(f).buffer - {p}, queue := old(f).queue - {p},
                                     status := GiveUp(old(f).jobs, old(f).status, p, true, false))
    {
      DroppedLists(f, p);
      ListsNameJobs(f, p);
      var status := DropList(f.status, Get(f.buffer, p));
      status := DropList(status, Get(f.queue, p));
      f := f.(events := if p in f.peers then f.events + [PeerDisconnected(p)] else f.events,
              peers := f.peers - {p}, ready := f.ready - {p},
              buffer := f.buffer - {p}, queue := f.queue - {p}, status := status);
    }

    /** The requests pending at the peer are answered with an error, and uncounted. */
    method AnswerPending(p: Peer)
      requires Placed(f)
      modifies this`f
      ensures f == DropPending(old(f), p)
    {
      PlacedPending(f);
      var status, pending, removed := RetainOthers(f.jobs, f.status, f.pending, p);
      f := f.(status := status, pending := pending,
              total := if removed <= f.total then f.total - removed else 0,
              perPeer := if removed > 0 then f.perPeer - {p} else f.perPeer);
    }

    /** A failed handshake, or data that does not decode. */
    method BlockPeer(p: Peer)
      requires Valid()
      modifies this
      ensures Valid() && |old(f).jobs| == |old(f).status| && f == Block(old(f), p) && run == old(run) + [f]
      ensures Drained(old(f)) ==> Drained(f)
    {
      StepOn(run, f.limits, PeerBlocked(p));
      BlockSettles(f, p);
      DropPeer(p);
      f := f.(blocked := f.blocked + {p});
      run := run + [f];
    }

    /** An outgoing request failed; `undecodable` when its answer did not decode. */
    method ReceiveFailure(r: RequestId, p: Peer, undecodable: bool)
      requires Valid()
      modifies this
      ensures Valid() && Drained(f) && InBounds(old(f), Answered(r, false))
      ensures var answered := Complete(old(f), r, false);
              && |answered.jobs| == |answered.status|
              && if undecodable
                 then OnlySends(old(run) + [answered] + [Block(answered, p)], run) && OnlySent(Block(answered, p), f)
                 else OnlySends(old(run) + [answered], run) && OnlySent(answered, f)
      ensures Told(old(f), r, false, f)
    {
      StepOn(run, f.limits, Answered(r, false));
      f := Complete(f, r, false);
      run := run + [f];
      if undecodable {
        BlockPeer(p);
      }
      Drain();
      FailureIsTold(old(f), r, p, undecodable, f);
    }

    /** A handshake succeeded: what was buffered for the peer is queued, and the queues are drained. */
    method PeerReady(p: Peer)
      requires Valid()
      modifies this
      ensures Valid() && Drained(f) && |old(f).jobs| == |old(f).status|
      ensures OnlySends(old(run) + [BecomeReady(old(f), p)], run) && OnlySent(BecomeReady(old(f), p), f)
    {
      StepOn(run, f.limits, HandshakeSucceeded(p));
      Announce(p);
      run := run + [f];
      Drain();
    }

    /** The peer becomes ready, and its buffer moves to its queue. */
    method Announce(p: Peer)
      requires Inv(f)
      modifies this`f
      ensures |old(f).jobs| == |old(f).status| && f == BecomeReady(old(f), p)
    {
      BecomeReadyKeeps(f, p);
      ReleasedList(f, p);
      if p in f.buffer {
        var queue, overflow := MoveBuffer(Get(f.queue, p), f.buffer[p]);
        assert overflow == [];
        var status := MarkQueued(f.status, f.buffer[p]);
        f := f.(queue := f.queue[p := queue], buffer := f.buffer - {p}, status := status);
      }
      f := f.(events := if p in f.peers then f.events else f.events + [PeerConnected(p)],
              peers := f.peers + {p}, blocked := f.blocked - {p}, ready := f.ready + {p});
    }

    /** A connection to a peer closed, with `remaining` left; `ClosedIsDrained` says when that makes room nobody uses. */
    method CloseConnection(p: Peer, remaining: nat)
      requires Valid()
      modifies this
      ensures Valid() && |old(f).jobs| == |old(f).status| && f == Closed(old(f), p, remaining) && run == old(run) + [f]
    {
      StepOn(run, f.limits, ConnectionClosed(p, remaining));
      CloseIt(p, remaining);
      run := run + [f];
    }

    method CloseIt(p: Peer, remaining: nat)
      requires Placed(f) && InOrder(f)
      modifies this`f
      ensures |old(f).jobs| == |old(f).status| && f == Closed(old(f), p, remaining)
    {
      DropPlaced(f, p);
      LeaveCommutes(f, p);
      assert forall q :: Line(DropPending(f, p), q) == Line(f, q);
      if remaining == 0 || (p !in f.ready && p !in f.blocked) {
        AnswerPending(p);
      }
      if remaining == 0 {
        DropPeer(p);
      }
    }
  }

  /** A run goes on with any step the loop may take. */
  lemma StepOn(run: seq<Flow>, limits: Limits, step: Step)
    requires IsRun(run, limits) && Inv(run[|run| - 1]) && Allowed(run[|run| - 1], step)
    ensures Enabled(run[|run| - 1], step) && Inv(Next(run[|run| - 1], step))
    ensures IsRun(run + [Next(run[|run| - 1], step)], limits)
    ensures Next(run[|run| - 1], step).limits == run[|run| - 1].limits
  {
    var f := run[|run| - 1];
    AlwaysInBounds(f, step);
    NextKeeps(f, step);
    assert IsStep(f, Next(f, step));
    ExtendRun(run, limits, Next(f, step));
    LimitsKept(f, step);
  }

  lemma LimitsKept(f: Flow, step: Step)
    requires Enabled(f, step)
    ensures Next(f, step).limits == f.limits
  {
    match step
    case Submitted(job) => SubmitKeepsLimits(f, job);
    case ConnectionClosed(p, remaining) => CloseKeepsLimits(f, p, remaining);
    case _ =>
  }

  lemma SubmitKeepsLimits(f: Flow, job: Job)
    requires InBounds(f, Submitted(job))
    ensures Submit(f, job).limits == f.limits
  {
    if job.peer !in f.blocked && job.peer !in f.ready { BufferKeepsLimits(f, job); }
  }

  lemma BufferKeepsLimits(f: Flow, job: Job)
    requires InBounds(f, Submitted(job))
    ensures Buffer(f, job).limits == f.limits
  {
  }

  lemma CloseKeepsLimits(f: Flow, p: Peer, remaining: nat)
    requires |f.jobs| == |f.status|
    ensures Closed(f, p, remaining).limits == f.limits
  {
  }
}
