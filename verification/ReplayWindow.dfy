/**
  The replay check of signed requests (`NonceCache` and the timestamp check in src/rpc/auth.rs).

  A map and a queue together stand for a sliding window over the log of accepted nonces: the last
  `capacity` of them, as far as they are no older than the time to live.
 */
module ReplayWindow {
  type Nonce = seq<char>
  type Time = nat

  datatype Entry = Entry(nonce: Nonce, time: Time)

  /** A capacity of zero still keeps one entry. */
  function Window(capacity: nat): (n: nat) {
    if capacity == 0 then 1 else capacity
  }

  predicate Stale(time: Time, now: Time, ttl: nat) {
    time + ttl < now
  }

  /** The nonce is among the last accepted ones, and recent. */
  ghost predicate SeenAt(log: seq<Entry>, i: nat, nonce: Nonce, now: Time, capacity: nat, ttl: nat)
    requires i < |log|
  {
    log[i].nonce == nonce && i + Window(capacity) >= |log| && !Stale(log[i].time, now, ttl)
  }

  ghost predicate Seen(log: seq<Entry>, nonce: Nonce, now: Time, capacity: nat, ttl: nat) {
    exists i :: 0 <= i < |log| && SeenAt(log, i, nonce, now, capacity, ttl)
  }

  ghost predicate InTime(window: seq<Entry>, last: Time) {
    && (forall i, j :: 0 <= i < j < |window| ==> window[i].time <= window[j].time)
    && (forall i :: 0 <= i < |window| ==> window[i].time <= last)
  }

  /** Queue and map hold exactly a stretch of the log. */
  ghost predicate Holds(window: seq<Entry>, entries: map<Nonce, Time>, order: seq<Nonce>) {
    && |order| == |window|
    && (forall i :: 0 <= i < |order| ==> order[i] == window[i].nonce && order[i] in entries && entries[order[i]] == window[i].time)
    && (forall i, j :: 0 <= i < j < |order| ==> order[i] != order[j])
    && (forall x :: x in entries ==> x in order)
  }

  /** What is no longer held lies outside the window, of which `n` entries are held, or is stale. */
  ghost predicate OnlyStaleDropped(dropped: seq<Entry>, n: nat, last: Time, capacity: nat, ttl: nat) {
    forall i :: 0 <= i < |dropped| && i + Window(capacity) >= |dropped| + n ==> Stale(dropped[i].time, last, ttl)
  }

  lemma {:induction false} NonceCount(nonces: set<Nonce>, order: seq<Nonce>)
    requires forall x :: x in nonces <==> x in order
    requires forall i, j :: 0 <= i < j < |order| ==> order[i] != order[j]
    ensures |nonces| == |order|
  {
    if order == [] {
      assert nonces == {};
    } else {
      var n := |order| - 1;
      var rest := order[..n];
      assert order == rest + [order[n]];
      NonceCount(nonces - {order[n]}, rest);
    }
  }

  lemma EntryCount(entries: map<Nonce, Time>, order: seq<Nonce>)
    requires forall i :: 0 <= i < |order| ==> order[i] in entries
    requires forall i, j :: 0 <= i < j < |order| ==> order[i] != order[j]
    requires forall x :: x in entries ==> x in order
    ensures |entries| == |order|
  {
    NonceCount(entries.Keys, order);
    assert |entries| == |entries.Keys|;
  }

  lemma PopKeeps(window: seq<Entry>, entries: map<Nonce, Time>, order: seq<Nonce>)
    requires Holds(window, entries, order) && order != []
    ensures Holds(window[1..], entries - {order[0]}, order[1..])
    ensures order[0] in entries && entries[order[0]] == window[0].time
  {
  }

  lemma PushKeeps(window: seq<Entry>, entries: map<Nonce, Time>, order: seq<Nonce>, nonce: Nonce, now: Time)
    requires Holds(window, entries, order) && nonce !in entries
    ensures Holds(window + [Entry(nonce, now)], entries[nonce := now], order + [nonce])
  {
  }

  /** The oldest entry may go if it is stale, or if the window is full and another one comes. */
  lemma DropKeeps(dropped: seq<Entry>, e: Entry, n: nat, last: Time, capacity: nat, ttl: nat)
    requires OnlyStaleDropped(dropped, n + 1, last, capacity, ttl)
    ensures Stale(e.time, last, ttl) ==> OnlyStaleDropped(dropped + [e], n, last, capacity, ttl)
    ensures n + 1 >= Window(capacity) ==> OnlyStaleDropped(dropped + [e], n + 1, last, capacity, ttl)
    ensures OnlyStaleDropped(dropped, n + 2, last, capacity, ttl)
  {
  }

  /** Times rise along the log, so what follows an entry that is not stale is not stale either. */
  lemma RestIsRecent(window: seq<Entry>, now: Time, ttl: nat)
    requires InTime(window, now) && (window != [] ==> !Stale(window[0].time, now, ttl))
    ensures forall i :: 0 <= i < |window| ==> !Stale(window[i].time, now, ttl)
  {
  }

  /** What the cache holds. */
  datatype Cache = Cache(entries: map<Nonce, Time>, order: seq<Nonce>)

  /** What it stands for: the nonces accepted so far, those it no longer holds and those it does, and the time of the last call. */
  datatype History = History(dropped: seq<Entry>, window: seq<Entry>, last: Time)

  ghost function LogOf(h: History): (log: seq<Entry>) {
    h.dropped + h.window
  }

  ghost predicate Stands(c: Cache, h: History, capacity: nat, ttl: nat) {
    && InTime(h.window, h.last)
    && Holds(h.window, c.entries, c.order)
    && |c.order| <= Window(capacity)
    && OnlyStaleDropped(h.dropped, |h.window|, h.last, capacity, ttl)
  }

  function PopFront(c: Cache): (c': Cache)
    requires c.order != []
  {
    Cache(c.entries - {c.order[0]}, c.order[1..])
  }

  function Pushed(c: Cache, nonce: Nonce, now: Time): (c': Cache) {
    Cache(c.entries[nonce := now], c.order + [nonce])
  }

  function Dropped(h: History): (h': History)
    requires h.window != []
  {
    h.(dropped := h.dropped + [h.window[0]], window := h.window[1..])
  }

  function Logged(h: History, nonce: Nonce): (h': History) {
    h.(window := h.window + [Entry(nonce, h.last)])
  }

  lemma DroppedIsLogged(h: History)
    requires h.window != []
    ensures LogOf(Dropped(h)) == LogOf(h)
  {
  }

  lemma EvictOne(c: Cache, h: History, capacity: nat, ttl: nat)
    requires Stands(c, h, capacity, ttl) && c.order != []
    ensures c.order[0] in c.entries && c.entries[c.order[0]] == h.window[0].time
    ensures Stale(h.window[0].time, h.last, ttl) ==> Stands(PopFront(c), Dropped(h), capacity, ttl)
  {
    PopKeeps(h.window, c.entries, c.order);
    DropKeeps(h.dropped, h.window[0], |h.window| - 1, h.last, capacity, ttl);
  }

  lemma TimePasses(c: Cache, h: History, now: Time, capacity: nat, ttl: nat)
    requires Stands(c, h, capacity, ttl) && h.last <= now
    ensures Stands(c, h.(last := now), capacity, ttl)
  {
  }

  lemma InsertWithRoom(c: Cache, h: History, nonce: Nonce, capacity: nat, ttl: nat)
    requires Stands(c, h, capacity, ttl) && nonce !in c.entries && (|c.entries| < capacity || c.order == [])
    ensures Stands(Pushed(c, nonce, h.last), Logged(h, nonce), capacity, ttl)
  {
    EntryCount(c.entries, c.order);
    PushKeeps(h.window, c.entries, c.order, nonce, h.last);
  }

  lemma InsertFull(c: Cache, h: History, nonce: Nonce, capacity: nat, ttl: nat)
    requires Stands(c, h, capacity, ttl) && nonce !in c.entries && |c.entries| >= capacity && c.order != []
    ensures Stands(Pushed(PopFront(c), nonce, h.last), Logged(Dropped(h), nonce), capacity, ttl)
  {
    EntryCount(c.entries, c.order);
    ReplaceKeeps(h.window, c.entries, c.order, nonce, h.last);
    DropKeeps(h.dropped, h.window[0], |h.window| - 1, h.last, capacity, ttl);
  }

  lemma ReplaceKeeps(window: seq<Entry>, entries: map<Nonce, Time>, order: seq<Nonce>, nonce: Nonce, now: Time)
    requires Holds(window, entries, order) && order != [] && nonce !in entries && InTime(window, now)
    ensures Holds(window[1..] + [Entry(nonce, now)], (entries - {order[0]})[nonce := now], order[1..] + [nonce])
    ensures InTime(window[1..] + [Entry(nonce, now)], now)
  {
    PopKeeps(window, entries, order);
    PushKeeps(window[1..], entries - {order[0]}, order[1..], nonce, now);
  }

  ghost predicate Recent(window: seq<Entry>, now: Time, ttl: nat) {
    forall i :: 0 <= i < |window| ==> !Stale(window[i].time, now, ttl)
  }

  lemma SeenIffHeld(c: Cache, h: History, nonce: Nonce, capacity: nat, ttl: nat)
    requires Stands(c, h, capacity, ttl) && Recent(h.window, h.last, ttl)
    ensures nonce in c.entries <==> Seen(LogOf(h), nonce, h.last, capacity, ttl)
  {
    var log, n := LogOf(h), |h.dropped|;
    assert forall k :: 0 <= k < n ==> log[k] == h.dropped[k];
    if nonce in c.entries {
      var i :| 0 <= i < |c.order| && c.order[i] == nonce;
      assert log[n + i] == h.window[i];
      assert SeenAt(log, n + i, nonce, h.last, capacity, ttl);
    }
    if Seen(log, nonce, h.last, capacity, ttl) {
      var i :| 0 <= i < |log| && SeenAt(log, i, nonce, h.last, capacity, ttl);
      assert c.order[i - n] == nonce;
    }
  }

  class NonceCache {
    const capacity: nat
    const ttl: nat
    var cache: Cache
    ghost var history: History

    ghost predicate Valid()
      reads this
    {
      Stands(cache, history, capacity, ttl)
    }

    ghost function Accepted(): (log: seq<Entry>)
      reads this
    {
      LogOf(history)
    }

    constructor (capacity: nat, ttl: nat)
      ensures Valid() && history == History([], [], 0) && this.capacity == capacity && this.ttl == ttl
    {
      this.capacity, this.ttl := capacity, ttl;
      cache, history := Cache(map[], []), History([], [], 0);
    }

    /** Stale entries leave at the front, and only they. */
    method Evict(now: Time)
      requires Valid() && history.last <= now
      modifies this
      ensures Valid() && history.last == now && Accepted() == old(Accepted())
      ensures Recent(history.window, now, ttl)
    {
      TimePasses(cache, history, now, capacity, ttl);
      history := history.(last := now);
      while cache.order != []
        invariant Valid() && history.last == now && Accepted() == old(Accepted())
        decreases |cache.order|
      {
        EvictOne(cache, history, capacity, ttl);
        if !Stale(cache.entries[cache.order[0]], now, ttl) {
          break;
        }
        DroppedIsLogged(history);
        cache, history := PopFront(cache), Dropped(history);
      }
      RestIsRecent(history.window, now, ttl);
    }

    /** A nonce is accepted exactly when the window does not hold it, and then enters the log. */
    method CheckAndInsert(nonce: Nonce, now: Time) returns (ok: bool)
      requires Valid() && history.last <= now
      modifies this
      ensures Valid() && history.last == now
      ensures ok <==> !Seen(old(Accepted()), nonce, now, capacity, ttl)
      ensures Accepted() == if ok then old(Accepted()) + [Entry(nonce, now)] else old(Accepted())
    {
      Evict(now);
      SeenIffHeld(cache, history, nonce, capacity, ttl);
      if nonce in cache.entries {
        return false;
      }
      if |cache.entries| >= capacity && cache.order != [] {
        InsertFull(cache, history, nonce, capacity, ttl);
        DroppedIsLogged(history);
        cache, history := PopFront(cache), Dropped(history);
      } else {
        InsertWithRoom(cache, history, nonce, capacity, ttl);
      }
      cache, history := Pushed(cache, nonce, now), Logged(history, nonce);
      ok := true;
    }
  }

  // ------------------------------------------------------------------------------------------
  // Replays
  // ------------------------------------------------------------------------------------------

  datatype Request = Request(timestamp: Time, nonce: Nonce)

  /** A request that passed both checks: what the wall clock showed then, and the clock of the cache. */
  datatype Passed = Passed(request: Request, wall: Time, time: Time)

  predicate WithinSkew(timestamp: Time, now: Time, skew: nat) {
    now <= timestamp + skew && timestamp <= now + skew
  }

  /** The timestamp may lie before or after the clock, by the same amount. */
  lemma SkewIsDistance(timestamp: Time, now: Time, skew: nat)
    ensures WithinSkew(timestamp, now, skew) <==> (if now < timestamp then timestamp - now else now - timestamp) <= skew
    ensures WithinSkew(timestamp, now, skew) <==> WithinSkew(now, timestamp, skew)
  {
  }

  ghost function Entries(passed: seq<Passed>): (log: seq<Entry>)
    ensures |log| == |passed| && forall i :: 0 <= i < |log| ==> log[i] == Entry(passed[i].request.nonce, passed[i].time)
  {
    seq(|passed|, i requires 0 <= i < |passed| => Entry(passed[i].request.nonce, passed[i].time))
  }

  /** Each request passed when its timestamp was near the wall clock and its nonce not in the window. */
  ghost predicate Checked(passed: seq<Passed>, skew: nat, capacity: nat, ttl: nat) {
    forall j :: 0 <= j < |passed| ==>
      && WithinSkew(passed[j].request.timestamp, passed[j].wall, skew)
      && !Seen(Entries(passed[..j]), passed[j].request.nonce, passed[j].time, capacity, ttl)
  }

  /** A nonce passes twice only after `capacity` others, or once the first pass is older than the time to live. */
  lemma ReplayIsLate(passed: seq<Passed>, skew: nat, capacity: nat, ttl: nat, i: nat, j: nat)
    requires Checked(passed, skew, capacity, ttl)
    requires i < j < |passed| && passed[i].request.nonce == passed[j].request.nonce
    ensures j - i - 1 >= Window(capacity) || Stale(passed[i].time, passed[j].time, ttl)
  {
    var before := Entries(passed[..j]);
    assert before[i] == Entry(passed[i].request.nonce, passed[i].time);
    assert !SeenAt(before, i, passed[j].request.nonce, passed[j].time, capacity, ttl);
  }

  /** Between two passes the clock of the cache gains at most `drift` on the wall clock. */
  ghost predicate ClocksAgree(passed: seq<Passed>, drift: nat) {
    forall i, j :: 0 <= i < j < |passed| ==> passed[j].time + passed[i].wall <= passed[i].time + passed[j].wall + drift
  }

  /**
    With a time to live of at least twice the allowed skew, and the drift between the two clocks,
    the same request passes twice only after `capacity` others have passed in between.
   */
  lemma ReplayNeedsFullWindow(passed: seq<Passed>, skew: nat, drift: nat, capacity: nat, ttl: nat, i: nat, j: nat)
    requires Checked(passed, skew, capacity, ttl) && ClocksAgree(passed, drift) && ttl >= 2 * skew + drift
    requires i < j < |passed| && passed[i].request == passed[j].request
    ensures j - i - 1 >= Window(capacity)
  {
    ReplayIsLate(passed, skew, capacity, ttl, i, j);
    assert WithinSkew(passed[i].request.timestamp, passed[i].wall, skew);
    assert WithinSkew(passed[j].request.timestamp, passed[j].wall, skew);
  }

  lemma CheckedOneMore(passed: seq<Passed>, p: Passed, skew: nat, capacity: nat, ttl: nat)
    requires Checked(passed, skew, capacity, ttl) && WithinSkew(p.request.timestamp, p.wall, skew)
    requires !Seen(Entries(passed), p.request.nonce, p.time, capacity, ttl)
    ensures Checked(passed + [p], skew, capacity, ttl)
    ensures Entries(passed + [p]) == Entries(passed) + [Entry(p.request.nonce, p.time)]
  {
    var all := passed + [p];
    forall j | 0 <= j < |all|
      ensures WithinSkew(all[j].request.timestamp, all[j].wall, skew)
      ensures !Seen(Entries(all[..j]), all[j].request.nonce, all[j].time, capacity, ttl)
    {
      assert all[..j] == passed[..j];
      assert j == |passed| ==> all[..j] == passed;
    }
  }

  ghost predicate Replayed(passed: seq<Passed>, i: nat, j: nat) {
    i < j < |passed| && passed[i].request == passed[j].request
  }

  /** No request passes twice without `capacity` others in between. */
  ghost predicate NoEarlyReplay(skew: nat, drift: nat, capacity: nat, ttl: nat) {
    forall passed: seq<Passed>, i: nat, j: nat ::
      Checked(passed, skew, capacity, ttl) && ClocksAgree(passed, drift) && Replayed(passed, i, j)
      ==> j - i - 1 >= Window(capacity)
  }

  /** A request that comes as early as the skew allows, and again as late as it allows. */
  lemma EarlyAndLate(nonce: Nonce, skew: nat, drift: nat, capacity: nat, ttl: nat) returns (passed: seq<Passed>)
    requires ttl < 2 * skew + drift
    ensures Checked(passed, skew, capacity, ttl) && ClocksAgree(passed, drift)
    ensures |passed| == 2 && Replayed(passed, 0, 1)
  {
    var r := Request(skew, nonce);
    var first, again := Passed(r, 0, 0), Passed(r, 2 * skew, 2 * skew + drift);
    assert Entries([]) == [];
    CheckedOneMore([], first, skew, capacity, ttl);
    assert [] + [first] == [first];
    CheckedOneMore([first], again, skew, capacity, ttl);
    passed := [first] + [again];
  }

  /** The time to live must cover twice the skew and the drift between the clocks, and that is enough. */
  lemma ReplayCondition(skew: nat, drift: nat, capacity: nat, ttl: nat)
    ensures NoEarlyReplay(skew, drift, capacity, ttl) <==> ttl >= 2 * skew + drift
  {
    if ttl >= 2 * skew + drift {
      forall passed: seq<Passed>, i: nat, j: nat |
        Checked(passed, skew, capacity, ttl) && ClocksAgree(passed, drift) && Replayed(passed, i, j)
        ensures j - i - 1 >= Window(capacity)
      {
        ReplayNeedsFullWindow(passed, skew, drift, capacity, ttl, i, j);
      }
    } else {
      var passed := EarlyAndLate([], skew, drift, capacity, ttl);
      assert Replayed(passed, 0, 1);
    }
  }

  /** The two checks of `verify_signed_request`, each by its own clock. */
  class ReplayGuard {
    const cache: NonceCache
    const skew: nat
    ghost var passed: seq<Passed>

    ghost predicate Valid()
      reads this, cache
    {
      && cache.Valid() && cache.Accepted() == Entries(passed)
      && Checked(passed, skew, cache.capacity, cache.ttl)
    }

    constructor (skew: nat, capacity: nat, ttl: nat)
      ensures Valid() && passed == [] && fresh(cache) && this.skew == skew && cache.capacity == capacity && cache.ttl == ttl
    {
      this.skew := skew;
      cache := new NonceCache(capacity, ttl);
      passed := [];
    }

    method Admit(r: Request, wall: Time, now: Time) returns (ok: bool)
      requires Valid() && cache.history.last <= now
      modifies this, cache
      ensures Valid()
      ensures ok <==> WithinSkew(r.timestamp, wall, skew) && !Seen(Entries(old(passed)), r.nonce, now, cache.capacity, cache.ttl)
      ensures passed == if ok then old(passed) + [Passed(r, wall, now)] else old(passed)
    {
      if !WithinSkew(r.timestamp, wall, skew) {
        return false;
      }
      ok := cache.CheckAndInsert(r.nonce, now);
      if ok {
        CheckedOneMore(passed, Passed(r, wall, now), skew, cache.capacity, cache.ttl);
        passed := passed + [Passed(r, wall, now)];
      }
    }
  }
}
