/**
  Fetching an object (`fetch_object` in src/network/chunk_distributor.rs): the chunks that are
  missing are fetched by tasks, begun in order, at most eight at a time.

  A task looks whether its chunk is there, then asks for it, and stores it much later; in between
  other tasks do the same, perhaps for an equal chunk, and others store chunks too.  Each step below
  is one of these, so a run is any interleaving.  What one task does alone is
  `ChunkFetch.FetchSingleChunk`.
 */
module ParallelFetch {
  import opened Wrappers
  import opened Crypto
  import opened Chunking
  import opened ChunkStore
  import opened ChunkFetch

  const MAX_CONCURRENT_CHUNK_FETCHES: nat := 8

  /** Where a task is; `spent` counts its successful requests, those of abandoned attempts included. */
  datatype Phase =
    | Waiting
    | Started
    | Fetching(attempt: nat, got: nat, spent: nat)
    | Gathered(data: Bytes, spent: nat)
    | Done(fetched: bool, spent: nat)
    | Failed(spent: nat)

  /** The chunk store is shared: `elsewhere` are the contents that others stored meanwhile. */
  datatype Fetch = Fetch(
    missing: seq<ChunkDescriptor>, chunks: Chunks, elsewhere: set<ContentHash>, tasks: seq<Phase>, answered: nat)

  function Spent(phase: Phase): (n: nat) {
    if phase.Waiting? || phase.Started? then 0 else phase.spent
  }

  predicate IsLive(phase: Phase) {
    phase.Started? || phase.Fetching? || phase.Gathered?
  }

  function Live(tasks: seq<Phase>): (n: nat) {
    if tasks == [] then 0 else Live(tasks[..|tasks| - 1]) + if IsLive(tasks[|tasks| - 1]) then 1 else 0
  }

  function Total(tasks: seq<Phase>): (n: nat) {
    if tasks == [] then 0 else Total(tasks[..|tasks| - 1]) + Spent(tasks[|tasks| - 1])
  }

  function Idle(n: nat): (tasks: seq<Phase>)
    ensures |tasks| == n && forall i :: 0 <= i < n ==> tasks[i] == Waiting
  {
    seq(n, i => Waiting)
  }

  function Initial(missing: seq<ChunkDescriptor>, chunks: Chunks): (s: Fetch) {
    Fetch(missing, chunks, {}, Idle(|missing|), 0)
  }

  datatype Step =
    | Begin(task: nat)
    | Check(task: nat)
    | PartArrived(task: nat)
    | Assemble(task: nat, data: Bytes)
    | AttemptFailed(task: nat)
    | NoProviders(task: nat)
    | Store(task: nat)

  predicate NoneFailed(tasks: seq<Phase>) {
    forall i :: 0 <= i < |tasks| ==> !tasks[i].Failed?
  }

  /** The first failure ends the fetch: the other tasks are dropped. */
  predicate Enabled(s: Fetch, step: Step) {
    && step.task < |s.tasks| == |s.missing| && NoneFailed(s.tasks)
    && var i, phase, parts := step.task, s.tasks[step.task], PartsOf(s.missing[step.task].size);
       match step
       case Begin(_) =>
         && phase.Waiting? && (forall j :: 0 <= j < i ==> !s.tasks[j].Waiting?)
         && Live(s.tasks) < MAX_CONCURRENT_CHUNK_FETCHES
       case Check(_) => phase.Started?
       case PartArrived(_) => phase.Fetching? && phase.got < parts
       case Assemble(_, data) =>
         phase.Fetching? && phase.got == parts && (s.missing[i].size > SUBCHUNK_SIZE_BYTES ==> |data| == s.missing[i].size)
       case AttemptFailed(_) => phase.Fetching? && phase.got < parts
       case NoProviders(_) => phase.Fetching? && phase.got == 0
       case Store(_) => phase.Gathered?
  }

  function Moved(s: Fetch, i: nat, phase: Phase): (s': Fetch)
    requires i < |s.tasks|
  {
    s.(tasks := s.tasks[i := phase])
  }

  function Next(s: Fetch, step: Step): (s': Fetch)
    requires Enabled(s, step)
  {
    var i, phase, id := step.task, s.tasks[step.task], s.missing[step.task].chunkId;
    match step
    case Begin(_) => Moved(s, i, Started)
    case Check(_) => Moved(s, i, if id in s.chunks then Done(false, 0) else Fetching(0, 0, 0))
    case PartArrived(_) =>
      Moved(s, i, Fetching(phase.attempt, phase.got + 1, phase.spent + 1)).(answered := s.answered + 1)
    case Assemble(_, data) => Moved(s, i, Gathered(data, phase.spent))
    case AttemptFailed(_) =>
      if phase.attempt + 1 < MAX_CHUNK_FETCH_ATTEMPTS then Moved(s, i, Fetching(phase.attempt + 1, 0, phase.spent))
      else Moved(s, i, Failed(phase.spent))
    case NoProviders(_) => Moved(s, i, Failed(phase.spent))
    case Store(_) =>
      if Blake3(phase.data) == id then Moved(s, i, Done(true, phase.spent)).(chunks := s.chunks[id := phase.data])
      else Moved(s, i, Failed(phase.spent))
  }

  /** Another fetch, or the handler of a late response, stores a chunk. */
  function StoredElsewhere(s: Fetch, data: Bytes): (s': Fetch) {
    s.(chunks := s.chunks[Blake3(data) := data], elsewhere := s.elsewhere + {Blake3(data)})
  }

  // ------------------------------------------------------------------------------------------
  // The invariant
  // ------------------------------------------------------------------------------------------

  /** Requests are counted task by task, and four attempts bound them. */
  ghost predicate PhaseOk(parts: nat, phase: Phase) {
    match phase
    case Waiting => true
    case Started => true
    case Fetching(attempt, got, spent) =>
      attempt < MAX_CHUNK_FETCH_ATTEMPTS && got <= parts && got <= spent <= attempt * parts + got
    case Gathered(_, spent) => parts <= spent <= MAX_CHUNK_FETCH_ATTEMPTS * parts
    case Done(fetched, spent) => if fetched then parts <= spent <= MAX_CHUNK_FETCH_ATTEMPTS * parts else spent == 0
    case Failed(spent) => spent <= MAX_CHUNK_FETCH_ATTEMPTS * parts
  }

  ghost predicate TaskOk(s: Fetch, i: nat)
    requires i < |s.tasks| == |s.missing|
  {
    && PhaseOk(PartsOf(s.missing[i].size), s.tasks[i])
    && (s.tasks[i].Done? ==> s.missing[i].chunkId in s.chunks)
  }

  /** The chunk was there from the beginning, others stored it, or a task brought it. */
  ghost predicate Brought(s: Fetch, have: Chunks, c: ContentHash)
    requires |s.tasks| == |s.missing|
  {
    || c in have || c in s.elsewhere
    || exists i :: 0 <= i < |s.tasks| && s.tasks[i].Done? && s.tasks[i].fetched && s.missing[i].chunkId == c
  }

  ghost predicate Inv(s: Fetch, have: Chunks) {
    && |s.tasks| == |s.missing| && s.answered == Total(s.tasks) && Live(s.tasks) <= MAX_CONCURRENT_CHUNK_FETCHES
    && ChunksSound(s.chunks) && Keeps(have, s.chunks) && s.elsewhere <= s.chunks.Keys
    && (forall i :: 0 <= i < |s.tasks| ==> TaskOk(s, i))
    && (forall c :: c in s.chunks ==> Brought(s, have, c))
  }

  lemma {:induction false} TotalAfter(tasks: seq<Phase>, i: nat, phase: Phase)
    requires i < |tasks|
    ensures Total(tasks[i := phase]) + Spent(tasks[i]) == Total(tasks) + Spent(phase)
    ensures Live(tasks[i := phase]) + (if IsLive(tasks[i]) then 1 else 0) == Live(tasks) + if IsLive(phase) then 1 else 0
  {
    var n := |tasks| - 1;
    var after := tasks[i := phase];
    if i < n {
      TotalAfter(tasks[..n], i, phase);
      assert after[..n] == tasks[..n][i := phase];
    } else {
      assert after[..n] == tasks[..n];
    }
  }

  lemma {:induction false} IdleIsNothing(tasks: seq<Phase>)
    requires forall i :: 0 <= i < |tasks| ==> tasks[i] == Waiting
    ensures Total(tasks) == 0 && Live(tasks) == 0
  {
    if tasks != [] { IdleIsNothing(tasks[..|tasks| - 1]); }
  }

  lemma InitialInv(missing: seq<ChunkDescriptor>, have: Chunks)
    requires ChunksSound(have)
    ensures Inv(Initial(missing, have), have)
  {
    IdleIsNothing(Idle(|missing|));
  }

  /** The phase a step leads to keeps the count of its task. */
  lemma PhaseKept(s: Fetch, step: Step)
    requires Enabled(s, step) && PhaseOk(PartsOf(s.missing[step.task].size), s.tasks[step.task])
    ensures var s', i := Next(s, step), step.task;
            && PhaseOk(PartsOf(s.missing[i].size), s'.tasks[i])
            && Spent(s'.tasks[i]) == Spent(s.tasks[i]) + s'.answered - s.answered
            && s'.tasks == s.tasks[i := s'.tasks[i]] && s'.missing == s.missing
            && (IsLive(s'.tasks[i]) ==> IsLive(s.tasks[i]) || step.Begin?)
  {
    var parts, phase := PartsOf(s.missing[step.task].size), s.tasks[step.task];
    if phase.Fetching? {
      assert (phase.attempt + 1) * parts == phase.attempt * parts + parts;
      assert phase.attempt + 1 <= MAX_CHUNK_FETCH_ATTEMPTS;
      TimesMonotone(phase.attempt + 1, MAX_CHUNK_FETCH_ATTEMPTS, parts);
    }
  }

  lemma SoundAfter(s: Fetch, step: Step, have: Chunks)
    requires Enabled(s, step) && ChunksSound(s.chunks) && Keeps(have, s.chunks) && s.elsewhere <= s.chunks.Keys
    ensures var s' := Next(s, step);
            && ChunksSound(s'.chunks) && Keeps(have, s'.chunks) && Keeps(s.chunks, s'.chunks)
            && s'.elsewhere == s.elsewhere <= s'.chunks.Keys
  {
  }

  lemma BroughtAfter(s: Fetch, step: Step, have: Chunks, c: ContentHash)
    requires Enabled(s, step) && c in Next(s, step).chunks && (c in s.chunks ==> Brought(s, have, c))
    ensures Brought(Next(s, step), have, c)
  {
    var s', k := Next(s, step), step.task;
    if c in s.chunks && c !in have && c !in s.elsewhere {
      var i :| 0 <= i < |s.tasks| && s.tasks[i].Done? && s.tasks[i].fetched && s.missing[i].chunkId == c;
      assert s'.tasks[i] == s.tasks[i];
    } else if c !in have && c !in s.elsewhere {
      assert s'.tasks[k].Done? && s'.tasks[k].fetched && s.missing[k].chunkId == c;
    }
  }

  lemma TaskAfter(s: Fetch, step: Step, i: nat)
    requires Enabled(s, step) && i < |s.tasks| && TaskOk(s, i)
    ensures TaskOk(Next(s, step), i)
  {
    if i == step.task { PhaseKept(s, step); }
  }

  lemma OwnStepKeepsInv(s: Fetch, step: Step, have: Chunks)
    requires Inv(s, have) && Enabled(s, step)
    ensures Inv(Next(s, step), have)
  {
    var s', k := Next(s, step), step.task;
    assert TaskOk(s, k);
    PhaseKept(s, step);
    TotalAfter(s.tasks, k, s'.tasks[k]);
    SoundAfter(s, step, have);
    forall i | 0 <= i < |s'.tasks| ensures TaskOk(s', i) { TaskAfter(s, step, i); }
    forall c | c in s'.chunks ensures Brought(s', have, c) { BroughtAfter(s, step, have, c); }
  }

  lemma ElsewhereKeepsInv(s: Fetch, data: Bytes, have: Chunks)
    requires Inv(s, have)
    ensures Inv(StoredElsewhere(s, data), have)
  {
    var s' := StoredElsewhere(s, data);
    forall i | 0 <= i < |s'.tasks| ensures TaskOk(s', i) { assert TaskOk(s, i); }
    forall c | c in s'.chunks ensures Brought(s', have, c) {
      if c in s.chunks { assert Brought(s, have, c); }
    }
  }

  ghost predicate IsOwnStep(s: Fetch, s': Fetch) {
    exists step :: Enabled(s, step) && s' == Next(s, step)
  }

  ghost predicate IsElsewhere(s: Fetch, s': Fetch) {
    exists data :: s' == StoredElsewhere(s, data)
  }

  ghost predicate IsStep(s: Fetch, s': Fetch) {
    IsOwnStep(s, s') || IsElsewhere(s, s')
  }

  lemma StepKeepsInv(s: Fetch, s': Fetch, have: Chunks)
    requires Inv(s, have) && IsStep(s, s')
    ensures Inv(s', have) && s'.missing == s.missing
  {
    if IsOwnStep(s, s') {
      var step :| Enabled(s, step) && s' == Next(s, step);
      OwnStepKeepsInv(s, step, have);
    } else {
      var data :| s' == StoredElsewhere(s, data);
      ElsewhereKeepsInv(s, data, have);
    }
  }

  ghost predicate IsRun(run: seq<Fetch>, missing: seq<ChunkDescriptor>, have: Chunks) {
    && |run| > 0 && run[0] == Initial(missing, have)
    && forall i, j {:trigger IsStep(run[i], run[j])} :: 0 <= i && j == i + 1 && j < |run| ==> IsStep(run[i], run[j])
  }

  lemma {:induction false} EveryRunKeepsInv(run: seq<Fetch>, missing: seq<ChunkDescriptor>, have: Chunks, n: nat)
    requires IsRun(run, missing, have) && ChunksSound(have) && n < |run|
    ensures Inv(run[n], have) && run[n].missing == missing
  {
    if n == 0 {
      InitialInv(missing, have);
    } else {
      EveryRunKeepsInv(run, missing, have, n - 1);
      StepKeepsInv(run[n - 1], run[n], have);
    }
  }

  // ------------------------------------------------------------------------------------------
  // What the contents of the missing chunks need
  // ------------------------------------------------------------------------------------------

  /** The descriptors give the sizes of the contents they name. */
  ghost predicate Described(missing: seq<ChunkDescriptor>) {
    forall i :: 0 <= i < |missing| ==> missing[i].size == |missing[i].chunkId.preimage|
  }

  function PartTotal(missing: seq<ChunkDescriptor>): (n: nat) {
    if missing == [] then 0 else PartTotal(missing[..|missing| - 1]) + PartsOf(missing[|missing| - 1].size)
  }

  ghost function Ids(missing: seq<ChunkDescriptor>): (ids: set<ContentHash>)
    ensures forall c :: c in ids <==> exists i :: 0 <= i < |missing| && missing[i].chunkId == c
  {
    set i | 0 <= i < |missing| :: missing[i].chunkId
  }

  ghost predicate Distinct(missing: seq<ChunkDescriptor>) {
    forall i, j :: 0 <= i < j < |missing| ==> missing[i].chunkId != missing[j].chunkId
  }

  ghost function ContentParts(c: ContentHash): (n: nat)
    ensures n > 0
  {
    PartsOf(|c.preimage|)
  }

  /** The requests it takes to bring each of these contents once. */
  ghost function Needed(ids: set<ContentHash>): (n: nat) {
    if ids == {} then 0 else
      var c :| c in ids;
      ContentParts(c) + Needed(ids - {c})
  }

  lemma {:induction false} NeededWithout(ids: set<ContentHash>, c: ContentHash)
    requires c in ids
    ensures Needed(ids) == ContentParts(c) + Needed(ids - {c})
  {
    var d :| d in ids && Needed(ids) == ContentParts(d) + Needed(ids - {d});
    if d != c {
      NeededWithout(ids - {d}, c);
      NeededWithout(ids - {c}, d);
      assert ids - {d} - {c} == ids - {c} - {d};
    }
  }

  lemma NeededWith(ids: set<ContentHash>, c: ContentHash)
    ensures Needed(ids + {c}) == if c in ids then Needed(ids) else Needed(ids) + ContentParts(c)
  {
    if c in ids {
      assert ids + {c} == ids;
    } else {
      NeededWithout(ids + {c}, c);
      assert ids + {c} - {c} == ids;
    }
  }

  lemma {:induction false} NeededMonotone(a: set<ContentHash>, b: set<ContentHash>)
    requires a <= b
    ensures Needed(a) <= Needed(b)
    decreases a
  {
    if c :| c in a {
      NeededMonotone(a - {c}, b - {c});
      NeededWithout(a, c);
      NeededWithout(b, c);
    }
  }

  lemma IdsSnoc(missing: seq<ChunkDescriptor>)
    requires missing != []
    ensures var n := |missing| - 1;
            && Ids(missing) == Ids(missing[..n]) + {missing[n].chunkId}
            && (Distinct(missing) <==> Distinct(missing[..n]) && missing[n].chunkId !in Ids(missing[..n]))
  {
    var n := |missing| - 1;
    assert forall i :: 0 <= i < n ==> missing[..n][i] == missing[i];
    forall c ensures c in Ids(missing) <==> c in Ids(missing[..n]) + {missing[n].chunkId} {
      if c in Ids(missing) && c != missing[n].chunkId {
        var i :| 0 <= i < |missing| && missing[i].chunkId == c;
        assert missing[..n][i].chunkId == c;
      }
    }
    if Distinct(missing[..n]) && missing[n].chunkId !in Ids(missing[..n]) {
      forall i, j | 0 <= i < j < |missing| ensures missing[i].chunkId != missing[j].chunkId {
        assert missing[..n][i].chunkId == missing[i].chunkId;
        if j < n { assert missing[..n][j].chunkId == missing[j].chunkId; }
      }
    }
  }

  /** Fetching each descriptor takes more than bringing each content once, unless all contents differ. */
  lemma {:induction false} NeededWhenDistinct(missing: seq<ChunkDescriptor>)
    requires Described(missing)
    ensures Needed(Ids(missing)) <= PartTotal(missing)
    ensures Needed(Ids(missing)) == PartTotal(missing) <==> Distinct(missing)
  {
    if missing != [] {
      var n := |missing| - 1;
      NeededWhenDistinct(missing[..n]);
      IdsSnoc(missing);
      NeededWith(Ids(missing[..n]), missing[n].chunkId);
    }
  }

  // ------------------------------------------------------------------------------------------
  // How many requests a fetch takes, whatever the network does
  // ------------------------------------------------------------------------------------------

  lemma SpentBound(parts: nat, phase: Phase)
    requires PhaseOk(parts, phase)
    ensures Spent(phase) <= MAX_CHUNK_FETCH_ATTEMPTS * parts
    ensures phase.Done? && phase.fetched ==> parts <= Spent(phase)
  {
    if phase.Fetching? {
      TimesMonotone(phase.attempt + 1, MAX_CHUNK_FETCH_ATTEMPTS, parts);
      assert (phase.attempt + 1) * parts == phase.attempt * parts + parts;
    }
  }

  /** The contents that tasks have brought. */
  ghost function FetchedIds(missing: seq<ChunkDescriptor>, tasks: seq<Phase>): (ids: set<ContentHash>)
    requires |missing| == |tasks|
  {
    if tasks == [] then {} else
      var n := |tasks| - 1;
      var before := FetchedIds(missing[..n], tasks[..n]);
      if tasks[n].Done? && tasks[n].fetched then before + {missing[n].chunkId} else before
  }

  lemma {:induction false} FetchedIdsAre(missing: seq<ChunkDescriptor>, tasks: seq<Phase>, i: nat)
    requires |missing| == |tasks| && i < |tasks| && tasks[i].Done? && tasks[i].fetched
    ensures missing[i].chunkId in FetchedIds(missing, tasks)
  {
    var n := |tasks| - 1;
    if i < n { FetchedIdsAre(missing[..n], tasks[..n], i); }
  }

  lemma {:induction false} NeededIsSpent(missing: seq<ChunkDescriptor>, tasks: seq<Phase>)
    requires |missing| == |tasks| && Described(missing)
    requires forall i :: 0 <= i < |tasks| ==> PhaseOk(PartsOf(missing[i].size), tasks[i])
    ensures Needed(FetchedIds(missing, tasks)) <= Total(tasks) <= MAX_CHUNK_FETCH_ATTEMPTS * PartTotal(missing)
  {
    if missing != [] {
      var n := |missing| - 1;
      NeededIsSpent(missing[..n], tasks[..n]);
      NeededWith(FetchedIds(missing[..n], tasks[..n]), missing[n].chunkId);
      SpentBound(PartsOf(missing[n].size), tasks[n]);
    }
  }

  ghost predicate Completed(s: Fetch) {
    forall i :: 0 <= i < |s.tasks| ==> s.tasks[i].Done?
  }

  ghost predicate NoneThere(missing: seq<ChunkDescriptor>, have: Chunks) {
    forall i :: 0 <= i < |missing| ==> missing[i].chunkId !in have
  }

  /** Every content was brought by some task, or stored by others. */
  lemma AllBrought(s: Fetch, have: Chunks)
    requires Inv(s, have) && Completed(s) && NoneThere(s.missing, have)
    ensures Ids(s.missing) - s.elsewhere <= FetchedIds(s.missing, s.tasks)
  {
    forall c | c in Ids(s.missing) - s.elsewhere ensures c in FetchedIds(s.missing, s.tasks) {
      var i :| 0 <= i < |s.missing| && s.missing[i].chunkId == c;
      assert TaskOk(s, i) && Brought(s, have, c);
      var j :| 0 <= j < |s.tasks| && s.tasks[j].Done? && s.tasks[j].fetched && s.missing[j].chunkId == c;
      FetchedIdsAre(s.missing, s.tasks, j);
    }
  }

  // ------------------------------------------------------------------------------------------
  // No content is fetched more than eight times
  // ------------------------------------------------------------------------------------------

  /** One if this fetch asks, or has asked, for the content. */
  ghost function Asks(d: ChunkDescriptor, phase: Phase, c: ContentHash): (n: nat) {
    if d.chunkId == c && !phase.Waiting? && !phase.Started? && (phase.Done? ==> phase.fetched) then 1 else 0
  }

  ghost function Askers(missing: seq<ChunkDescriptor>, tasks: seq<Phase>, c: ContentHash): (n: nat)
    requires |missing| == |tasks|
  {
    if tasks == [] then 0 else
      var n := |tasks| - 1;
      Askers(missing[..n], tasks[..n], c) + Asks(missing[n], tasks[n], c)
  }

  lemma {:induction false} AskersAfter(missing: seq<ChunkDescriptor>, tasks: seq<Phase>, i: nat, phase: Phase, c: ContentHash)
    requires |missing| == |tasks| && i < |tasks|
    ensures Askers(missing, tasks[i := phase], c) + Asks(missing[i], tasks[i], c)
         == Askers(missing, tasks, c) + Asks(missing[i], phase, c)
  {
    var n := |tasks| - 1;
    var after := tasks[i := phase];
    if i < n {
      AskersAfter(missing[..n], tasks[..n], i, phase, c);
      assert after[..n] == tasks[..n][i := phase];
    } else {
      assert after[..n] == tasks[..n];
    }
  }

  /** While a content is not there, those who ask for it are still live. */
  lemma {:induction false} AskersLive(missing: seq<ChunkDescriptor>, tasks: seq<Phase>, c: ContentHash)
    requires |missing| == |tasks| && NoneFailed(tasks)
    requires forall i :: 0 <= i < |tasks| && tasks[i].Done? ==> missing[i].chunkId != c
    ensures Askers(missing, tasks, c) <= Live(tasks)
  {
    if tasks != [] {
      var n := |tasks| - 1;
      AskersLive(missing[..n], tasks[..n], c);
    }
  }

  lemma StepAsks(s: Fetch, step: Step, c: ContentHash)
    requires Enabled(s, step)
    ensures var s', k := Next(s, step), step.task;
            && s'.tasks == s.tasks[k := s'.tasks[k]]
            && (Asks(s.missing[k], s'.tasks[k], c) <= Asks(s.missing[k], s.tasks[k], c)
                || (step.Check? && c !in s.chunks && s'.chunks == s.chunks && NoneFailed(s'.tasks)))
  {
  }

  lemma OwnStepKeepsAskers(s: Fetch, step: Step, have: Chunks, c: ContentHash)
    requires Inv(s, have) && Enabled(s, step) && Askers(s.missing, s.tasks, c) <= MAX_CONCURRENT_CHUNK_FETCHES
    ensures var s' := Next(s, step); |s'.missing| == |s'.tasks| && Askers(s'.missing, s'.tasks, c) <= MAX_CONCURRENT_CHUNK_FETCHES
  {
    var s', k := Next(s, step), step.task;
    OwnStepKeepsInv(s, step, have);
    StepAsks(s, step, c);
    AskersAfter(s.missing, s.tasks, k, s'.tasks[k], c);
    if Asks(s.missing[k], s'.tasks[k], c) > Asks(s.missing[k], s.tasks[k], c) {
      forall i | 0 <= i < |s'.tasks| && s'.tasks[i].Done? ensures s'.missing[i].chunkId != c { assert TaskOk(s', i); }
      AskersLive(s'.missing, s'.tasks, c);
    }
  }

  lemma StepKeepsAskers(s: Fetch, s': Fetch, have: Chunks, c: ContentHash)
    requires Inv(s, have) && IsStep(s, s') && Askers(s.missing, s.tasks, c) <= MAX_CONCURRENT_CHUNK_FETCHES
    ensures |s'.missing| == |s'.tasks| && Askers(s'.missing, s'.tasks, c) <= MAX_CONCURRENT_CHUNK_FETCHES
  {
    if IsOwnStep(s, s') {
      var step :| Enabled(s, step) && s' == Next(s, step);
      OwnStepKeepsAskers(s, step, have, c);
    }
  }

  lemma {:induction false} NobodyAsks(missing: seq<ChunkDescriptor>, tasks: seq<Phase>, c: ContentHash)
    requires |missing| == |tasks| && forall i :: 0 <= i < |tasks| ==> tasks[i] == Waiting
    ensures Askers(missing, tasks, c) == 0
  {
    if tasks != [] {
      var n := |tasks| - 1;
      NobodyAsks(missing[..n], tasks[..n], c);
    }
  }

  /** However often a content is missing, at most eight tasks ever ask for it. */
  lemma {:induction false} AtMostEightAsk(run: seq<Fetch>, missing: seq<ChunkDescriptor>, have: Chunks, c: ContentHash, n: nat)
    requires IsRun(run, missing, have) && ChunksSound(have) && n < |run|
    ensures |run[n].tasks| == |missing| && Askers(missing, run[n].tasks, c) <= MAX_CONCURRENT_CHUNK_FETCHES
  {
    EveryRunKeepsInv(run, missing, have, n);
    if n == 0 {
      NobodyAsks(missing, Idle(|missing|), c);
    } else {
      AtMostEightAsk(run, missing, have, c, n - 1);
      EveryRunKeepsInv(run, missing, have, n - 1);
      StepKeepsAskers(run[n - 1], run[n], have, c);
    }
  }

  /** The requests made for some of the contents. */
  ghost function TotalFor(missing: seq<ChunkDescriptor>, tasks: seq<Phase>, ids: set<ContentHash>): (n: nat)
    requires |missing| == |tasks|
  {
    if tasks == [] then 0 else
      var n := |tasks| - 1;
      TotalFor(missing[..n], tasks[..n], ids) + if missing[n].chunkId in ids then Spent(tasks[n]) else 0
  }

  lemma {:induction false} TotalForAll(missing: seq<ChunkDescriptor>, tasks: seq<Phase>, ids: set<ContentHash>)
    requires |missing| == |tasks| && forall i :: 0 <= i < |missing| ==> missing[i].chunkId in ids
    ensures TotalFor(missing, tasks, ids) == Total(tasks)
  {
    if tasks != [] {
      var n := |tasks| - 1;
      TotalForAll(missing[..n], tasks[..n], ids);
    }
  }

  lemma {:induction false} TotalForWithout(missing: seq<ChunkDescriptor>, tasks: seq<Phase>, ids: set<ContentHash>, c: ContentHash)
    requires |missing| == |tasks| && c in ids
    ensures TotalFor(missing, tasks, ids) == TotalFor(missing, tasks, ids - {c}) + TotalFor(missing, tasks, {c})
  {
    if tasks != [] {
      var n := |tasks| - 1;
      TotalForWithout(missing[..n], tasks[..n], ids, c);
    }
  }

  lemma {:induction false} NoTotal(missing: seq<ChunkDescriptor>, tasks: seq<Phase>)
    requires |missing| == |tasks|
    ensures TotalFor(missing, tasks, {}) == 0
  {
    if tasks != [] {
      var n := |tasks| - 1;
      NoTotal(missing[..n], tasks[..n]);
    }
  }

  /** A task takes at most `factor` times the requests its content needs, and none unless it asks. */
  ghost predicate TaskWithin(d: ChunkDescriptor, phase: Phase, factor: nat) {
    Spent(phase) <= if Asks(d, phase, d.chunkId) == 1 then factor * ContentParts(d.chunkId) else 0
  }

  ghost predicate Within(missing: seq<ChunkDescriptor>, tasks: seq<Phase>, factor: nat)
    requires |missing| == |tasks|
  {
    forall i :: 0 <= i < |tasks| ==> TaskWithin(missing[i], tasks[i], factor)
  }

  lemma OneMoreAsks(total: nat, askers: nat, each: nat, d: ChunkDescriptor, phase: Phase, factor: nat, c: ContentHash)
    requires total <= askers * each && each == factor * ContentParts(c) && TaskWithin(d, phase, factor)
    ensures total + (if d.chunkId in {c} then Spent(phase) else 0) <= (askers + Asks(d, phase, c)) * each
  {
    assert (askers + 1) * each == askers * each + each;
  }

  lemma {:induction false} TotalForOne(missing: seq<ChunkDescriptor>, tasks: seq<Phase>, factor: nat, c: ContentHash)
    requires |missing| == |tasks| && Within(missing, tasks, factor)
    ensures TotalFor(missing, tasks, {c}) <= Askers(missing, tasks, c) * (factor * ContentParts(c))
  {
    if tasks != [] {
      var n := |tasks| - 1;
      TotalForOne(missing[..n], tasks[..n], factor, c);
      assert TaskWithin(missing[n], tasks[n], factor);
      var before, askers := TotalFor(missing[..n], tasks[..n], {c}), Askers(missing[..n], tasks[..n], c);
      OneMoreAsks(before, askers, factor * ContentParts(c), missing[n], tasks[n], factor, c);
    }
  }

  lemma EightFor(askers: nat, factor: nat, parts: nat, rest: nat)
    requires askers <= MAX_CONCURRENT_CHUNK_FETCHES
    ensures askers * (factor * parts) + MAX_CONCURRENT_CHUNK_FETCHES * (factor * rest)
         <= MAX_CONCURRENT_CHUNK_FETCHES * (factor * (parts + rest))
  {
    TimesMonotone(askers, MAX_CONCURRENT_CHUNK_FETCHES, factor * parts);
    assert factor * (parts + rest) == factor * parts + factor * rest;
  }

  lemma {:induction false} TotalForMany(missing: seq<ChunkDescriptor>, tasks: seq<Phase>, factor: nat, ids: set<ContentHash>)
    requires |missing| == |tasks| && Within(missing, tasks, factor)
    requires forall c :: c in ids ==> Askers(missing, tasks, c) <= MAX_CONCURRENT_CHUNK_FETCHES
    ensures TotalFor(missing, tasks, ids) <= MAX_CONCURRENT_CHUNK_FETCHES * (factor * Needed(ids))
    decreases ids
  {
    if ids == {} {
      NoTotal(missing, tasks);
    } else {
      var c :| c in ids;
      TotalForMany(missing, tasks, factor, ids - {c});
      TotalForWithout(missing, tasks, ids, c);
      TotalForOne(missing, tasks, factor, c);
      NeededWithout(ids, c);
      EightFor(Askers(missing, tasks, c), factor, ContentParts(c), Needed(ids - {c}));
    }
  }

  // ------------------------------------------------------------------------------------------
  // Counting the requests of a completed fetch
  // ------------------------------------------------------------------------------------------

  lemma WithinFour(s: Fetch, have: Chunks)
    requires Inv(s, have) && Described(s.missing)
    ensures Within(s.missing, s.tasks, MAX_CHUNK_FETCH_ATTEMPTS)
  {
    forall i | 0 <= i < |s.tasks| ensures TaskWithin(s.missing[i], s.tasks[i], MAX_CHUNK_FETCH_ATTEMPTS) {
      assert TaskOk(s, i);
      SpentBound(PartsOf(s.missing[i].size), s.tasks[i]);
    }
  }

  lemma EightEach(run: seq<Fetch>, missing: seq<ChunkDescriptor>, have: Chunks, factor: nat)
    requires IsRun(run, missing, have) && ChunksSound(have)
    requires |run[|run| - 1].tasks| == |missing| && Within(missing, run[|run| - 1].tasks, factor)
    ensures run[|run| - 1].answered <= MAX_CONCURRENT_CHUNK_FETCHES * (factor * Needed(Ids(missing)))
  {
    var n := |run| - 1;
    EveryRunKeepsInv(run, missing, have, n);
    forall c | c in Ids(missing) ensures Askers(missing, run[n].tasks, c) <= MAX_CONCURRENT_CHUNK_FETCHES {
      AtMostEightAsk(run, missing, have, c, n);
    }
    TotalForMany(missing, run[n].tasks, factor, Ids(missing));
    TotalForAll(missing, run[n].tasks, Ids(missing));
  }

  lemma KeysWhenCompleted(s: Fetch, have: Chunks)
    requires Inv(s, have) && Completed(s)
    ensures s.chunks.Keys == have.Keys + Ids(s.missing) + s.elsewhere
  {
    forall c | c in s.chunks ensures c in have.Keys + Ids(s.missing) + s.elsewhere {
      assert Brought(s, have, c);
    }
    forall c | c in Ids(s.missing) ensures c in s.chunks {
      var i :| 0 <= i < |s.missing| && s.missing[i].chunkId == c;
      assert TaskOk(s, i);
    }
  }

  /**
    Whatever the network and others do and however its tasks interleave: a fetch that completes has
    brought every content that nobody else stored, so it took at least the requests these need; and
    at most four attempts for each descriptor, and for each content at most eight tasks.
   */
  lemma FetchCount(run: seq<Fetch>, missing: seq<ChunkDescriptor>, have: Chunks)
    requires IsRun(run, missing, have) && ChunksSound(have) && Described(missing) && NoneThere(missing, have)
    requires Completed(run[|run| - 1])
    ensures var s := run[|run| - 1];
            && Needed(Ids(missing) - s.elsewhere) <= s.answered <= MAX_CHUNK_FETCH_ATTEMPTS * PartTotal(missing)
            && s.answered <= MAX_CONCURRENT_CHUNK_FETCHES * (MAX_CHUNK_FETCH_ATTEMPTS * Needed(Ids(missing)))
            && s.chunks.Keys == have.Keys + Ids(missing) + s.elsewhere
  {
    var n := |run| - 1;
    var s := run[n];
    EveryRunKeepsInv(run, missing, have, n);
    forall i | 0 <= i < |s.tasks| ensures PhaseOk(PartsOf(missing[i].size), s.tasks[i]) { assert TaskOk(s, i); }
    NeededIsSpent(missing, s.tasks);
    AllBrought(s, have);
    NeededMonotone(Ids(missing) - s.elsewhere, FetchedIds(missing, s.tasks));
    WithinFour(s, have);
    EightEach(run, missing, have, MAX_CHUNK_FETCH_ATTEMPTS);
    KeysWhenCompleted(s, have);
  }

  // ------------------------------------------------------------------------------------------
  // Served fetches
  // ------------------------------------------------------------------------------------------

  /** A step of a fetch whose requests are all answered, by holders of the chunks. */
  predicate IsServed(s: Fetch, step: Step)
    requires Enabled(s, step)
  {
    && !step.AttemptFailed? && !step.NoProviders?
    && (step.Assemble? ==> step.data == s.missing[step.task].chunkId.preimage)
  }

  ghost predicate IsServedStep(s: Fetch, s': Fetch) {
    (exists step :: Enabled(s, step) && IsServed(s, step) && s' == Next(s, step)) || IsElsewhere(s, s')
  }

  ghost predicate IsServedRun(run: seq<Fetch>, missing: seq<ChunkDescriptor>, have: Chunks) {
    && |run| > 0 && run[0] == Initial(missing, have)
    && forall i, j {:trigger IsServedStep(run[i], run[j])} :: 0 <= i && j == i + 1 && j < |run| ==> IsServedStep(run[i], run[j])
  }

  lemma ServedRunIsRun(run: seq<Fetch>, missing: seq<ChunkDescriptor>, have: Chunks)
    requires IsServedRun(run, missing, have)
    ensures IsRun(run, missing, have)
  {
    forall i, j {:trigger IsStep(run[i], run[j])} | 0 <= i && j == i + 1 && j < |run| ensures IsStep(run[i], run[j]) {
      assert IsServedStep(run[i], run[j]);
    }
  }

  /** One attempt is enough, and every answer counts. */
  ghost predicate ServedPhase(d: ChunkDescriptor, phase: Phase) {
    match phase
    case Waiting => true
    case Started => true
    case Fetching(attempt, got, spent) => attempt == 0 && spent == got <= PartsOf(d.size)
    case Gathered(data, spent) => data == d.chunkId.preimage && spent == PartsOf(d.size)
    case Done(fetched, spent) => spent == if fetched then PartsOf(d.size) else 0
    case Failed(_) => false
  }

  ghost predicate AllServed(s: Fetch) {
    |s.tasks| == |s.missing| && forall i :: 0 <= i < |s.tasks| ==> ServedPhase(s.missing[i], s.tasks[i])
  }

  lemma OwnServedStepKeeps(s: Fetch, step: Step)
    requires Enabled(s, step) && IsServed(s, step) && AllServed(s)
    ensures AllServed(Next(s, step)) && Next(s, step).missing == s.missing
  {
    assert ServedPhase(s.missing[step.task], s.tasks[step.task]);
  }

  lemma ServedStepKeeps(s: Fetch, s': Fetch)
    requires IsServedStep(s, s') && AllServed(s)
    ensures AllServed(s') && s'.missing == s.missing
  {
    if !IsElsewhere(s, s') {
      var step :| Enabled(s, step) && IsServed(s, step) && s' == Next(s, step);
      OwnServedStepKeeps(s, step);
    }
  }

  lemma {:induction false} EveryServedRun(run: seq<Fetch>, missing: seq<ChunkDescriptor>, have: Chunks, n: nat)
    requires IsServedRun(run, missing, have) && n < |run|
    ensures AllServed(run[n]) && run[n].missing == missing
  {
    if n > 0 {
      EveryServedRun(run, missing, have, n - 1);
      ServedStepKeeps(run[n - 1], run[n]);
    }
  }

  lemma {:induction false} ServedTotal(missing: seq<ChunkDescriptor>, tasks: seq<Phase>)
    requires |missing| == |tasks| && forall i :: 0 <= i < |tasks| ==> ServedPhase(missing[i], tasks[i])
    ensures Total(tasks) <= PartTotal(missing)
  {
    if tasks != [] {
      var n := |tasks| - 1;
      ServedTotal(missing[..n], tasks[..n]);
    }
  }

  lemma WithinOnce(s: Fetch)
    requires AllServed(s) && Described(s.missing)
    ensures Within(s.missing, s.tasks, 1)
  {
    forall i | 0 <= i < |s.tasks| ensures TaskWithin(s.missing[i], s.tasks[i], 1) {
      assert ServedPhase(s.missing[i], s.tasks[i]);
    }
  }

  /** At any time on served chunks. */
  lemma ServedAtMost(run: seq<Fetch>, missing: seq<ChunkDescriptor>, have: Chunks)
    requires IsServedRun(run, missing, have) && ChunksSound(have) && Described(missing)
    ensures run[|run| - 1].answered <= PartTotal(missing)
    ensures run[|run| - 1].answered <= MAX_CONCURRENT_CHUNK_FETCHES * Needed(Ids(missing))
  {
    var n := |run| - 1;
    ServedRunIsRun(run, missing, have);
    EveryRunKeepsInv(run, missing, have, n);
    EveryServedRun(run, missing, have, n);
    ServedTotal(missing, run[n].tasks);
    WithinOnce(run[n]);
    EightEach(run, missing, have, 1);
  }

  /**
    On served chunks: no more requests than the missing descriptors have parts, no fewer than the
    contents that nobody else stored need, and never more than eight times what the contents need;
    all the same when the contents differ and nobody else stored one.
   */
  lemma ServedFetchCount(run: seq<Fetch>, missing: seq<ChunkDescriptor>, have: Chunks)
    requires IsServedRun(run, missing, have) && ChunksSound(have) && Described(missing) && NoneThere(missing, have)
    requires Completed(run[|run| - 1])
    ensures var answered, elsewhere := run[|run| - 1].answered, run[|run| - 1].elsewhere;
            && Needed(Ids(missing) - elsewhere) <= answered <= PartTotal(missing)
            && answered <= MAX_CONCURRENT_CHUNK_FETCHES * Needed(Ids(missing))
            && (Distinct(missing) && Ids(missing) !! elsewhere ==> answered == PartTotal(missing))
  {
    ServedRunIsRun(run, missing, have);
    FetchCount(run, missing, have);
    ServedAtMost(run, missing, have);
    NeededWhenDistinct(missing);
    if Ids(missing) !! run[|run| - 1].elsewhere { assert Ids(missing) - run[|run| - 1].elsewhere == Ids(missing); }
  }

  // ------------------------------------------------------------------------------------------
  // Every fetch ends
  // ------------------------------------------------------------------------------------------

  /** A bound on the steps a task may still take. */
  function StepsLeft(parts: nat, phase: Phase): (n: int) {
    match phase
    case Waiting => 4 * (parts + 1) + 3
    case Started => 4 * (parts + 1) + 2
    case Fetching(attempt, got, _) => (MAX_CHUNK_FETCH_ATTEMPTS - attempt) * (parts + 1) - got + 1
    case Gathered(_, _) => 1
    case Done(_, _) => 0
    case Failed(_) => 0
  }

  function AllStepsLeft(missing: seq<ChunkDescriptor>, tasks: seq<Phase>): (n: int)
    requires |missing| == |tasks|
  {
    if tasks == [] then 0 else
      var n := |tasks| - 1;
      AllStepsLeft(missing[..n], tasks[..n]) + StepsLeft(PartsOf(missing[n].size), tasks[n])
  }

  lemma {:induction false} StepsLeftAfter(missing: seq<ChunkDescriptor>, tasks: seq<Phase>, i: nat, phase: Phase)
    requires |missing| == |tasks| && i < |tasks|
    ensures var parts := PartsOf(missing[i].size);
            AllStepsLeft(missing, tasks[i := phase]) + StepsLeft(parts, tasks[i])
            == AllStepsLeft(missing, tasks) + StepsLeft(parts, phase)
  {
    var n := |tasks| - 1;
    var after := tasks[i := phase];
    if i < n {
      StepsLeftAfter(missing[..n], tasks[..n], i, phase);
      assert after[..n] == tasks[..n][i := phase];
    } else {
      assert after[..n] == tasks[..n];
    }
  }

  lemma OneStepLeft(parts: nat, phase: Phase)
    requires PhaseOk(parts, phase)
    ensures StepsLeft(parts, phase) >= if phase.Fetching? then parts + 1 - phase.got + 1 else 0
  {
    if phase.Fetching? { TimesMonotone(1, MAX_CHUNK_FETCH_ATTEMPTS - phase.attempt, parts + 1); }
  }

  lemma {:induction false} StepsLeftNotNegative(missing: seq<ChunkDescriptor>, tasks: seq<Phase>)
    requires |missing| == |tasks|
    requires forall i :: 0 <= i < |tasks| ==> PhaseOk(PartsOf(missing[i].size), tasks[i])
    ensures AllStepsLeft(missing, tasks) >= 0
  {
    if tasks != [] {
      var n := |tasks| - 1;
      StepsLeftNotNegative(missing[..n], tasks[..n]);
      OneStepLeft(PartsOf(missing[n].size), tasks[n]);
    }
  }

  lemma StepTakesOne(s: Fetch, step: Step)
    requires Enabled(s, step) && PhaseOk(PartsOf(s.missing[step.task].size), s.tasks[step.task])
    ensures var s', k := Next(s, step), step.task;
            && s'.tasks == s.tasks[k := s'.tasks[k]]
            && StepsLeft(PartsOf(s.missing[k].size), s'.tasks[k]) < StepsLeft(PartsOf(s.missing[k].size), s.tasks[k])
  {
    var parts, phase := PartsOf(s.missing[step.task].size), s.tasks[step.task];
    OneStepLeft(parts, phase);
    if phase.Fetching? {
      var more := MAX_CHUNK_FETCH_ATTEMPTS - phase.attempt;
      assert more * (parts + 1) == (more - 1) * (parts + 1) + (parts + 1);
    }
  }

  lemma StepsLeftBelow(s: Fetch, have: Chunks)
    requires Inv(s, have)
    ensures AllStepsLeft(s.missing, s.tasks) >= 0
  {
    forall i | 0 <= i < |s.tasks| ensures PhaseOk(PartsOf(s.missing[i].size), s.tasks[i]) { assert TaskOk(s, i); }
    StepsLeftNotNegative(s.missing, s.tasks);
  }

  lemma StepLeavesLess(s: Fetch, s': Fetch, have: Chunks)
    requires Inv(s, have) && IsStep(s, s')
    ensures Inv(s', have) && s'.missing == s.missing
    ensures AllStepsLeft(s.missing, s'.tasks) + (if s'.tasks == s.tasks then 0 else 1) <= AllStepsLeft(s.missing, s.tasks)
  {
    StepKeepsInv(s, s', have);
    if IsOwnStep(s, s') {
      var step :| Enabled(s, step) && s' == Next(s, step);
      assert TaskOk(s, step.task);
      StepTakesOne(s, step);
      StepsLeftAfter(s.missing, s.tasks, step.task, s'.tasks[step.task]);
    }
  }

  /** How many of the first steps are the fetch's own: each of them moves a task. */
  ghost function OwnSteps(run: seq<Fetch>, n: nat): (count: nat)
    requires n < |run|
  {
    if n == 0 then 0 else OwnSteps(run, n - 1) + if run[n].tasks == run[n - 1].tasks then 0 else 1
  }

  /** No fetch takes more steps of its own than four attempts for every part of every descriptor allow. */
  lemma {:induction false} EveryRunEnds(run: seq<Fetch>, missing: seq<ChunkDescriptor>, have: Chunks, n: nat)
    requires IsRun(run, missing, have) && ChunksSound(have) && n < |run|
    ensures |run[n].tasks| == |missing|
    ensures OwnSteps(run, n) + AllStepsLeft(missing, run[n].tasks) <= AllStepsLeft(missing, Idle(|missing|))
    ensures OwnSteps(run, n) <= AllStepsLeft(missing, Idle(|missing|))
  {
    EveryRunKeepsInv(run, missing, have, n);
    StepsLeftBelow(run[n], have);
    if n > 0 {
      EveryRunEnds(run, missing, have, n - 1);
      EveryRunKeepsInv(run, missing, have, n - 1);
      StepLeavesLess(run[n - 1], run[n], have);
    }
  }

  /** The steps that others take leave all tasks alone, and the fetch's own do not. */
  lemma OwnStepMoves(s: Fetch, s': Fetch, have: Chunks)
    requires Inv(s, have)
    ensures IsOwnStep(s, s') ==> s'.tasks != s.tasks
    ensures IsElsewhere(s, s') ==> s'.tasks == s.tasks
  {
    if IsOwnStep(s, s') {
      var step :| Enabled(s, step) && s' == Next(s, step);
      assert TaskOk(s, step.task);
      StepTakesOne(s, step);
    }
  }

  lemma {:induction false} NoneLive(tasks: seq<Phase>)
    requires forall i :: 0 <= i < |tasks| ==> !IsLive(tasks[i])
    ensures Live(tasks) == 0
  {
    if tasks != [] { NoneLive(tasks[..|tasks| - 1]); }
  }

  lemma {:induction false} FirstWaiting(tasks: seq<Phase>, i: nat) returns (k: nat)
    requires i < |tasks| && tasks[i].Waiting?
    ensures k < |tasks| && tasks[k].Waiting? && forall j :: 0 <= j < k ==> !tasks[j].Waiting?
    decreases i
  {
    if j :| 0 <= j < i && tasks[j].Waiting? {
      k := FirstWaiting(tasks, j);
    } else {
      k := i;
    }
  }

  /** A served fetch that has not completed can go on. */
  lemma NeverStuck(s: Fetch) returns (step: Step)
    requires AllServed(s) && Described(s.missing) && !Completed(s)
    ensures Enabled(s, step) && IsServed(s, step)
  {
    var i :| 0 <= i < |s.tasks| && !s.tasks[i].Done?;
    assert forall j :: 0 <= j < |s.tasks| ==> ServedPhase(s.missing[j], s.tasks[j]);
    if j :| 0 <= j < |s.tasks| && IsLive(s.tasks[j]) {
      assert ServedPhase(s.missing[j], s.tasks[j]);
      if s.tasks[j].Started? {
        step := Check(j);
      } else if s.tasks[j].Gathered? {
        step := Store(j);
      } else if s.tasks[j].got < PartsOf(s.missing[j].size) {
        step := PartArrived(j);
      } else {
        step := Assemble(j, s.missing[j].chunkId.preimage);
      }
    } else {
      NoneLive(s.tasks);
      var k := FirstWaiting(s.tasks, i);
      step := Begin(k);
    }
  }

  lemma ExtendServedRun(run: seq<Fetch>, missing: seq<ChunkDescriptor>, have: Chunks, step: Step) returns (run': seq<Fetch>)
    requires IsServedRun(run, missing, have) && Enabled(run[|run| - 1], step) && IsServed(run[|run| - 1], step)
    ensures IsServedRun(run', missing, have) && run' == run + [Next(run[|run| - 1], step)]
  {
    run' := run + [Next(run[|run| - 1], step)];
    assert IsServedStep(run[|run| - 1], Next(run[|run| - 1], step));
    forall i, j {:trigger IsServedStep(run'[i], run'[j])} | 0 <= i && j == i + 1 && j < |run'|
      ensures IsServedStep(run'[i], run'[j])
    {
      if j < |run| { assert IsServedStep(run[i], run[j]); }
    }
  }

  /** Whatever has happened so far, a served fetch completes without further help. */
  lemma {:induction false} ServedRunCompletes(run: seq<Fetch>, missing: seq<ChunkDescriptor>, have: Chunks)
      returns (run': seq<Fetch>)
    requires IsServedRun(run, missing, have) && ChunksSound(have) && Described(missing)
    ensures IsServedRun(run', missing, have) && run <= run' && Completed(run'[|run'| - 1])
    ensures run'[|run'| - 1].elsewhere == run[|run| - 1].elsewhere
    decreases if |run[|run| - 1].tasks| == |missing| then AllStepsLeft(missing, run[|run| - 1].tasks) else 0
  {
    var last := run[|run| - 1];
    ServedRunIsRun(run, missing, have);
    EveryRunKeepsInv(run, missing, have, |run| - 1);
    EveryServedRun(run, missing, have, |run| - 1);
    if Completed(last) {
      run' := run;
    } else {
      var step := NeverStuck(last);
      assert IsOwnStep(last, Next(last, step));
      StepLeavesLess(last, Next(last, step), have);
      OwnStepMoves(last, Next(last, step), have);
      StepsLeftBelow(Next(last, step), have);
      run' := ExtendServedRun(run, missing, have, step);
      run' := ServedRunCompletes(run', missing, have);
    }
  }

  /** A task survives three failed attempts, each of which starts over, and no fourth. */
  lemma ThreeAttemptsMayFail(s: Fetch, i: nat)
    requires Enabled(s, AttemptFailed(i)) && s.tasks[i].attempt == 0
    ensures var s1 := Next(s, AttemptFailed(i));
            && Enabled(s1, AttemptFailed(i))
            && var s2 := Next(s1, AttemptFailed(i));
               && Enabled(s2, AttemptFailed(i))
               && var s3 := Next(s2, AttemptFailed(i));
                  && s3.tasks[i] == Fetching(3, 0, s.tasks[i].spent) && Enabled(s3, AttemptFailed(i)) && Enabled(s3, PartArrived(i))
                  && Next(s3, AttemptFailed(i)).tasks[i] == Failed(s.tasks[i].spent)
  {
    var s1 := Next(s, AttemptFailed(i));
    var s2 := Next(s1, AttemptFailed(i));
    var s3 := Next(s2, AttemptFailed(i));
    assert s1.tasks[i] == Fetching(1, 0, s.tasks[i].spent) && s2.tasks[i] == Fetching(2, 0, s.tasks[i].spent);
  }

  // ------------------------------------------------------------------------------------------
  // Fetching an object
  // ------------------------------------------------------------------------------------------

  function Missing(have: Chunks, chunks: seq<ChunkDescriptor>): (missing: seq<ChunkDescriptor>) {
    if chunks == [] then [] else
      var n := |chunks| - 1;
      if chunks[n].chunkId in have then Missing(have, chunks[..n]) else Missing(have, chunks[..n]) + [chunks[n]]
  }

  method FindMissing(have: Chunks, chunks: seq<ChunkDescriptor>) returns (missing: seq<ChunkDescriptor>)
    ensures missing == Missing(have, chunks)
  {
    missing := [];
    for i := 0 to |chunks|
      invariant missing == Missing(have, chunks[..i])
    {
      assert chunks[..i + 1][..i] == chunks[..i];
      if chunks[i].chunkId !in have {
        missing := missing + [chunks[i]];
      }
    }
    assert chunks[..|chunks|] == chunks;
  }

  lemma OneMore(missing: seq<ChunkDescriptor>, d: ChunkDescriptor)
    ensures Ids(missing + [d]) == Ids(missing) + {d.chunkId}
    ensures PartTotal(missing + [d]) == PartTotal(missing) + PartsOf(d.size)
  {
    var all := missing + [d];
    IdsSnoc(all);
    assert all[..|missing|] == missing;
  }

  lemma {:induction false} MissingIds(have: Chunks, chunks: seq<ChunkDescriptor>)
    ensures Ids(Missing(have, chunks)) == Ids(chunks) - have.Keys
  {
    if chunks != [] {
      var n := |chunks| - 1;
      MissingIds(have, chunks[..n]);
      IdsSnoc(chunks);
      OneMore(Missing(have, chunks[..n]), chunks[n]);
    }
  }

  lemma {:induction false} MissingAre(have: Chunks, chunks: seq<ChunkDescriptor>)
    ensures NoneThere(Missing(have, chunks), have)
    ensures Described(chunks) ==> Described(Missing(have, chunks))
    ensures NoneThere(chunks, have) ==> Missing(have, chunks) == chunks
  {
    if chunks != [] {
      MissingAre(have, chunks[..|chunks| - 1]);
    }
  }

  lemma {:induction false} MissingParts(have: Chunks, chunks: seq<ChunkDescriptor>)
    ensures PartTotal(Missing(have, chunks)) <= PartTotal(chunks)
    ensures !NoneThere(chunks, have) ==> PartTotal(Missing(have, chunks)) < PartTotal(chunks)
  {
    if chunks != [] {
      var n := |chunks| - 1;
      MissingParts(have, chunks[..n]);
      OneMore(Missing(have, chunks[..n]), chunks[n]);
      if chunks[n].chunkId !in have && NoneThere(chunks[..n], have) {
        forall i | 0 <= i < |chunks| ensures chunks[i].chunkId !in have {
          if i < n { assert chunks[..n][i] == chunks[i]; }
        }
      }
    }
  }

  lemma {:induction false} PartsOfDescriptors(pieces: seq<Bytes>, n: nat)
    requires n <= |pieces| && forall i :: 0 <= i < |pieces| ==> pieces[i] != []
    ensures PartTotal(Descriptors(pieces)[..n]) == PartCount(pieces[..n])
  {
    if n > 0 {
      PartsOfDescriptors(pieces, n - 1);
      assert Descriptors(pieces)[..n][..n - 1] == Descriptors(pieces)[..n - 1];
      assert pieces[..n][..n - 1] == pieces[..n - 1];
    }
  }

  /** The parts of all chunks of an object are its subchunks. */
  lemma ObjectParts(id: ObjectId, data: Bytes)
    ensures PartTotal(ManifestFor(id, data).chunks) == SubchunkCount(|data|)
    ensures Described(ManifestFor(id, data).chunks)
  {
    var pieces := ChunksOf(data);
    forall i | 0 <= i < |pieces| ensures pieces[i] != [] { PiecesSizes(data, TopLevelSize(|data|), i); }
    PartsOfDescriptors(pieces, |pieces|);
    assert Descriptors(pieces)[..|pieces|] == Descriptors(pieces) && pieces[..|pieces|] == pieces;
    TwoLevelChunking(data);
  }

  /** Whatever the network did: once every task is done, the object reads back. */
  lemma FetchedReadsBack(run: seq<Fetch>, have: Chunks, id: ObjectId, data: Bytes)
    requires ChunksSound(have) && IsRun(run, Missing(have, ManifestFor(id, data).chunks), have)
    requires Completed(run[|run| - 1])
    ensures Readable(run[|run| - 1].chunks, ManifestFor(id, data)) == Some(data)
  {
    var chunks := ManifestFor(id, data).chunks;
    var s, pieces := run[|run| - 1], ChunksOf(data);
    EveryRunKeepsInv(run, Missing(have, chunks), have, |run| - 1);
    KeysWhenCompleted(s, have);
    MissingIds(have, chunks);
    forall i | 0 <= i < |pieces| ensures Blake3(pieces[i]) in s.chunks {
      assert chunks[i].chunkId in Ids(chunks);
    }
    ManifestReadsBack(s.chunks, id, data);
  }

  /**
    An object whose chunks are served takes no more requests than it has subchunks: exactly as many
    if none of its chunks is there, nobody else stores one and they all differ, fewer if one is there.
   */
  lemma ObjectFetchCount(run: seq<Fetch>, have: Chunks, id: ObjectId, data: Bytes)
    requires ChunksSound(have) && IsServedRun(run, Missing(have, ManifestFor(id, data).chunks), have)
    requires Completed(run[|run| - 1])
    ensures var ids, answered := Ids(ManifestFor(id, data).chunks) - have.Keys, run[|run| - 1].answered;
            && Needed(ids - run[|run| - 1].elsewhere) <= answered <= SubchunkCount(|data|)
            && answered <= MAX_CONCURRENT_CHUNK_FETCHES * Needed(ids)
    ensures var chunks, answered := ManifestFor(id, data).chunks, run[|run| - 1].answered;
            && (NoneThere(chunks, have) && Distinct(chunks) && Ids(chunks) !! run[|run| - 1].elsewhere
                ==> answered == SubchunkCount(|data|))
            && (!NoneThere(chunks, have) ==> answered < SubchunkCount(|data|))
  {
    var chunks := ManifestFor(id, data).chunks;
    ObjectParts(id, data);
    MissingAre(have, chunks);
    MissingParts(have, chunks);
    MissingIds(have, chunks);
    ServedFetchCount(run, Missing(have, chunks), have);
  }

  // ------------------------------------------------------------------------------------------
  // Both ends of the count are reached
  // ------------------------------------------------------------------------------------------

  /** A task after some of its parts have come. */
  ghost function Arrived(s: Fetch, i: nat, got: nat): (s': Fetch)
    requires i < |s.tasks|
  {
    s.(tasks := s.tasks[i := Fetching(0, got, got)], answered := s.answered + got)
  }

  /** A task that has brought its chunk. */
  ghost function Brings(s: Fetch, i: nat): (s': Fetch)
    requires i < |s.tasks| == |s.missing|
  {
    var d := s.missing[i];
    s.(tasks := s.tasks[i := Done(true, PartsOf(d.size))],
       chunks := s.chunks[d.chunkId := d.chunkId.preimage],
       answered := s.answered + PartsOf(d.size))
  }

  ghost predicate CanBring(s: Fetch, i: nat) {
    i < |s.tasks| == |s.missing| && Described(s.missing) && NoneFailed(s.tasks) && s.tasks[i] == Fetching(0, 0, 0)
  }

  lemma {:induction false} BringParts(run: seq<Fetch>, missing: seq<ChunkDescriptor>, have: Chunks, i: nat, got: nat)
      returns (run': seq<Fetch>)
    requires IsServedRun(run, missing, have) && CanBring(run[|run| - 1], i)
    requires got <= PartsOf(run[|run| - 1].missing[i].size)
    ensures IsServedRun(run', missing, have) && run'[|run'| - 1] == Arrived(run[|run| - 1], i, got)
  {
    if got == 0 {
      run' := run;
      assert run[|run| - 1].tasks[i := Fetching(0, 0, 0)] == run[|run| - 1].tasks;
    } else {
      run' := BringParts(run, missing, have, i, got - 1);
      var tasks := run[|run| - 1].tasks;
      assert tasks[i := Fetching(0, got - 1, got - 1)][i := Fetching(0, got, got)] == tasks[i := Fetching(0, got, got)];
      run' := ExtendServedRun(run', missing, have, PartArrived(i));
    }
  }

  lemma BringOne(run: seq<Fetch>, missing: seq<ChunkDescriptor>, have: Chunks, i: nat) returns (run': seq<Fetch>)
    requires IsServedRun(run, missing, have) && CanBring(run[|run| - 1], i)
    ensures IsServedRun(run', missing, have) && run'[|run'| - 1] == Brings(run[|run| - 1], i)
  {
    var s := run[|run| - 1];
    var d := s.missing[i];
    var parts, data := PartsOf(d.size), d.chunkId.preimage;
    run' := BringParts(run, missing, have, i, parts);
    run' := ExtendServedRun(run', missing, have, Assemble(i, data));
    assert run'[|run'| - 1].tasks == s.tasks[i := Gathered(data, parts)];
    run' := ExtendServedRun(run', missing, have, Store(i));
    assert run'[|run'| - 1].tasks == s.tasks[i := Done(true, parts)];
  }

  /** The first tasks are done and the rest wait; all but `first` were brought once each. */
  ghost predicate OneByOne(s: Fetch, missing: seq<ChunkDescriptor>, have: Chunks, first: set<ContentHash>, cost: nat, n: nat) {
    && s.missing == missing && |s.tasks| == |missing| && n <= |missing| && s.elsewhere == {}
    && (forall j :: 0 <= j < |s.tasks| ==> if j < n then s.tasks[j].Done? else s.tasks[j] == Waiting)
    && s.chunks.Keys == have.Keys + first + Ids(missing[..n]) && s.answered == cost + Needed(Ids(missing[..n]) - first)
  }

  ghost function Looked(s: Fetch, n: nat): (s': Fetch)
    requires n < |s.tasks| == |s.missing|
  {
    s.(tasks := s.tasks[n := if s.missing[n].chunkId in s.chunks then Done(false, 0) else Fetching(0, 0, 0)])
  }

  /** The next task begins and looks for its chunk. */
  lemma LookNext(run: seq<Fetch>, missing: seq<ChunkDescriptor>, have: Chunks, n: nat) returns (run': seq<Fetch>)
    requires IsServedRun(run, missing, have) && Enabled(run[|run| - 1], Begin(n))
    ensures IsServedRun(run', missing, have) && run'[|run'| - 1] == Looked(run[|run| - 1], n)
  {
    var s := run[|run| - 1];
    run' := ExtendServedRun(run, missing, have, Begin(n));
    run' := ExtendServedRun(run', missing, have, Check(n));
    assert run'[|run'| - 1].tasks == Looked(s, n).tasks;
  }

  lemma PrefixNext(missing: seq<ChunkDescriptor>, n: nat)
    requires n < |missing|
    ensures Ids(missing[..n + 1]) == Ids(missing[..n]) + {missing[n].chunkId}
    ensures PartTotal(missing[..n + 1]) == PartTotal(missing[..n]) + PartsOf(missing[n].size)
  {
    OneMore(missing[..n], missing[n]);
    assert missing[..n + 1] == missing[..n] + [missing[n]];
  }

  lemma NeededNext(missing: seq<ChunkDescriptor>, first: set<ContentHash>, n: nat)
    requires n < |missing| && Described(missing)
    ensures var ids, c := Ids(missing[..n]), missing[n].chunkId;
            && Ids(missing[..n + 1]) == ids + {c}
            && Needed(ids + {c} - first) == Needed(ids - first) + if c in ids + first then 0 else PartsOf(missing[n].size)
  {
    var ids, c := Ids(missing[..n]), missing[n].chunkId;
    PrefixNext(missing, n);
    NeededWith(ids - first, c);
    assert ids + {c} - first == if c in first then ids - first else ids - first + {c};
  }

  lemma OneMoreDone(s: Fetch, s': Fetch, missing: seq<ChunkDescriptor>, have: Chunks, first: set<ContentHash>, cost: nat, n: nat)
    requires OneByOne(s, missing, have, first, cost, n) && n < |missing| && Described(missing) && NoneThere(missing, have)
    requires s' == if missing[n].chunkId in s.chunks then Looked(s, n) else Brings(s, n)
    ensures OneByOne(s', missing, have, first, cost, n + 1)
  {
    var c, ids := missing[n].chunkId, Ids(missing[..n]);
    NeededNext(missing, first, n);
    assert c in s.chunks <==> c in ids + first;
    assert s'.chunks.Keys == have.Keys + first + (ids + {c});
  }

  lemma TakeNext(run: seq<Fetch>, missing: seq<ChunkDescriptor>, have: Chunks, first: set<ContentHash>, cost: nat, n: nat)
      returns (run': seq<Fetch>)
    requires Described(missing) && NoneThere(missing, have) && n < |missing|
    requires IsServedRun(run, missing, have) && OneByOne(run[|run| - 1], missing, have, first, cost, n)
    ensures IsServedRun(run', missing, have) && OneByOne(run'[|run'| - 1], missing, have, first, cost, n + 1)
  {
    var s := run[|run| - 1];
    NoneLive(s.tasks);
    run' := LookNext(run, missing, have, n);
    if missing[n].chunkId !in s.chunks {
      run' := BringOne(run', missing, have, n);
      var done := Done(true, PartsOf(missing[n].size));
      assert Looked(s, n).tasks[n := done] == s.tasks[n := done];
    }
    OneMoreDone(s, run'[|run'| - 1], missing, have, first, cost, n);
  }

  lemma {:induction false} TakeInTurn(run: seq<Fetch>, missing: seq<ChunkDescriptor>, have: Chunks, first: set<ContentHash>,
                                      cost: nat, m: nat, n: nat) returns (run': seq<Fetch>)
    requires Described(missing) && NoneThere(missing, have) && m <= n <= |missing|
    requires IsServedRun(run, missing, have) && OneByOne(run[|run| - 1], missing, have, first, cost, m)
    ensures IsServedRun(run', missing, have) && OneByOne(run'[|run'| - 1], missing, have, first, cost, n)
  {
    if n == m {
      run' := run;
    } else {
      run' := TakeInTurn(run, missing, have, first, cost, m, n - 1);
      run' := TakeNext(run', missing, have, first, cost, n - 1);
    }
  }

  /** The fewest: tasks that take turns bring every content once. */
  lemma FewestRequests(missing: seq<ChunkDescriptor>, have: Chunks) returns (run: seq<Fetch>)
    requires Described(missing) && NoneThere(missing, have)
    ensures IsServedRun(run, missing, have) && Completed(run[|run| - 1]) && run[|run| - 1].elsewhere == {}
    ensures run[|run| - 1].answered == Needed(Ids(missing))
  {
    run := [Initial(missing, have)];
    assert Ids(missing[..0]) - {} == {};
    run := TakeInTurn(run, missing, have, {}, 0, 0, |missing|);
    assert missing[..|missing|] == missing && Ids(missing) - {} == Ids(missing);
  }

  // ------------------------------------------------------------------------------------------
  // When an object takes the computed number of requests
  // ------------------------------------------------------------------------------------------

  /** Whatever the order of events, as long as others do not store the object's chunks. */
  ghost predicate AlwaysComputed(have: Chunks, id: ObjectId, data: Bytes) {
    forall run: seq<Fetch> ::
      IsServedRun(run, Missing(have, ManifestFor(id, data).chunks), have) && Completed(run[|run| - 1])
      && Ids(ManifestFor(id, data).chunks) !! run[|run| - 1].elsewhere
      ==> run[|run| - 1].answered == SubchunkCount(|data|)
  }

  lemma RepeatedTakesFewer(have: Chunks, id: ObjectId, data: Bytes)
    requires ChunksSound(have) && AlwaysComputed(have, id, data)
    ensures NoneThere(ManifestFor(id, data).chunks, have) && Distinct(ManifestFor(id, data).chunks)
  {
    var chunks := ManifestFor(id, data).chunks;
    ObjectParts(id, data);
    MissingAre(have, chunks);
    var run := FewestRequests(Missing(have, chunks), have);
    ObjectFetchCount(run, have, id, data);
    NeededWhenDistinct(Missing(have, chunks));
  }

  /** An object always takes as many requests as computed exactly when no chunk is there and none is repeated. */
  lemma ComputedWhenNew(have: Chunks, id: ObjectId, data: Bytes)
    requires ChunksSound(have)
    ensures AlwaysComputed(have, id, data)
            <==> NoneThere(ManifestFor(id, data).chunks, have) && Distinct(ManifestFor(id, data).chunks)
  {
    var chunks := ManifestFor(id, data).chunks;
    if NoneThere(chunks, have) && Distinct(chunks) {
      forall run: seq<Fetch> |
        IsServedRun(run, Missing(have, chunks), have) && Completed(run[|run| - 1]) && Ids(chunks) !! run[|run| - 1].elsewhere
        ensures run[|run| - 1].answered == SubchunkCount(|data|)
      {
        ObjectFetchCount(run, have, id, data);
      }
    }
    if AlwaysComputed(have, id, data) { RepeatedTakesFewer(have, id, data); }
  }

  // ------------------------------------------------------------------------------------------
  // A chunk that is missing many times
  // ------------------------------------------------------------------------------------------

  lemma {:induction false} LiveAtMost(tasks: seq<Phase>, n: nat)
    requires n <= |tasks| && forall i :: n <= i < |tasks| ==> !IsLive(tasks[i])
    ensures Live(tasks) <= n
  {
    if n < |tasks| {
      LiveAtMost(tasks[..|tasks| - 1], n);
    } else if n > 0 {
      LiveAtMost(tasks[..|tasks| - 1], n - 1);
    }
  }

  /** Of `m` tasks that looked together, the first have brought their chunks, equal or not. */
  ghost predicate Together(s: Fetch, missing: seq<ChunkDescriptor>, have: Chunks, n: nat, m: nat) {
    && s.missing == missing && |s.tasks| == |missing| && n <= m <= |missing| && s.elsewhere == {}
    && s.chunks.Keys == have.Keys + Ids(missing[..n]) && s.answered == PartTotal(missing[..n])
    && (forall j :: 0 <= j < |s.tasks| ==>
          s.tasks[j] == if j < n then Done(true, PartsOf(missing[j].size)) else if j < m then Fetching(0, 0, 0) else Waiting)
  }

  lemma {:induction false} LookTogether(missing: seq<ChunkDescriptor>, have: Chunks, m: nat) returns (run: seq<Fetch>)
    requires NoneThere(missing, have) && m <= |missing| && m <= MAX_CONCURRENT_CHUNK_FETCHES
    ensures IsServedRun(run, missing, have) && Together(run[|run| - 1], missing, have, 0, m)
  {
    if m == 0 {
      run := [Initial(missing, have)];
      assert Ids(missing[..0]) == {};
    } else {
      run := LookTogether(missing, have, m - 1);
      LiveAtMost(run[|run| - 1].tasks, m - 1);
      assert Ids(missing[..0]) == {};
      run := LookNext(run, missing, have, m - 1);
    }
  }

  lemma OneMoreTogether(s: Fetch, missing: seq<ChunkDescriptor>, have: Chunks, n: nat, m: nat)
    requires Together(s, missing, have, n, m) && n < m
    ensures Together(Brings(s, n), missing, have, n + 1, m)
  {
    var s' := Brings(s, n);
    PrefixNext(missing, n);
    assert s'.chunks.Keys == have.Keys + Ids(missing[..n + 1]);
  }

  lemma BringableTogether(s: Fetch, missing: seq<ChunkDescriptor>, have: Chunks, n: nat, m: nat)
    requires Together(s, missing, have, n, m) && n < m && Described(missing)
    ensures CanBring(s, n)
  {
  }

  lemma BringNext(run: seq<Fetch>, missing: seq<ChunkDescriptor>, have: Chunks, n: nat, m: nat) returns (run': seq<Fetch>)
    requires IsServedRun(run, missing, have) && Described(missing) && Together(run[|run| - 1], missing, have, n, m) && n < m
    ensures IsServedRun(run', missing, have) && Together(run'[|run'| - 1], missing, have, n + 1, m)
  {
    OneMoreTogether(run[|run| - 1], missing, have, n, m);
    BringableTogether(run[|run| - 1], missing, have, n, m);
    run' := BringOne(run, missing, have, n);
  }

  lemma {:induction false} BringTogether(missing: seq<ChunkDescriptor>, have: Chunks, n: nat, m: nat) returns (run: seq<Fetch>)
    requires Described(missing) && NoneThere(missing, have) && n <= m <= |missing| && m <= MAX_CONCURRENT_CHUNK_FETCHES
    ensures IsServedRun(run, missing, have) && Together(run[|run| - 1], missing, have, n, m)
  {
    if n == 0 {
      run := LookTogether(missing, have, m);
    } else {
      run := BringTogether(missing, have, n - 1, m);
      run := BringNext(run, missing, have, n - 1, m);
    }
  }

  /** The first tasks, up to eight, look together; what they do not bring the others bring in turn. */
  lemma FirstTogether(missing: seq<ChunkDescriptor>, have: Chunks, m: nat) returns (run: seq<Fetch>)
    requires Described(missing) && NoneThere(missing, have) && m <= |missing| && m <= MAX_CONCURRENT_CHUNK_FETCHES
    ensures IsServedRun(run, missing, have) && Completed(run[|run| - 1]) && run[|run| - 1].elsewhere == {}
    ensures run[|run| - 1].answered == PartTotal(missing[..m]) + Needed(Ids(missing) - Ids(missing[..m]))
  {
    run := BringTogether(missing, have, m, m);
    assert Ids(missing[..m]) - Ids(missing[..m]) == {};
    run := TakeInTurn(run, missing, have, Ids(missing[..m]), PartTotal(missing[..m]), m, |missing|);
    assert missing[..|missing|] == missing;
  }

  function Copies(d: ChunkDescriptor, n: nat): (missing: seq<ChunkDescriptor>)
    ensures |missing| == n && forall i :: 0 <= i < n ==> missing[i] == d
  {
    if n == 0 then [] else Copies(d, n - 1) + [d]
  }

  lemma OnceMore(a: nat, b: nat, n: nat, k: nat)
    requires a == n * k && b == a + k
    ensures b == (n + 1) * k
  {
  }

  lemma {:induction false} EqualParts(missing: seq<ChunkDescriptor>, k: nat)
    requires forall i :: 0 <= i < |missing| ==> PartsOf(missing[i].size) == k
    ensures PartTotal(missing) == |missing| * k
  {
    if missing != [] {
      var n := |missing| - 1;
      EqualParts(missing[..n], k);
      OnceMore(PartTotal(missing[..n]), PartTotal(missing), n, k);
    }
  }

  lemma CopiesNeed(d: ChunkDescriptor, n: nat)
    requires n > 0 && d.size == |d.chunkId.preimage|
    ensures Ids(Copies(d, n)) == {d.chunkId} && Needed({d.chunkId}) == PartsOf(d.size)
  {
    assert Copies(d, n)[0].chunkId == d.chunkId;
    assert Ids(Copies(d, n)) == {d.chunkId} == {} + {d.chunkId};
    NeededWith({}, d.chunkId);
  }

  /** How many of `n` equal chunks can be under way together. */
  function UpToEight(n: nat): (m: nat) {
    if n < MAX_CONCURRENT_CHUNK_FETCHES then n else MAX_CONCURRENT_CHUNK_FETCHES
  }

  /** A chunk that is missing any number of times is fetched at most eight times, and once unless others store it. */
  lemma RepeatedChunkCount(run: seq<Fetch>, d: ChunkDescriptor, have: Chunks, n: nat)
    requires d.size == |d.chunkId.preimage| && d.chunkId !in have && ChunksSound(have) && n > 0
    requires IsServedRun(run, Copies(d, n), have)
    ensures run[|run| - 1].answered <= UpToEight(n) * PartsOf(d.size)
    ensures Completed(run[|run| - 1]) && d.chunkId !in run[|run| - 1].elsewhere ==> run[|run| - 1].answered >= PartsOf(d.size)
  {
    EqualParts(Copies(d, n), PartsOf(d.size));
    CopiesNeed(d, n);
    ServedAtMost(run, Copies(d, n), have);
    if Completed(run[|run| - 1]) && d.chunkId !in run[|run| - 1].elsewhere {
      ServedFetchCount(run, Copies(d, n), have);
      assert {d.chunkId} - run[|run| - 1].elsewhere == {d.chunkId};
    }
  }

  lemma CopiesTogether(d: ChunkDescriptor, n: nat, m: nat, k: nat)
    requires d.size == |d.chunkId.preimage| && 0 < m <= n && k == PartsOf(d.size)
    ensures PartTotal(Copies(d, n)[..m]) + Needed(Ids(Copies(d, n)) - Ids(Copies(d, n)[..m])) == m * k
  {
    EqualParts(Copies(d, m), k);
    CopiesNeed(d, n);
    CopiesNeed(d, m);
    assert Copies(d, n)[..m] == Copies(d, m);
    assert {d.chunkId} - {d.chunkId} == {};
  }

  /** Both ends are reached, with nothing but the order of events to tell. */
  lemma RepeatedChunk(d: ChunkDescriptor, have: Chunks, n: nat) returns (once: seq<Fetch>, often: seq<Fetch>)
    requires d.size == |d.chunkId.preimage| && d.chunkId !in have && n > 0
    ensures IsServedRun(once, Copies(d, n), have) && Completed(once[|once| - 1])
    ensures IsServedRun(often, Copies(d, n), have) && Completed(often[|often| - 1])
    ensures once[|once| - 1].answered == PartsOf(d.size) && often[|often| - 1].answered == UpToEight(n) * PartsOf(d.size)
  {
    var missing, m := Copies(d, n), UpToEight(n);
    once := FewestRequests(missing, have);
    often := FirstTogether(missing, have, m);
    CopiesNeed(d, n);
    CopiesTogether(d, n, m, PartsOf(d.size));
  }

  // ------------------------------------------------------------------------------------------
  // When every descriptor can be fetched
  // ------------------------------------------------------------------------------------------

  /** Which earlier tasks must still be under way when task `i` begins, if every copy is to be fetched. */
  ghost function StillOpen(missing: seq<ChunkDescriptor>, i: nat): (open: set<nat>)
    requires i <= |missing|
  {
    set j: nat | j < i && missing[j].chunkId in Ids(missing[i..])
  }

  ghost predicate CopiesAreNear(missing: seq<ChunkDescriptor>) {
    forall i :: 0 <= i < |missing| ==> |StillOpen(missing, i)| < MAX_CONCURRENT_CHUNK_FETCHES
  }

  ghost function LiveSet(tasks: seq<Phase>): (live: set<nat>) {
    set i: nat | i < |tasks| && IsLive(tasks[i])
  }

  lemma {:induction false} LiveIsSize(tasks: seq<Phase>)
    ensures Live(tasks) == |LiveSet(tasks)|
  {
    if tasks == [] {
      assert LiveSet(tasks) == {};
    } else {
      var n := |tasks| - 1;
      LiveIsSize(tasks[..n]);
      assert LiveSet(tasks) == LiveSet(tasks[..n]) + if IsLive(tasks[n]) then {n} else {};
    }
  }

  lemma {:induction false} SubsetIsSmaller(a: set<nat>, b: set<nat>)
    requires a <= b
    ensures |a| <= |b|
  {
    if x :| x in a {
      SubsetIsSmaller(a - {x}, b - {x});
    }
  }

  /** `n` tasks have begun; of the first `m` those are done whose content is not missing again later. */
  ghost predicate Holding(s: Fetch, missing: seq<ChunkDescriptor>, n: nat, m: nat) {
    && s.missing == missing && |s.tasks| == |missing| && m <= n <= |missing|
    && (forall j :: 0 <= j < |s.tasks| ==>
          if j >= n then s.tasks[j] == Waiting
          else s.tasks[j] == Fetching(0, 0, 0) || s.tasks[j] == Done(true, PartsOf(missing[j].size)))
    && (forall j :: 0 <= j < m && missing[j].chunkId !in Ids(missing[n..]) ==> s.tasks[j].Done?)
    && (forall c :: c in Ids(missing[n..]) ==> c !in s.chunks)
  }

  lemma {:induction false} CloseUpTo(run: seq<Fetch>, missing: seq<ChunkDescriptor>, have: Chunks, n: nat, m: nat)
      returns (run': seq<Fetch>)
    requires IsServedRun(run, missing, have) && Described(missing) && m <= n && Holding(run[|run| - 1], missing, n, 0)
    ensures IsServedRun(run', missing, have) && Holding(run'[|run'| - 1], missing, n, m)
  {
    if m == 0 {
      run' := run;
    } else {
      run' := CloseUpTo(run, missing, have, n, m - 1);
      if run'[|run'| - 1].tasks[m - 1].Fetching? && missing[m - 1].chunkId !in Ids(missing[n..]) {
        run' := BringOne(run', missing, have, m - 1);
      }
    }
  }

  lemma HoldersAreOpen(s: Fetch, missing: seq<ChunkDescriptor>, n: nat)
    requires Holding(s, missing, n, n) && n < |missing| && CopiesAreNear(missing)
    ensures Live(s.tasks) < MAX_CONCURRENT_CHUNK_FETCHES
  {
    LiveIsSize(s.tasks);
    forall j | j in LiveSet(s.tasks) ensures j in StillOpen(missing, n) {
      assert j < n && !s.tasks[j].Done?;
    }
    SubsetIsSmaller(LiveSet(s.tasks), StillOpen(missing, n));
  }

  lemma LaterIds(missing: seq<ChunkDescriptor>, n: nat)
    requires n < |missing|
    ensures missing[n].chunkId in Ids(missing[n..]) && Ids(missing[n + 1..]) <= Ids(missing[n..])
  {
    assert missing[n..][0] == missing[n];
    forall c | c in Ids(missing[n + 1..]) ensures c in Ids(missing[n..]) {
      var i :| 0 <= i < |missing[n + 1..]| && missing[n + 1..][i].chunkId == c;
      assert missing[n..][i + 1].chunkId == c;
    }
  }

  lemma OneMoreHeld(s: Fetch, missing: seq<ChunkDescriptor>, n: nat)
    requires Holding(s, missing, n, n) && n < |missing|
    ensures Holding(Looked(s, n), missing, n + 1, 0)
  {
    LaterIds(missing, n);
  }

  lemma NextBegins(s: Fetch, missing: seq<ChunkDescriptor>, n: nat)
    requires Holding(s, missing, n, n) && n < |missing| && CopiesAreNear(missing)
    ensures Enabled(s, Begin(n))
  {
    HoldersAreOpen(s, missing, n);
  }

  lemma HoldNext(run: seq<Fetch>, missing: seq<ChunkDescriptor>, have: Chunks, n: nat) returns (run': seq<Fetch>)
    requires IsServedRun(run, missing, have) && Holding(run[|run| - 1], missing, n, n) && n < |missing|
    requires Described(missing) && CopiesAreNear(missing)
    ensures IsServedRun(run', missing, have) && Holding(run'[|run'| - 1], missing, n + 1, n + 1)
  {
    NextBegins(run[|run| - 1], missing, n);
    OneMoreHeld(run[|run| - 1], missing, n);
    run' := LookNext(run, missing, have, n);
    run' := CloseUpTo(run', missing, have, n + 1, n + 1);
  }

  lemma {:induction false} HoldUntilLast(missing: seq<ChunkDescriptor>, have: Chunks, n: nat) returns (run: seq<Fetch>)
    requires Described(missing) && NoneThere(missing, have) && CopiesAreNear(missing) && n <= |missing|
    ensures IsServedRun(run, missing, have) && Holding(run[|run| - 1], missing, n, n)
  {
    if n == 0 {
      run := [Initial(missing, have)];
      assert missing[0..] == missing;
    } else {
      run := HoldUntilLast(missing, have, n - 1);
      run := HoldNext(run, missing, have, n - 1);
    }
  }

  lemma {:induction false} AllFetchedTotal(missing: seq<ChunkDescriptor>, tasks: seq<Phase>)
    requires |missing| == |tasks| && forall i :: 0 <= i < |tasks| ==> tasks[i] == Done(true, PartsOf(missing[i].size))
    ensures Total(tasks) == PartTotal(missing)
  {
    if tasks != [] {
      var n := |tasks| - 1;
      AllFetchedTotal(missing[..n], tasks[..n]);
    }
  }

  ghost predicate FetchesAll(run: seq<Fetch>, missing: seq<ChunkDescriptor>, have: Chunks) {
    IsServedRun(run, missing, have) && Completed(run[|run| - 1]) && run[|run| - 1].answered == PartTotal(missing)
  }

  lemma NearIsEnough(missing: seq<ChunkDescriptor>, have: Chunks) returns (run: seq<Fetch>)
    requires Described(missing) && NoneThere(missing, have) && ChunksSound(have) && CopiesAreNear(missing)
    ensures FetchesAll(run, missing, have)
  {
    run := HoldUntilLast(missing, have, |missing|);
    assert Ids(missing[|missing|..]) == {};
    AllFetchedTotal(missing, run[|run| - 1].tasks);
    ServedRunIsRun(run, missing, have);
    EveryRunKeepsInv(run, missing, have, |run| - 1);
  }

  lemma {:induction false} UnfetchedIsLess(missing: seq<ChunkDescriptor>, tasks: seq<Phase>, i: nat)
    requires |missing| == |tasks| && forall j :: 0 <= j < |tasks| ==> ServedPhase(missing[j], tasks[j])
    requires i < |tasks| && tasks[i].Done? && !tasks[i].fetched
    ensures Total(tasks) < PartTotal(missing)
  {
    var n := |tasks| - 1;
    if i < n {
      UnfetchedIsLess(missing[..n], tasks[..n], i);
    } else {
      ServedTotal(missing[..n], tasks[..n]);
      assert ServedPhase(missing[n], tasks[n]);
    }
  }

  /** A task that has not looked, or that found its chunk there. */
  predicate Passive(phase: Phase) {
    phase.Waiting? || phase.Started? || (phase.Done? && !phase.fetched)
  }

  ghost predicate NonePassive(tasks: seq<Phase>) {
    forall i :: 0 <= i < |tasks| ==> !Passive(tasks[i])
  }

  lemma StepTooLate(s: Fetch, s': Fetch, have: Chunks, k: nat)
    requires Inv(s, have) && IsStep(s, s') && k < |s.tasks| && s.missing[k].chunkId in s.chunks && Passive(s.tasks[k])
    ensures k < |s'.tasks| && s'.missing == s.missing && s.missing[k].chunkId in s'.chunks && Passive(s'.tasks[k])
  {
    if IsOwnStep(s, s') {
      var step :| Enabled(s, step) && s' == Next(s, step);
      assert TaskOk(s, step.task);
      PhaseKept(s, step);
    }
  }

  /** Once its chunk is there, a task that has not looked will never fetch it. */
  lemma {:induction false} TooLate(run: seq<Fetch>, missing: seq<ChunkDescriptor>, have: Chunks, k: nat, n: nat, n': nat)
    requires IsRun(run, missing, have) && ChunksSound(have) && n <= n' < |run| && k < |missing| == |run[n].tasks|
    requires missing[k].chunkId in run[n].chunks && Passive(run[n].tasks[k])
    ensures |run[n'].tasks| == |missing| && missing[k].chunkId in run[n'].chunks && Passive(run[n'].tasks[k])
  {
    if n < n' {
      TooLate(run, missing, have, k, n, n' - 1);
      EveryRunKeepsInv(run, missing, have, n' - 1);
      EveryRunKeepsInv(run, missing, have, n');
      StepTooLate(run[n' - 1], run[n'], have, k);
    }
  }

  /** Tasks begin in order. */
  ghost predicate BegunInOrder(tasks: seq<Phase>) {
    forall i, k :: 0 <= i < k < |tasks| && tasks[i].Waiting? ==> tasks[k].Waiting?
  }

  lemma OwnStepMovesOne(s: Fetch, step: Step)
    requires Enabled(s, step)
    ensures var s', k := Next(s, step), step.task; s'.tasks == s.tasks[k := s'.tasks[k]] && !s'.tasks[k].Waiting?
    ensures s.tasks[step.task].Waiting? ==> step.Begin?
  {
  }

  lemma MovedInOrder(tasks: seq<Phase>, k: nat, phase: Phase)
    requires k < |tasks| && BegunInOrder(tasks) && !phase.Waiting?
    requires tasks[k].Waiting? ==> forall j :: 0 <= j < k ==> !tasks[j].Waiting?
    ensures BegunInOrder(tasks[k := phase])
  {
  }

  lemma StepInOrder(s: Fetch, s': Fetch)
    requires IsStep(s, s') && BegunInOrder(s.tasks)
    ensures BegunInOrder(s'.tasks)
  {
    if IsOwnStep(s, s') {
      var step :| Enabled(s, step) && s' == Next(s, step);
      OwnStepMovesOne(s, step);
      MovedInOrder(s.tasks, step.task, s'.tasks[step.task]);
    }
  }

  lemma {:induction false} EveryRunInOrder(run: seq<Fetch>, missing: seq<ChunkDescriptor>, have: Chunks, n: nat)
    requires IsRun(run, missing, have) && n < |run|
    ensures BegunInOrder(run[n].tasks)
  {
    if n > 0 {
      EveryRunInOrder(run, missing, have, n - 1);
      StepInOrder(run[n - 1], run[n]);
    }
  }

  lemma StepBegins(s: Fetch, s': Fetch, i: nat)
    requires IsStep(s, s') && i < |s.tasks| == |s'.tasks| && s.tasks[i].Waiting? && !s'.tasks[i].Waiting?
    ensures Enabled(s, Begin(i))
  {
    var step :| Enabled(s, step) && s' == Next(s, step);
    assert step.task == i;
  }

  lemma {:induction false} BeginsOnce(run: seq<Fetch>, missing: seq<ChunkDescriptor>, have: Chunks, i: nat, n: nat) returns (m: nat)
    requires IsRun(run, missing, have) && ChunksSound(have) && n < |run|
    requires i < |missing| == |run[n].tasks| && !run[n].tasks[i].Waiting?
    ensures m < n && |run[m].tasks| == |missing| && run[m].tasks[i].Waiting? && Enabled(run[m], Begin(i))
  {
    EveryRunKeepsInv(run, missing, have, n);
    if n > 0 {
      EveryRunKeepsInv(run, missing, have, n - 1);
      if run[n - 1].tasks[i].Waiting? {
        StepBegins(run[n - 1], run[n], i);
        m := n - 1;
      } else {
        m := BeginsOnce(run, missing, have, i, n - 1);
      }
    }
  }

  /** In a run that fetches every descriptor, the copies of what is missing later are live. */
  lemma OpenAreLive(run: seq<Fetch>, missing: seq<ChunkDescriptor>, have: Chunks, i: nat, m: nat, j: nat)
    requires IsRun(run, missing, have) && ChunksSound(have) && m < |run| && i < |missing| && j in StillOpen(missing, i)
    requires Enabled(run[m], Begin(i)) && |run[m].tasks| == |run[|run| - 1].tasks| == |missing|
    requires NonePassive(run[|run| - 1].tasks)
    ensures IsLive(run[m].tasks[j])
  {
    var k' :| 0 <= k' < |missing[i..]| && missing[i..][k'].chunkId == missing[j].chunkId;
    var k := i + k';
    assert missing[k].chunkId == missing[j].chunkId;
    EveryRunKeepsInv(run, missing, have, m);
    EveryRunInOrder(run, missing, have, m);
    assert TaskOk(run[m], j) && run[m].tasks[k].Waiting?;
    if run[m].tasks[j].Done? {
      TooLate(run, missing, have, k, m, |run| - 1);
    }
  }

  lemma NearIsNeeded(run: seq<Fetch>, missing: seq<ChunkDescriptor>, have: Chunks, i: nat)
    requires FetchesAll(run, missing, have) && ChunksSound(have) && i < |missing|
    ensures |StillOpen(missing, i)| < MAX_CONCURRENT_CHUNK_FETCHES
  {
    var n := |run| - 1;
    ServedRunIsRun(run, missing, have);
    EveryRunKeepsInv(run, missing, have, n);
    EveryServedRun(run, missing, have, n);
    forall k | 0 <= k < |missing| ensures !Passive(run[n].tasks[k]) {
      if !run[n].tasks[k].fetched { UnfetchedIsLess(missing, run[n].tasks, k); }
    }
    var m := BeginsOnce(run, missing, have, i, n);
    forall j | j in StillOpen(missing, i) ensures j in LiveSet(run[m].tasks) {
      OpenAreLive(run, missing, have, i, m, j);
    }
    LiveIsSize(run[m].tasks);
    SubsetIsSmaller(StillOpen(missing, i), LiveSet(run[m].tasks));
  }

  /**
    The most: all descriptors can be fetched, repeated ones again, exactly when no task is preceded
    by eight for contents missing again from there on.
   */
  lemma MostRequests(missing: seq<ChunkDescriptor>, have: Chunks)
    requires Described(missing) && NoneThere(missing, have) && ChunksSound(have)
    ensures (exists run :: FetchesAll(run, missing, have)) <==> CopiesAreNear(missing)
  {
    if CopiesAreNear(missing) {
      var run := NearIsEnough(missing, have);
    }
    if run :| FetchesAll(run, missing, have) {
      forall i | 0 <= i < |missing| ensures |StillOpen(missing, i)| < MAX_CONCURRENT_CHUNK_FETCHES {
        NearIsNeeded(run, missing, have, i);
      }
    }
  }
}
