/**
  Fetching chunks from other nodes (src/network/chunk_distributor.rs, and the `GetChunkPart`
  handler of src/consensus/core/network_handlers.rs).

  What a node answers is left open: an answer is any function of the number of the request and of
  what was asked, so the same question may be answered differently the next time.
 */
module ChunkFetch {
  import opened Wrappers
  import opened Crypto
  import opened Chunking
  import opened ChunkStore

  type Peer = nat

  const SUBCHUNK_SIZE_BYTES: nat := CHUNK_SIZE_SMALL
  const MAX_PROVIDER_TRIES_PER_CHUNK: nat := 3
  const MAX_PROVIDER_TRIES_PER_PART: nat := 3
  const MAX_CHUNK_FETCH_ATTEMPTS: nat := 4

  /** The network: answers to `GetChunk` and `GetChunkPart`. */
  datatype Network = Network(
    chunk: (nat, Peer, ContentHash) -> Option<Bytes>,
    part: (nat, Peer, ContentHash, nat, nat) -> Option<Bytes>)

  function Take(providers: seq<Peer>, n: nat): (r: seq<Peer>)
    ensures |r| == if |providers| < n then |providers| else n
  {
    if |providers| < n then providers else providers[..n]
  }

  /** The `GetChunkPart` handler: nothing for an empty or oversized request, or past the end. */
  function ServePart(data: Bytes, offset: nat, length: nat): (r: Option<Bytes>)
    ensures r.Some? <==> 0 < length <= CHUNK_SIZE_SMALL && offset < |data|
    ensures r.Some? && offset + length <= |data| ==> r.value == data[offset..offset + length]
    ensures r.Some? && offset + length > |data| ==> r.value == data[offset..]
  {
    if length == 0 || length > CHUNK_SIZE_SMALL || offset >= |data| then None
    else Some(data[offset..if offset + length < |data| then offset + length else |data|])
  }

  /** A peer that answers for a chunk as a holder of it does. */
  ghost predicate Holds(net: Network, p: Peer, id: ContentHash, data: Bytes) {
    && (forall k: nat, offset: nat, length: nat :: net.part(k, p, id, offset, length) == ServePart(data, offset, length))
    && (forall k: nat :: net.chunk(k, p, id) == Some(data))
  }

  ghost predicate RightPart(answer: Option<Bytes>, data: Bytes, offset: nat, length: nat) {
    answer.Some? && |answer.value| == length && offset + length <= |data| ==> answer.value == data[offset..offset + length]
  }

  /** A peer that may stay silent or send too little or too much, but no wrong bytes of the right length. */
  ghost predicate Harmless(net: Network, p: Peer, id: ContentHash, data: Bytes) {
    && (forall k: nat, offset: nat, length: nat :: RightPart(net.part(k, p, id, offset, length), data, offset, length))
    && (forall k: nat :: net.chunk(k, p, id) == None || net.chunk(k, p, id) == Some(data))
  }

  /** A holder is among the providers that are asked, and none of them sends wrong bytes. */
  ghost predicate Served(net: Network, providers: seq<Peer>, id: ContentHash, data: Bytes) {
    && AllHarmless(net, providers, id, data)
    && (exists i :: 0 <= i < |providers| && i < MAX_PROVIDER_TRIES_PER_PART && Holds(net, providers[i], id, data))
  }

  /** None of the providers sends wrong bytes. */
  ghost predicate AllHarmless(net: Network, providers: seq<Peer>, id: ContentHash, data: Bytes) {
    forall i :: 0 <= i < |providers| ==> Harmless(net, providers[i], id, data)
  }

  /** One part, from the first provider that sends one of the right length. */
  method FetchPart(net: Network, providers: seq<Peer>, id: ContentHash, offset: nat, length: nat, asked: nat, ghost data: Bytes)
      returns (part: Option<Bytes>, asked': nat)
    ensures asked <= asked' <= asked + MAX_PROVIDER_TRIES_PER_PART
    ensures part.Some? ==> |part.value| == length
    ensures Served(net, providers, id, data) && 0 < length <= CHUNK_SIZE_SMALL && offset + length <= |data| ==>
              part == Some(data[offset..offset + length])
    ensures AllHarmless(net, providers, id, data) && part.Some? && offset + length <= |data| ==>
              part.value == data[offset..offset + length]
  {
    asked' := asked;
    var tries := Take(providers, MAX_PROVIDER_TRIES_PER_PART);
    for i := 0 to |tries|
      invariant asked' == asked + i
      invariant 0 < length <= CHUNK_SIZE_SMALL && offset + length <= |data| ==>
                  forall j :: 0 <= j < i ==> !Holds(net, providers[j], id, data)
    {
      part := net.part(asked', tries[i], id, offset, length);
      ghost var k := asked';
      asked' := asked' + 1;
      if part.Some? && |part.value| == length {
        if Harmless(net, providers[i], id, data) { assert RightPart(net.part(k, providers[i], id, offset, length), data, offset, length); }
        return;
      }
    }
    part := None;
  }

  /** A small chunk in one piece. */
  method FetchWhole(net: Network, providers: seq<Peer>, id: ContentHash, asked: nat, ghost data: Bytes)
      returns (chunk: Option<Bytes>, asked': nat)
    ensures asked <= asked' <= asked + MAX_PROVIDER_TRIES_PER_CHUNK
    ensures Served(net, providers, id, data) ==> chunk == Some(data)
    ensures AllHarmless(net, providers, id, data) && chunk.Some? ==> chunk.value == data
  {
    asked' := asked;
    var tries := Take(providers, MAX_PROVIDER_TRIES_PER_CHUNK);
    for i := 0 to |tries|
      invariant asked' == asked + i
      invariant forall j :: 0 <= j < i ==> !Holds(net, providers[j], id, data)
    {
      chunk := net.chunk(asked', tries[i], id);
      asked' := asked' + 1;
      if chunk.Some? {
        return;
      }
    }
    chunk := None;
  }

  method CopyInto(out: array<byte>, offset: nat, part: Bytes)
    requires offset + |part| <= out.Length
    modifies out
    ensures out[..offset + |part|] == old(out[..offset]) + part
  {
    for j := 0 to |part|
      invariant out[..offset + j] == old(out[..offset]) + part[..j]
    {
      out[offset + j] := part[j];
    }
  }

  lemma OnePartLess(rest: nat, size: nat, want: nat)
    requires 0 < rest && 0 < size && want == if rest < size then rest else size
    ensures DivCeil(rest, size) == 1 + DivCeil(rest - want, size)
  {
    if rest > size {
      DivCeilStep(rest, size);
    } else {
      DivCeilOne(rest, size);
      DivCeilUnique(0, size, 0);
    }
  }

  /** How many requests a chunk takes: one if it is small, otherwise one for each part. */
  function PartsOf(size: nat): (n: nat)
    ensures n > 0 && (size > 0 ==> n == DivCeil(size, SUBCHUNK_SIZE_BYTES))
  {
    if size <= SUBCHUNK_SIZE_BYTES then
      (if size > 0 then DivCeilOne(size, SUBCHUNK_SIZE_BYTES); 1 else 1)
    else DivCeil(size, SUBCHUNK_SIZE_BYTES)
  }

  /**
    `fetch_chunk_data_from_providers`: a chunk takes exactly its number of parts successful
    requests, an abandoned attempt fewer, and it comes out as its holder has it.
   */
  method FetchChunkData(net: Network, providers: seq<Peer>, id: ContentHash, size: nat, asked: nat, ghost data: Bytes)
      returns (chunk: Option<Bytes>, asked': nat, answered: nat)
    ensures asked <= asked'
    ensures chunk.Some? && size > SUBCHUNK_SIZE_BYTES ==> |chunk.value| == size
    ensures if chunk.Some? then answered == PartsOf(size) else answered < PartsOf(size)
    ensures Served(net, providers, id, data) && |data| == size ==> chunk == Some(data)
    ensures AllHarmless(net, providers, id, data) && |data| == size && chunk.Some? ==> chunk.value == data
  {
    answered := 0;
    if size <= SUBCHUNK_SIZE_BYTES {
      chunk, asked' := FetchWhole(net, providers, id, asked, data);
      answered := if chunk.Some? then 1 else 0;
      return;
    }
    asked' := asked;
    var out := new byte[size];
    var offset := 0;
    while offset < size
      invariant 0 <= offset <= size && asked <= asked'
      invariant answered + DivCeil(size - offset, SUBCHUNK_SIZE_BYTES) == DivCeil(size, SUBCHUNK_SIZE_BYTES)
      invariant AllHarmless(net, providers, id, data) && |data| == size ==> out[..offset] == data[..offset]
    {
      var want := if size - offset < SUBCHUNK_SIZE_BYTES then size - offset else SUBCHUNK_SIZE_BYTES;
      var part;
      part, asked' := FetchPart(net, providers, id, offset, want, asked', data);
      OnePartLess(size - offset, SUBCHUNK_SIZE_BYTES, want);
      if part.None? {
        return None, asked', answered;
      }
      CopyInto(out, offset, part.value);
      assert |data| == size ==> data[..offset] + data[offset..offset + want] == data[..offset + want];
      answered := answered + 1;
      offset := offset + want;
    }
    assert out[..] == out[..size] && (|data| == size ==> data[..size] == data);
    chunk := Some(out[..]);
  }

  /** Everything the store has, it keeps; what is new hashes to its id. */
  ghost predicate Grown(before: Chunks, after: Chunks, id: ContentHash) {
    after == before || (id !in before && after == before[id := id.preimage])
  }

  /** The chunk is served at an attempt, and at all before somebody is asked but nobody sends wrong bytes. */
  ghost predicate ServedAt(net: Network, providersAt: nat -> seq<Peer>, c: ChunkDescriptor, k: nat) {
    && c.size == |c.chunkId.preimage| && Served(net, providersAt(k), c.chunkId, c.chunkId.preimage)
    && forall j: nat :: j < k ==> providersAt(j) != [] && AllHarmless(net, providersAt(j), c.chunkId, c.chunkId.preimage)
  }

  lemma OneAttemptMore(answered: nat, n: nat, attempt: nat, parts: nat)
    requires answered <= attempt * parts && n <= parts && attempt < MAX_CHUNK_FETCH_ATTEMPTS
    ensures answered + n <= (attempt + 1) * parts <= MAX_CHUNK_FETCH_ATTEMPTS * parts
  {
    TimesMonotone(attempt + 1, MAX_CHUNK_FETCH_ATTEMPTS, parts);
  }

  /**
    `fetch_single_chunk`: whatever the network answers, only a chunk that hashes to its id is
    stored.  `providersAt` are the providers found at each attempt, and `answered` counts the
    successful requests of all attempts.
   */
  method FetchSingleChunk(store: UnifiedStore, net: Network, providersAt: nat -> seq<Peer>, c: ChunkDescriptor, asked: nat)
      returns (ok: bool, asked': nat, answered: nat)
    requires store.Valid()
    modifies store`chunks
    ensures store.Valid() && asked <= asked' && Grown(old(store.chunks), store.chunks, c.chunkId)
    ensures ok ==> c.chunkId in store.chunks
    ensures old(c.chunkId in store.chunks) ==> ok && answered == 0
    ensures answered <= MAX_CHUNK_FETCH_ATTEMPTS * PartsOf(c.size)
    ensures ok && !old(c.chunkId in store.chunks) ==> answered >= PartsOf(c.size)
    ensures Served(net, providersAt(0), c.chunkId, c.chunkId.preimage) && c.size == |c.chunkId.preimage| ==>
              ok && (!old(c.chunkId in store.chunks) ==> answered == PartsOf(c.size))
    ensures forall k: nat :: k < MAX_CHUNK_FETCH_ATTEMPTS && ServedAt(net, providersAt, c, k) ==> ok
  {
    asked', answered := asked, 0;
    if c.chunkId in store.chunks {
      return true, asked', 0;
    }
    for attempt := 0 to MAX_CHUNK_FETCH_ATTEMPTS
      invariant asked <= asked' && store.chunks == old(store.chunks) && answered <= attempt * PartsOf(c.size)
      invariant attempt > 0 ==> !(Served(net, providersAt(0), c.chunkId, c.chunkId.preimage) && c.size == |c.chunkId.preimage|)
      invariant forall k: nat :: k < attempt ==> !ServedAt(net, providersAt, c, k)
    {
      var providers := providersAt(attempt);
      if providers == [] {
        return false, asked', answered;
      }
      var data, n;
      data, asked', n := FetchChunkData(net, providers, c.chunkId, c.size, asked', c.chunkId.preimage);
      OneAttemptMore(answered, n, attempt, PartsOf(c.size));
      answered := answered + n;
      if data.Some? {
        ok := store.StoreChunk(c.chunkId, data.value);
        return;
      }
    }
    ok := false;
  }
}
