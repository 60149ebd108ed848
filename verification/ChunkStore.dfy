/**
  The content-addressed object store (src/storage/unified_store.rs, src/types.rs).

  Object, chunk and manifest ids are hashes; they are modelled by what they hash.  The database
  trees are maps, and encodings are not modelled.
 */
module ChunkStore {
  import opened Wrappers
  import opened Crypto
  import opened Chunking

  /** A hash of the content hash and of the object's type. */
  datatype ObjectId = ObjectId(content: ContentHash, kind: Bytes)

  datatype ChunkDescriptor = ChunkDescriptor(chunkId: ContentHash, size: nat, offset: nat)

  datatype Manifest = Manifest(objectId: ObjectId, contentHash: ContentHash, chunks: seq<ChunkDescriptor>, version: nat)

  /** A hash of the whole manifest. */
  datatype ManifestId = ManifestId(manifest: Manifest)

  datatype Object = Object(id: ObjectId, totalSize: nat, chunkCount: nat, manifestId: ManifestId)

  // ------------------------------------------------------------------------------------------
  // Manifests
  // ------------------------------------------------------------------------------------------

  function TotalSize(chunks: seq<ChunkDescriptor>): (n: nat) {
    if chunks == [] then 0 else TotalSize(chunks[..|chunks| - 1]) + chunks[|chunks| - 1].size
  }

  ghost predicate Contiguous(chunks: seq<ChunkDescriptor>) {
    forall i :: 0 <= i < |chunks| ==> chunks[i].offset == TotalSize(chunks[..i])
  }

  /** `Manifest::validate`. */
  method Validate(m: Manifest) returns (ok: bool)
    ensures ok <==> Contiguous(m.chunks)
  {
    var expected := 0;
    for i := 0 to |m.chunks|
      invariant expected == TotalSize(m.chunks[..i])
      invariant forall j :: 0 <= j < i ==> m.chunks[j].offset == TotalSize(m.chunks[..j])
    {
      if m.chunks[i].offset != expected {
        return false;
      }
      assert m.chunks[..i + 1][..i] == m.chunks[..i];
      expected := expected + m.chunks[i].size;
    }
    ok := true;
  }

  function Descriptors(pieces: seq<Bytes>): (r: seq<ChunkDescriptor>)
    ensures |r| == |pieces|
  {
    seq(|pieces|, i requires 0 <= i < |pieces| =>
      ChunkDescriptor(Blake3(pieces[i]), |pieces[i]|, |Concat(pieces[..i])|))
  }

  lemma {:induction false} DescribedSize(pieces: seq<Bytes>, n: nat)
    requires n <= |pieces|
    ensures TotalSize(Descriptors(pieces)[..n]) == |Concat(pieces[..n])|
  {
    if n > 0 {
      DescribedSize(pieces, n - 1);
      assert Descriptors(pieces)[..n][..n - 1] == Descriptors(pieces)[..n - 1];
      assert pieces[..n][..n - 1] == pieces[..n - 1];
    }
  }

  /** The manifest of any data validates, and its sizes add up to the data's. */
  lemma DescriptorsAreContiguous(pieces: seq<Bytes>)
    ensures Contiguous(Descriptors(pieces)) && TotalSize(Descriptors(pieces)) == |Concat(pieces)|
  {
    forall i | 0 <= i < |pieces|
      ensures Descriptors(pieces)[i].offset == TotalSize(Descriptors(pieces)[..i])
    {
      DescribedSize(pieces, i);
    }
    DescribedSize(pieces, |pieces|);
    assert pieces[..|pieces|] == pieces && Descriptors(pieces)[..|pieces|] == Descriptors(pieces);
  }

  function ManifestFor(id: ObjectId, data: Bytes): (m: Manifest) {
    Manifest(id, Blake3(data), Descriptors(ChunksOf(data)), 1)
  }

  method Describe(pieces: seq<Bytes>) returns (descriptors: seq<ChunkDescriptor>)
    ensures descriptors == Descriptors(pieces)
  {
    descriptors := [];
    var offset := 0;
    for i := 0 to |pieces|
      invariant offset == |Concat(pieces[..i])|
      invariant descriptors == Descriptors(pieces)[..i]
    {
      descriptors := descriptors + [ChunkDescriptor(Blake3(pieces[i]), |pieces[i]|, offset)];
      assert pieces[..i + 1][..i] == pieces[..i];
      offset := offset + |pieces[i]|;
    }
  }

  // ------------------------------------------------------------------------------------------
  // Reassembly
  // ------------------------------------------------------------------------------------------

  type Chunks = map<ContentHash, Bytes>

  ghost predicate ChunksSound(chunks: Chunks) {
    forall c :: c in chunks ==> c == Blake3(chunks[c])
  }

  ghost predicate Has(chunks: Chunks, pieces: seq<Bytes>) {
    forall i :: 0 <= i < |pieces| ==> Blake3(pieces[i]) in chunks
  }

  /** What the chunks of a manifest's descriptors make, if all are there and of the right size. */
  ghost function Assembled(chunks: Chunks, descriptors: seq<ChunkDescriptor>): (r: Option<Bytes>) {
    if descriptors == [] then Some([])
    else
      var last := descriptors[|descriptors| - 1];
      var before := Assembled(chunks, descriptors[..|descriptors| - 1]);
      if before.Some? && last.chunkId in chunks && |chunks[last.chunkId]| == last.size
      then Some(before.value + chunks[last.chunkId])
      else None
  }

  lemma {:induction false} AssembledPrefix(chunks: Chunks, descriptors: seq<ChunkDescriptor>, n: nat)
    requires n <= |descriptors| && Assembled(chunks, descriptors).Some?
    ensures Assembled(chunks, descriptors[..n]).Some?
  {
    if n < |descriptors| {
      var front := descriptors[..|descriptors| - 1];
      AssembledPrefix(chunks, front, n);
      assert front[..n] == descriptors[..n];
    } else {
      assert descriptors[..n] == descriptors;
    }
  }

  lemma {:induction false} AssembledPieces(chunks: Chunks, pieces: seq<Bytes>, n: nat)
    requires ChunksSound(chunks) && Has(chunks, pieces) && n <= |pieces|
    ensures Assembled(chunks, Descriptors(pieces)[..n]) == Some(Concat(pieces[..n]))
  {
    if n > 0 {
      AssembledPieces(chunks, pieces, n - 1);
      assert Descriptors(pieces)[..n][..n - 1] == Descriptors(pieces)[..n - 1];
      assert pieces[..n][..n - 1] == pieces[..n - 1];
      assert Blake3(pieces[n - 1]) in chunks;
    }
  }

  /** What a manifest reads back as: it must validate, and its content must hash as it says. */
  ghost function Readable(chunks: Chunks, m: Manifest): (r: Option<Bytes>) {
    var data := Assembled(chunks, m.chunks);
    if Contiguous(m.chunks) && data.Some? && Blake3(data.value) == m.contentHash then data else None
  }

  /** Data whose chunks are all there reads back from its manifest. */
  lemma ManifestReadsBack(chunks: Chunks, id: ObjectId, data: Bytes)
    requires ChunksSound(chunks) && Has(chunks, ChunksOf(data))
    ensures Readable(chunks, ManifestFor(id, data)) == Some(data)
  {
    var pieces := ChunksOf(data);
    DescriptorsAreContiguous(pieces);
    AssembledPieces(chunks, pieces, |pieces|);
    assert pieces[..|pieces|] == pieces && Descriptors(pieces)[..|pieces|] == Descriptors(pieces);
    TwoLevelChunking(data);
  }

  // ------------------------------------------------------------------------------------------
  // The index of manifests
  // ------------------------------------------------------------------------------------------

  type Manifests = map<ObjectId, Manifest>
  type Index = map<ManifestId, ObjectId>

  ghost predicate Keyed(manifests: Manifests) {
    forall id :: id in manifests ==> manifests[id].objectId == id
  }

  /** What a scan of all manifests for an id finds. */
  ghost function Scan(manifests: Manifests, id: ManifestId): (r: Option<Manifest>) {
    if id.manifest in manifests.Values then Some(id.manifest) else None
  }

  /** What the indexed lookup answers. */
  ghost function Lookup(manifests: Manifests, index: Index, id: ManifestId): (r: Option<Manifest>) {
    if id in index && index[id] in manifests then Some(manifests[index[id]]) else Scan(manifests, id)
  }

  ghost predicate IndexedRight(manifests: Manifests, index: Index, id: ManifestId) {
    id in index && index[id] in manifests ==> ManifestId(manifests[index[id]]) == id
  }

  ghost predicate IndexSound(manifests: Manifests, index: Index) {
    forall id :: id in index ==> IndexedRight(manifests, index, id)
  }

  /** The lookup agrees with the scan it replaces exactly where the index is right. */
  lemma LookupIsScan(manifests: Manifests, index: Index, id: ManifestId)
    ensures Lookup(manifests, index, id) == Scan(manifests, id) <==> IndexedRight(manifests, index, id)
  {
  }

  /** No other manifest is indexed under the object of this one. */
  ghost predicate NotReplacing(index: Index, m: Manifest) {
    forall id :: id in index && index[id] == m.objectId ==> id == ManifestId(m)
  }

  /** Storing a manifest keeps the index sound exactly when it does not replace an indexed one. */
  lemma StoringKeepsIndex(manifests: Manifests, index: Index, m: Manifest)
    requires IndexSound(manifests, index)
    ensures IndexSound(manifests[m.objectId := m], index[ManifestId(m) := m.objectId]) <==> NotReplacing(index, m)
  {
    var manifests', index' := manifests[m.objectId := m], index[ManifestId(m) := m.objectId];
    if NotReplacing(index, m) {
      forall id | id in index'
        ensures IndexedRight(manifests', index', id)
      {
        assert id in index ==> IndexedRight(manifests, index, id);
      }
    } else {
      var id :| id in index && index[id] == m.objectId && id != ManifestId(m);
      assert id in index' && !IndexedRight(manifests', index', id);
    }
  }

  /** Two manifests stored for one object: the index then answers with the second where a scan finds nothing. */
  lemma ReplacedManifestMisleads(first: Manifest, second: Manifest)
    requires first.objectId == second.objectId && first != second
    ensures var id := first.objectId;
            var manifests, index := map[id := first][id := second], map[ManifestId(first) := id][ManifestId(second) := id];
            Lookup(manifests, index, ManifestId(first)) == Some(second) && Scan(manifests, ManifestId(first)) == None
  {
  }

  // ------------------------------------------------------------------------------------------
  // The store
  // ------------------------------------------------------------------------------------------

  /** What puts leave behind: every manifest, and every manifest the index knows, is that of its object's content. */
  ghost predicate FromPuts(manifests: Manifests, index: Index) {
    && (forall o :: o in manifests ==> manifests[o] == ManifestFor(o, o.content.preimage) && ManifestId(manifests[o]) in index)
    && (forall id :: id in index ==> index[id] in manifests && id == ManifestId(ManifestFor(index[id], index[id].content.preimage)))
  }

  lemma PutKeepsHistory(manifests: Manifests, index: Index, o: ObjectId)
    requires FromPuts(manifests, index)
    ensures var m := ManifestFor(o, o.content.preimage); FromPuts(manifests[o := m], index[ManifestId(m) := o])
  {
  }

  /** As long as manifests come from puts alone, the indexed lookup is the scan, and finds what it finds by the index. */
  lemma LookupAfterPuts(manifests: Manifests, index: Index, id: ManifestId)
    requires FromPuts(manifests, index)
    ensures Lookup(manifests, index, id) == Scan(manifests, id)
    ensures Scan(manifests, id).Some? <==> id in index
  {
    LookupIsScan(manifests, index, id);
    if id in index { assert manifests[index[id]] in manifests.Values; }
  }

  /** An object put earlier: its manifest and all its chunks are there. */
  ghost predicate Stored(manifests: Manifests, chunks: Chunks, id: ObjectId, data: Bytes) {
    && id.content == Blake3(data)
    && id in manifests && manifests[id] == ManifestFor(id, data)
    && Has(chunks, ChunksOf(data))
  }

  ghost predicate Keeps(chunks: Chunks, chunks': Chunks) {
    forall c :: c in chunks ==> c in chunks'
  }

  /** Nothing stored earlier is lost by another put: an id determines its content. */
  lemma PutKeepsStored(manifests: Manifests, chunks: Chunks, chunks': Chunks, id: ObjectId, data: Bytes, id': ObjectId, data': Bytes)
    requires Stored(manifests, chunks, id', data') && Keeps(chunks, chunks') && id.content == Blake3(data)
    ensures Stored(manifests[id := ManifestFor(id, data)], chunks', id', data')
  {
  }

  class UnifiedStore {
    var objects: map<ObjectId, Object>
    var manifests: Manifests
    var chunks: Chunks
    var index: Index

    ghost predicate Valid()
      reads this
    {
      ChunksSound(chunks) && Keyed(manifests)
    }

    constructor ()
      ensures Valid() && FromPuts(manifests, index)
      ensures manifests == map[] && chunks == map[] && index == map[] && objects == map[]
    {
      objects, manifests, chunks, index := map[], map[], map[], map[];
    }

    /** `store_chunk`: refused unless the data hashes to the id. */
    method StoreChunk(id: ContentHash, data: Bytes) returns (ok: bool)
      requires Valid()
      modifies this`chunks
      ensures Valid() && (ok <==> id == Blake3(data))
      ensures chunks == if ok then old(chunks)[id := data] else old(chunks)
    {
      ok := id == Blake3(data);
      if ok {
        chunks := chunks[id := data];
      }
    }

    method StoreManifest(m: Manifest)
      requires Valid()
      modifies this`manifests, this`index
      ensures Valid()
      ensures manifests == old(manifests)[m.objectId := m] && index == old(index)[ManifestId(m) := m.objectId]
      ensures old(IndexSound(manifests, index)) ==> (IndexSound(manifests, index) <==> old(NotReplacing(index, m)))
    {
      ghost var manifests0, index0 := manifests, index;
      manifests := manifests[m.objectId := m];
      index := index[ManifestId(m) := m.objectId];
      if IndexSound(manifests0, index0) { StoringKeepsIndex(manifests0, index0, m); }
    }

    /** `get_manifest`: by the index, or by a scan that repairs the index. */
    method GetManifest(id: ManifestId) returns (m: Option<Manifest>)
      requires Valid()
      modifies this`index
      ensures m == Lookup(manifests, old(index), id)
      ensures m == Scan(manifests, id) <==> IndexedRight(manifests, old(index), id)
      ensures old(IndexSound(manifests, index)) ==> IndexSound(manifests, index)
      ensures old(FromPuts(manifests, index)) ==> index == old(index) && m == Scan(manifests, id)
    {
      ghost var index0 := index;
      if FromPuts(manifests, index) { LookupAfterPuts(manifests, index, id); }
      LookupIsScan(manifests, index, id);
      if id in index && index[id] in manifests {
        return Some(manifests[index[id]]);
      }
      var todo := manifests.Keys;
      while todo != {}
        invariant todo <= manifests.Keys && index == index0
        invariant forall o :: o in manifests && manifests[o] == id.manifest ==> o in todo
        decreases |todo|
      {
        var o :| o in todo;
        todo := todo - {o};
        if ManifestId(manifests[o]) == id {
          assert manifests[o] in manifests.Values;
          index := index[id := manifests[o].objectId];
          assert forall i :: i in index && i != id ==> IndexedRight(manifests, index0, i) == IndexedRight(manifests, index, i);
          return Some(manifests[o]);
        }
      }
      m := None;
    }

    /** The chunks of a new object, one by one. */
    method StorePieces(pieces: seq<Bytes>)
      requires Valid()
      modifies this`chunks
      ensures Valid() && Keeps(old(chunks), chunks) && Has(chunks, pieces)
    {
      for i := 0 to |pieces|
        invariant Valid() && Keeps(old(chunks), chunks)
        invariant forall j :: 0 <= j < i ==> Blake3(pieces[j]) in chunks
      {
        var ok := StoreChunk(Blake3(pieces[i]), pieces[i]);
      }
    }

    method PutObject(data: Bytes, kind: Bytes) returns (stored: Option<Object>)
      requires Valid()
      modifies this
      ensures Valid() && (stored.None? <==> data == [])
      ensures stored.None? ==> unchanged(this)
      ensures stored.Some? ==> var o := stored.value;
                               && o == Object(ObjectId(Blake3(data), kind), |data|, TopLevelChunkCount(|data|), ManifestId(ManifestFor(o.id, data)))
                               && objects == old(objects)[o.id := o]
                               && manifests == old(manifests)[o.id := ManifestFor(o.id, data)]
                               && index == old(index)[o.manifestId := o.id]
                               && Stored(manifests, chunks, o.id, data)
      ensures Keeps(old(chunks), chunks)
      ensures forall id, d :: old(Stored(manifests, chunks, id, d)) ==> Stored(manifests, chunks, id, d)
      ensures old(FromPuts(manifests, index)) ==> FromPuts(manifests, index)
    {
      if data == [] {
        return None;
      }
      var pieces := ChunkData(data);
      var id := ObjectId(Blake3(data), kind);
      var descriptors := Describe(pieces);
      var m := Manifest(id, Blake3(data), descriptors, 1);
      TwoLevelChunking(data);
      DescriptorsAreContiguous(pieces);
      var valid := Validate(m);
      assert valid;
      if FromPuts(manifests, index) { PutKeepsHistory(manifests, index, id); }
      var o := Object(id, |data|, |pieces|, ManifestId(m));
      objects := objects[id := o];
      StoreManifest(m);
      StorePieces(pieces);
      stored := Some(o);
      forall i, d | old(Stored(manifests, chunks, i, d))
        ensures Stored(manifests, chunks, i, d)
      {
        PutKeepsStored(old(manifests), old(chunks), chunks, id, data, i, d);
      }
    }

    /** `get_object`: whatever is in the store, what it returns hashes as the manifest says. */
    method GetObject(id: ObjectId) returns (data: Option<Bytes>)
      requires Valid()
      ensures data == if id in manifests then Readable(chunks, manifests[id]) else None
      ensures forall d :: Stored(manifests, chunks, id, d) ==> data == Some(d)
    {
      if id !in manifests {
        return None;
      }
      var m := manifests[id];
      forall d | Stored(manifests, chunks, id, d)
        ensures Readable(chunks, m) == Some(d)
      {
        ManifestReadsBack(chunks, id, d);
      }
      var valid := Validate(m);
      if !valid {
        return None;
      }
      var bytes := [];
      for i := 0 to |m.chunks|
        invariant Assembled(chunks, m.chunks[..i]) == Some(bytes)
      {
        var c := m.chunks[i];
        assert m.chunks[..i + 1][..i] == m.chunks[..i];
        if c.chunkId !in chunks || Blake3(chunks[c.chunkId]) != c.chunkId || |chunks[c.chunkId]| != c.size {
          if Assembled(chunks, m.chunks).Some? { AssembledPrefix(chunks, m.chunks, i + 1); }
          return None;
        }
        bytes := bytes + chunks[c.chunkId];
      }
      assert m.chunks[..|m.chunks|] == m.chunks;
      data := if Blake3(bytes) == m.contentHash then Some(bytes) else None;
    }

    /** Any sequence of puts, then any read: everything stored so far comes back, and every lookup is a scan. */
    method PutAll(items: seq<(Bytes, Bytes)>)
      requires Valid()
      modifies this
      ensures Valid()
      ensures forall i :: 0 <= i < |items| && items[i].0 != [] ==>
                Stored(manifests, chunks, ObjectId(Blake3(items[i].0), items[i].1), items[i].0)
      ensures forall id, d :: old(Stored(manifests, chunks, id, d)) ==> Stored(manifests, chunks, id, d)
      ensures old(FromPuts(manifests, index)) ==>
                FromPuts(manifests, index) && forall id :: Lookup(manifests, index, id) == Scan(manifests, id)
    {
      for n := 0 to |items|
        invariant Valid()
        invariant forall i :: 0 <= i < n && items[i].0 != [] ==>
                    Stored(manifests, chunks, ObjectId(Blake3(items[i].0), items[i].1), items[i].0)
        invariant forall id, d :: old(Stored(manifests, chunks, id, d)) ==> Stored(manifests, chunks, id, d)
        invariant old(FromPuts(manifests, index)) ==> FromPuts(manifests, index)
      {
        var stored := PutObject(items[n].0, items[n].1);
      }
      if old(FromPuts(manifests, index)) {
        forall id { LookupAfterPuts(manifests, index, id); }
      }
    }
  }
}
