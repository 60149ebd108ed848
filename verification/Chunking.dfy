/**
  Cutting objects into chunks and chunks into transport parts (src/storage/unified_store.rs,
  src/types.rs).
 */
module Chunking {
  import opened Crypto

  const CHUNK_SIZE_SMALL: nat := 250 * 1024
  const CHUNK_SIZE_LARGE: nat := 2 * 1024 * 1024
  const LARGE_OBJECT_THRESHOLD_BYTES: nat := 2 * 1024 * 1024

  /** Rounding up; a zero divisor gives zero. */
  function DivCeil(n: nat, d: nat): (q: nat)
    ensures d > 0 ==> n <= q * d < n + d
  {
    if d == 0 then 0 else n / d + if n % d != 0 then 1 else 0
  }

  lemma TimesMonotone(a: nat, b: nat, d: nat)
    ensures a <= b ==> a * d <= b * d
  {
  }

  lemma DivCeilUnique(n: nat, d: nat, q: nat)
    requires d > 0 && n <= q * d < n + d
    ensures q == DivCeil(n, d)
  {
    var r := DivCeil(n, d);
    TimesMonotone(q + 1, r, d);
    TimesMonotone(r + 1, q, d);
    assert (q + 1) * d == q * d + d && (r + 1) * d == r * d + d;
  }

  lemma DivModUnique(n: nat, d: nat, q: nat, r: nat)
    requires n == q * d + r && r < d
    ensures n / d == q && n % d == r
  {
    var q', r' := n / d, n % d;
    assert n == q' * d + r';
    TimesMonotone(q + 1, q', d);
    TimesMonotone(q' + 1, q, d);
    assert (q + 1) * d == q * d + d && (q' + 1) * d == q' * d + d;
  }

  /** One more whole piece is one more. */
  lemma DivCeilStep(n: nat, d: nat)
    requires 0 < d < n
    ensures DivCeil(n, d) == 1 + DivCeil(n - d, d)
  {
    var q := DivCeil(n - d, d);
    assert (1 + q) * d == d + q * d;
    DivCeilUnique(n, d, 1 + q);
  }

  lemma DivCeilOne(n: nat, d: nat)
    requires 0 < n <= d
    ensures DivCeil(n, d) == 1
  {
  }

  function TopLevelSize(totalSize: nat): (size: nat) {
    if totalSize > LARGE_OBJECT_THRESHOLD_BYTES then CHUNK_SIZE_LARGE else CHUNK_SIZE_SMALL
  }

  function TopLevelChunkCount(totalSize: nat): (n: nat) {
    if totalSize == 0 then 0 else DivCeil(totalSize, TopLevelSize(totalSize))
  }

  function SubchunkCount(totalSize: nat): (n: nat) {
    if totalSize == 0 then 0
    else if totalSize > LARGE_OBJECT_THRESHOLD_BYTES then
      var full, remainder := totalSize / CHUNK_SIZE_LARGE, totalSize % CHUNK_SIZE_LARGE;
      full * DivCeil(CHUNK_SIZE_LARGE, CHUNK_SIZE_SMALL) + if remainder != 0 then DivCeil(remainder, CHUNK_SIZE_SMALL) else 0
    else DivCeil(totalSize, CHUNK_SIZE_SMALL)
  }

  /** Pieces of one size, the last one possibly shorter. */
  function Pieces(data: Bytes, size: nat): (r: seq<Bytes>)
    requires size > 0
    decreases |data|
  {
    if data == [] then []
    else if |data| <= size then [data]
    else [data[..size]] + Pieces(data[size..], size)
  }

  function Concat(pieces: seq<Bytes>): (r: Bytes) {
    if pieces == [] then [] else Concat(pieces[..|pieces| - 1]) + pieces[|pieces| - 1]
  }

  function ChunksOf(data: Bytes): (r: seq<Bytes>) {
    Pieces(data, TopLevelSize(|data|))
  }

  /** `chunk_data`. */
  method ChunkData(data: Bytes) returns (chunks: seq<Bytes>)
    ensures chunks == ChunksOf(data)
  {
    chunks := [];
    var size := TopLevelSize(|data|);
    var offset := 0;
    while offset < |data|
      invariant 0 <= offset <= |data|
      invariant chunks + Pieces(data[offset..], size) == ChunksOf(data)
    {
      var end := if offset + size < |data| then offset + size else |data|;
      ghost var rest := data[offset..];
      assert data[offset..end] == if |rest| <= size then rest else rest[..size];
      assert data[end..] == if |rest| <= size then [] else rest[size..];
      chunks := chunks + [data[offset..end]];
      offset := end;
    }
    assert Pieces(data[offset..], size) == [];
  }

  lemma {:induction false} ConcatCons(first: Bytes, rest: seq<Bytes>)
    ensures Concat([first] + rest) == first + Concat(rest)
  {
    var all := [first] + rest;
    if rest == [] {
      assert all[..0] == [];
    } else {
      var n := |rest| - 1;
      assert all[..|all| - 1] == [first] + rest[..n];
      ConcatCons(first, rest[..n]);
    }
  }

  /** The pieces put together again are the data. */
  lemma {:induction false} PiecesConcat(data: Bytes, size: nat)
    requires size > 0
    ensures Concat(Pieces(data, size)) == data
    decreases |data|
  {
    if 0 < |data| <= size {
      assert [data][..0] == [];
    } else if |data| > size {
      PiecesConcat(data[size..], size);
      ConcatCons(data[..size], Pieces(data[size..], size));
      assert data[..size] + data[size..] == data;
    }
  }

  lemma {:induction false} PiecesCount(data: Bytes, size: nat)
    requires size > 0
    ensures |Pieces(data, size)| == DivCeil(|data|, size)
    decreases |data|
  {
    if data == [] {
      DivCeilUnique(0, size, 0);
    } else if |data| <= size {
      DivCeilOne(|data|, size);
    } else {
      PiecesCount(data[size..], size);
      DivCeilStep(|data|, size);
    }
  }

  /** No piece is empty or too long, and all but the last are full. */
  lemma {:induction false} PiecesSizes(data: Bytes, size: nat, i: nat)
    requires size > 0 && i < |Pieces(data, size)|
    ensures 0 < |Pieces(data, size)[i]| <= size
    ensures i + 1 < |Pieces(data, size)| ==> |Pieces(data, size)[i]| == size
    decreases |data|
  {
    if |data| > size && i > 0 {
      PiecesSizes(data[size..], size, i - 1);
    }
  }

  /** How many part requests a list of chunks takes. */
  function PartCount(chunks: seq<Bytes>): (n: nat) {
    if chunks == [] then 0 else PartCount(chunks[..|chunks| - 1]) + DivCeil(|chunks[|chunks| - 1]|, CHUNK_SIZE_SMALL)
  }

  lemma {:induction false} PartCountCons(first: Bytes, rest: seq<Bytes>)
    ensures PartCount([first] + rest) == DivCeil(|first|, CHUNK_SIZE_SMALL) + PartCount(rest)
  {
    var all := [first] + rest;
    if rest == [] {
      assert all[..0] == [];
    } else {
      var n := |rest| - 1;
      assert all[..|all| - 1] == [first] + rest[..n];
      PartCountCons(first, rest[..n]);
    }
  }

  /** What full pieces and a remainder take, a full piece taking `k` parts. */
  function PartsFor(n: nat, size: nat, k: nat): (parts: nat)
    requires size > 0
  {
    (n / size) * k + if n % size != 0 then DivCeil(n % size, CHUNK_SIZE_SMALL) else 0
  }

  lemma OneFewer(n: nat, size: nat, k: nat)
    requires 0 < size <= n
    ensures PartsFor(n, size, k) == k + PartsFor(n - size, size, k)
  {
    var q, r := (n - size) / size, (n - size) % size;
    assert (q + 1) * size == q * size + size;
    DivModUnique(n, size, q + 1, r);
    assert (q + 1) * k == q * k + k;
  }

  lemma NoFull(n: nat, size: nat, k: nat)
    requires n < size
    ensures PartsFor(n, size, k) == if n != 0 then DivCeil(n, CHUNK_SIZE_SMALL) else 0
  {
    DivModUnique(n, size, 0, n);
  }

  /** The same, piece by piece. */
  function PartsInTurn(n: nat, size: nat, k: nat): (parts: nat)
    requires size > 0
  {
    if n == 0 then 0 else if n < size then DivCeil(n, CHUNK_SIZE_SMALL) else k + PartsInTurn(n - size, size, k)
  }

  lemma {:induction false} PartsInTurnClosed(n: nat, size: nat, k: nat)
    requires size > 0
    ensures PartsInTurn(n, size, k) == PartsFor(n, size, k)
  {
    if n < size {
      NoFull(n, size, k);
    } else {
      PartsInTurnClosed(n - size, size, k);
      OneFewer(n, size, k);
    }
  }

  lemma {:induction false} PartsOfPieces(data: Bytes, size: nat, k: nat)
    requires size > 0 && k == DivCeil(size, CHUNK_SIZE_SMALL)
    ensures PartCount(Pieces(data, size)) == PartsInTurn(|data|, size, k)
    decreases |data|
  {
    if |data| > size {
      PartsOfPieces(data[size..], size, k);
      PartCountCons(data[..size], Pieces(data[size..], size));
    } else if data != [] {
      assert [data][..0] == [];
      assert |data| == size ==> PartsInTurn(0, size, k) == 0;
    }
  }

  /** Pieces no longer than a part take one request each. */
  lemma {:induction false} SmallPieces(data: Bytes, size: nat)
    requires 0 < size <= CHUNK_SIZE_SMALL
    ensures PartCount(Pieces(data, size)) == |Pieces(data, size)|
    decreases |data|
  {
    if 0 < |data| <= size {
      assert [data][..0] == [];
      DivCeilOne(|data|, CHUNK_SIZE_SMALL);
    } else if |data| > size {
      SmallPieces(data[size..], size);
      PartCountCons(data[..size], Pieces(data[size..], size));
      DivCeilOne(size, CHUNK_SIZE_SMALL);
    }
  }

  /**
    Two-level chunking, for data of every size: the chunks concatenate to the data, there are as
    many as computed, and fetching them takes as many parts as computed.
   */
  lemma TwoLevelChunking(data: Bytes)
    ensures Concat(ChunksOf(data)) == data
    ensures |ChunksOf(data)| == TopLevelChunkCount(|data|)
    ensures PartCount(ChunksOf(data)) == SubchunkCount(|data|)
  {
    var size := TopLevelSize(|data|);
    PiecesConcat(data, size);
    PiecesCount(data, size);
    if |data| > LARGE_OBJECT_THRESHOLD_BYTES {
      PartsOfPieces(data, size, DivCeil(size, CHUNK_SIZE_SMALL));
      PartsInTurnClosed(|data|, size, DivCeil(size, CHUNK_SIZE_SMALL));
    } else {
      SmallPieces(data, size);
    }
  }
}
