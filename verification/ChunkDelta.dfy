/**
 Chunk manifests and the delta download: patching only the chunks whose hashes differ and
 cutting the file to size gives the remote content.
 */
module ChunkDelta {
  import opened ByteStrings
  import opened Digests

  const DEFAULT_CHUNK_SIZE: nat := 256 * 1024

  function EffectiveChunkSize(chunkSize: int): (size: nat)
    ensures size > 0 && (chunkSize > 0 ==> size == chunkSize)
  {
    if chunkSize <= 0 then DEFAULT_CHUNK_SIZE else chunkSize
  }

  // ------------------------------------------------------------------
  // Chunks and manifests
  // ------------------------------------------------------------------

  function Offset(i: nat, size: nat): nat {
    i * size
  }

  lemma OffsetOfNext(i: nat, size: nat)
    ensures Offset(i + 1, size) == Offset(i, size) + size
  {
  }

  lemma OffsetsAreApart(i: nat, j: nat, size: nat)
    requires i < j
    ensures Offset(i, size) + size <= Offset(j, size)
  {
    assert (j - i) * size == j * size - i * size;
    assert (j - i) * size >= size by {
      assert (j - i - 1) * size >= 0;
    }
  }

  /** Byte `k` lies in chunk `k / size`, and in no other. */
  lemma ChunkOfByte(k: nat, size: nat)
    requires size > 0
    ensures Offset(k / size, size) <= k < Offset(k / size, size) + size
    ensures k == Offset(k / size, size) + k % size
  {
  }

  lemma ChunkOfByteIsUnique(k: nat, i: nat, size: nat)
    requires size > 0 && Offset(i, size) <= k < Offset(i, size) + size
    ensures i == k / size && k % size == k - Offset(i, size)
  {
    ChunkOfByte(k, size);
    if i < k / size {
      OffsetsAreApart(i, k / size, size);
    } else if k / size < i {
      OffsetsAreApart(k / size, i, size);
    }
  }

  /** Chunk `i` of a content; the last one may be short, and there is none behind it. */
  function ChunkAt(content: Bytes, size: nat, i: nat): (chunk: Bytes)
    ensures |chunk| <= size
  {
    var from := Offset(i, size);
    if from >= |content| then [] else if from + size <= |content| then content[from..from + size] else content[from..]
  }

  function HashesFrom(content: Bytes, size: nat, i: nat): (hashes: seq<Digest>)
    requires size > 0
    decreases |content| - Offset(i, size)
  {
    if Offset(i, size) >= |content| then []
    else
      OffsetOfNext(i, size);
      [Raw(ChunkAt(content, size, i))] + HashesFrom(content, size, i + 1)
  }

  /** The manifest of a content: the hashes of its chunks, in order. */
  function ChunkHashes(content: Bytes, size: nat): seq<Digest>
    requires size > 0
  {
    HashesFrom(content, size, 0)
  }

  lemma {:induction false} HashesCover(content: Bytes, size: nat, i: nat)
    requires size > 0
    ensures |content| <= Offset(i + |HashesFrom(content, size, i)|, size)
    decreases |content| - Offset(i, size)
  {
    if Offset(i, size) < |content| {
      OffsetOfNext(i, size);
      HashesCover(content, size, i + 1);
      assert i + |HashesFrom(content, size, i)| == i + 1 + |HashesFrom(content, size, i + 1)|;
    }
  }

  lemma {:induction false} HashesFromAt(content: Bytes, size: nat, i: nat, j: nat)
    requires size > 0 && i <= j < i + |HashesFrom(content, size, i)|
    ensures Offset(j, size) < |content|
    ensures HashesFrom(content, size, i)[j - i] == Raw(ChunkAt(content, size, j))
    decreases |content| - Offset(i, size)
  {
    if i < j {
      OffsetOfNext(i, size);
      HashesFromAt(content, size, i + 1, j);
    }
  }

  lemma ChunkExists(content: Bytes, size: nat, i: nat)
    requires size > 0 && Offset(i, size) < |content|
    ensures i < |ChunkHashes(content, size)|
  {
    var n := |ChunkHashes(content, size)|;
    HashesCover(content, size, 0);
    if n < i {
      OffsetsAreApart(n, i, size);
    }
    hide Offset, HashesFrom;
  }

  lemma ChunkByte(content: Bytes, size: nat, i: nat, at: nat)
    requires at < size && Offset(i, size) + at < |content|
    ensures at < |ChunkAt(content, size, i)| && ChunkAt(content, size, i)[at] == content[Offset(i, size) + at]
  {
    hide Offset;
  }

  /** A manifest has one hash per chunk, and its chunks cover the content. */
  lemma ManifestAt(content: Bytes, size: nat, i: nat, at: nat)
    requires at < size && Offset(i, size) + at < |content|
    ensures i < |ChunkHashes(content, size)|
    ensures ChunkHashes(content, size)[i] == Raw(ChunkAt(content, size, i))
    ensures at < |ChunkAt(content, size, i)| && ChunkAt(content, size, i)[at] == content[Offset(i, size) + at]
  {
    hide Offset, ChunkAt, HashesFrom;
    ChunkExists(content, size, i);
    HashesFromAt(content, size, 0, i);
    ChunkByte(content, size, i, at);
  }

  lemma ManifestIndex(content: Bytes, size: nat, i: nat)
    requires size > 0 && i < |ChunkHashes(content, size)|
    ensures Offset(i, size) < |content|
    ensures ChunkHashes(content, size)[i] == Raw(ChunkAt(content, size, i))
  {
    HashesFromAt(content, size, 0, i);
  }

  lemma SameHashSameByte(a: Bytes, b: Bytes, size: nat, i: nat, at: nat)
    requires at < size && Offset(i, size) + at < |a|
    requires i < |ChunkHashes(a, size)| && i < |ChunkHashes(b, size)|
    requires ChunkHashes(a, size)[i] == ChunkHashes(b, size)[i]
    ensures Offset(i, size) + at < |b| && a[Offset(i, size) + at] == b[Offset(i, size) + at]
  {
    ManifestAt(a, size, i, at);
    ManifestIndex(b, size, i);
    hide Offset, ChunkHashes;
    assert ChunkAt(b, size, i) == ChunkAt(a, size, i);
    assert b[Offset(i, size) + at] == ChunkAt(b, size, i)[at];
  }

  lemma SameManifestSameByte(a: Bytes, b: Bytes, size: nat, k: nat)
    requires size > 0 && ChunkHashes(a, size) == ChunkHashes(b, size) && k < |a|
    ensures k < |b| && a[k] == b[k]
  {
    ChunkOfByte(k, size);
    hide Offset, ChunkHashes;
    ManifestAt(a, size, k / size, k % size);
    SameHashSameByte(a, b, size, k / size, k % size);
  }

  /** Contents with the same manifest are the same content. */
  lemma ManifestDeterminesContent(a: Bytes, b: Bytes, size: nat)
    requires size > 0 && CompositeHash(ChunkHashes(a, size)) == CompositeHash(ChunkHashes(b, size))
    ensures a == b
  {
    hide ChunkHashes;
    if |a| > |b| {
      SameManifestSameByte(a, b, size, |b|);
    } else if |b| > |a| {
      SameManifestSameByte(b, a, size, |a|);
    }
    forall k: nat | k < |a|
      ensures a[k] == b[k]
    {
      SameManifestSameByte(a, b, size, k);
    }
  }

  /** The plain digest of a content is never the composite digest of one, unless both are empty. */
  lemma RawIsNotComposite(a: Bytes, b: Bytes, size: nat)
    requires size > 0
    ensures Raw(a) == CompositeHash(ChunkHashes(b, size)) <==> a == [] && b == []
  {
    if b != [] {
      ManifestAt(b, size, 0, 0);
    }
  }

  // ------------------------------------------------------------------
  // Reading chunks and comparing manifests
  // ------------------------------------------------------------------

  lemma AppendIsAssociative(a: seq<Digest>, d: Digest, b: seq<Digest>)
    ensures a + ([d] + b) == a + [d] + b && |a + [d]| == |a| + 1
  {
  }

  /** Reading one more chunk moves the manifest forward by one hash. */
  lemma ReadOneChunk(hashes: seq<Digest>, content: Bytes, size: nat)
    requires size > 0 && Offset(|hashes|, size) < |content|
    ensures var longer := hashes + [Raw(ChunkAt(content, size, |hashes|))];
            && Offset(|longer|, size) == Offset(|hashes|, size) + size
            && hashes + HashesFrom(content, size, |hashes|) == longer + HashesFrom(content, size, |longer|)
  {
    OffsetOfNext(|hashes|, size);
    hide Offset, ChunkAt;
    AppendIsAssociative(hashes, Raw(ChunkAt(content, size, |hashes|)), HashesFrom(content, size, |hashes| + 1));
  }

  lemma NothingLeftToRead(hashes: seq<Digest>, content: Bytes, size: nat)
    requires size > 0 && Offset(|hashes|, size) >= |content|
    ensures hashes + HashesFrom(content, size, |hashes|) == hashes
  {
  }

  method StreamChunkHashes(content: Bytes, chunkSize: int) returns (hashes: seq<Digest>, totalSize: nat)
    ensures hashes == ChunkHashes(content, EffectiveChunkSize(chunkSize))
    ensures totalSize == |content|
  {
    var size := chunkSize;
    if size <= 0 {
      size := DEFAULT_CHUNK_SIZE;
    }
    hashes, totalSize := [], 0;
    hide HashesFrom;
    while true
      invariant totalSize <= |content|
      invariant totalSize == Offset(|hashes|, size)
      invariant hashes + HashesFrom(content, size, |hashes|) == ChunkHashes(content, size)
      decreases |content| - totalSize
    {
      var n := if |content| - totalSize < size then |content| - totalSize else size;
      var buf := content[totalSize..totalSize + n];
      if n > 0 {
        assert buf == ChunkAt(content, size, |hashes|);
        ReadOneChunk(hashes, content, size);
        totalSize := totalSize + n;
        hashes := hashes + [Raw(buf)];
      }
      if n < size {
        NothingLeftToRead(hashes, content, size);
        break;
      }
    }
  }

  /** The uploader's in-memory twin of the streaming reader. */
  method UploadChunkHashes(data: Bytes, chunkSize: int) returns (hashes: seq<Digest>)
    ensures hashes == ChunkHashes(data, EffectiveChunkSize(chunkSize))
  {
    var size := chunkSize;
    if size <= 0 {
      size := DEFAULT_CHUNK_SIZE;
    }
    hashes := [];
    var offset := 0;
    hide HashesFrom;
    while offset < |data|
      invariant offset == Offset(|hashes|, size)
      invariant hashes + HashesFrom(data, size, |hashes|) == ChunkHashes(data, size)
    {
      var end := if offset + size < |data| then offset + size else |data|;
      assert data[offset..end] == ChunkAt(data, size, |hashes|);
      ReadOneChunk(hashes, data, size);
      hashes := hashes + [Raw(data[offset..end])];
      offset := offset + size;
    }
    NothingLeftToRead(hashes, data, size);
  }

  method ReadChunkFromDisk(content: Bytes, chunkIndex: nat, chunkSize: int) returns (chunk: Bytes)
    ensures chunk == ChunkAt(content, EffectiveChunkSize(chunkSize), chunkIndex)
    ensures chunkIndex < |ChunkHashes(content, EffectiveChunkSize(chunkSize))| ==>
              Raw(chunk) == ChunkHashes(content, EffectiveChunkSize(chunkSize))[chunkIndex]
  {
    var size := chunkSize;
    if size <= 0 {
      size := DEFAULT_CHUNK_SIZE;
    }
    var offset := chunkIndex * size;
    if chunkIndex < |ChunkHashes(content, size)| {
      ManifestIndex(content, size, chunkIndex);
    }
    if offset >= |content| {
      return [];
    }
    var n := if |content| - offset < size then |content| - offset else size;
    return content[offset..offset + n];
  }

  /** Chunk `i` has to be fetched: it is new or its hash changed. */
  predicate Differs(stored: seq<Digest>, remote: seq<Digest>, i: nat) {
    i < |remote| && (i >= |stored| || stored[i] != remote[i])
  }

  /** The first `n` chunk indices that differ, in order. */
  function DirtyUpTo(stored: seq<Digest>, remote: seq<Digest>, n: nat): (dirty: seq<nat>)
    ensures forall i: nat :: i in dirty <==> i < n && Differs(stored, remote, i)
    ensures forall a :: 0 <= a < |dirty| ==> dirty[a] < n
    ensures forall a, b :: 0 <= a < b < |dirty| ==> dirty[a] < dirty[b]
  {
    if n == 0 then []
    else DirtyUpTo(stored, remote, n - 1) + if Differs(stored, remote, n - 1) then [n - 1] else []
  }

  function DirtyChunks(stored: seq<Digest>, remote: seq<Digest>): (dirty: seq<nat>)
    ensures forall i: nat :: i in dirty <==> Differs(stored, remote, i)
  {
    DirtyUpTo(stored, remote, |remote|)
  }

  method DiffChunkManifests(oldHashes: seq<Digest>, newHashes: seq<Digest>)
    returns (changed: seq<nat>, truncated: bool)
    ensures changed == DirtyChunks(oldHashes, newHashes)
    ensures forall a, b :: 0 <= a < b < |changed| ==> changed[a] < changed[b]
    ensures truncated <==> |newHashes| < |oldHashes|
  {
    changed := [];
    for i := 0 to |newHashes|
      invariant changed == DirtyUpTo(oldHashes, newHashes, i)
    {
      if i >= |oldHashes| || oldHashes[i] != newHashes[i] {
        changed := changed + [i];
      }
    }
    truncated := |newHashes| < |oldHashes|;
  }

  // ------------------------------------------------------------------
  // Patching
  // ------------------------------------------------------------------

  function Zeros(n: nat): (z: Bytes)
    ensures |z| == n && forall k :: 0 <= k < n ==> z[k] == 0
  {
    seq(n, _ => 0 as byte)
  }

  /** A positioned write; writing behind the end leaves a hole of zeros. */
  function WriteAt(file: Bytes, offset: nat, data: Bytes): Bytes {
    if data == [] then file
    else
      var base := if |file| < offset then file + Zeros(offset - |file|) else file;
      base[..offset] + data + (if offset + |data| < |base| then base[offset + |data|..] else [])
  }

  function Truncate(file: Bytes, size: nat): Bytes {
    if size <= |file| then file[..size] else file + Zeros(size - |file|)
  }

  /** What byte `k` of the patched file is: from a fetched chunk, else from the local file, else zero. */
  function PatchedByte(local: Bytes, chunks: map<nat, Bytes>, done: set<nat>, size: nat, k: nat): byte
    requires size > 0
  {
    var i := k / size;
    if i in done && i in chunks && k % size < |chunks[i]| then chunks[i][k % size]
    else if k < |local| then local[k]
    else 0
  }

  function Patched(local: Bytes, chunks: map<nat, Bytes>, size: nat, fileSize: nat): Bytes
    requires size > 0
  {
    seq(fileSize, k requires 0 <= k => PatchedByte(local, chunks, chunks.Keys, size, k))
  }

  /** `file` holds the local bytes overlaid with the chunks in `done`, and zeros for ever behind its end. */
  ghost predicate Overlaid(file: Bytes, local: Bytes, chunks: map<nat, Bytes>, done: set<nat>, size: nat)
    requires size > 0
  {
    forall k: nat :: (if k < |file| then file[k] else 0) == PatchedByte(local, chunks, done, size, k)
  }

  lemma OverlayOneChunk(file: Bytes, local: Bytes, chunks: map<nat, Bytes>, done: set<nat>, size: nat, idx: nat)
    requires size > 0 && idx in chunks && idx !in done && |chunks[idx]| <= size
    requires Overlaid(file, local, chunks, done, size)
    ensures Overlaid(WriteAt(file, Offset(idx, size), chunks[idx]), local, chunks, done + {idx}, size)
  {
    var written := WriteAt(file, Offset(idx, size), chunks[idx]);
    forall k: nat
      ensures (if k < |written| then written[k] else 0) == PatchedByte(local, chunks, done + {idx}, size, k)
    {
      assert (if k < |file| then file[k] else 0) == PatchedByte(local, chunks, done, size, k);
      ChunkOfByte(k, size);
      if Offset(idx, size) <= k < Offset(idx, size) + size {
        ChunkOfByteIsUnique(k, idx, size);
      }
    }
  }

  lemma StartOverlay(local: Bytes, chunks: map<nat, Bytes>, size: nat)
    requires size > 0
    ensures Overlaid(local, local, chunks, {}, size)
  {
  }

  lemma CutToSize(file: Bytes, local: Bytes, chunks: map<nat, Bytes>, size: nat, fileSize: nat)
    requires size > 0 && Overlaid(file, local, chunks, chunks.Keys, size)
    ensures Truncate(file, fileSize) == Patched(local, chunks, size, fileSize)
  {
    forall k: nat | k < fileSize
      ensures Truncate(file, fileSize)[k] == PatchedByte(local, chunks, chunks.Keys, size, k)
    {
      assert (if k < |file| then file[k] else 0) == PatchedByte(local, chunks, chunks.Keys, size, k);
    }
  }

  /**
   The writer behind a chunked download: copy the local file, write every fetched chunk in
   whatever order the map yields them, cut to size.
   */
  method PatchChunks(local: Bytes, chunkData: map<nat, Bytes>, chunkSize: nat, fileSize: nat)
    returns (file: Bytes)
    requires chunkSize > 0
    requires forall idx :: idx in chunkData ==> |chunkData[idx]| <= chunkSize
    ensures file == Patched(local, chunkData, chunkSize, fileSize)
  {
    file := local;
    StartOverlay(local, chunkData, chunkSize);
    hide Overlaid, Patched, WriteAt, Truncate;
    var remaining := chunkData.Keys;
    ghost var done: set<nat> := {};
    while remaining != {}
      invariant remaining <= chunkData.Keys && done == chunkData.Keys - remaining
      invariant Overlaid(file, local, chunkData, done, chunkSize)
      decreases remaining
    {
      var idx :| idx in remaining;
      OverlayOneChunk(file, local, chunkData, done, chunkSize, idx);
      file := WriteAt(file, idx * chunkSize, chunkData[idx]);
      remaining := remaining - {idx};
      done := done + {idx};
    }
    assert done == chunkData.Keys;
    CutToSize(file, local, chunkData, chunkSize, fileSize);
    file := Truncate(file, fileSize);
  }

  /** The fetched chunks are those that differ, each checked against the remote manifest. */
  ghost predicate Verified(chunks: map<nat, Bytes>, stored: seq<Digest>, remote: seq<Digest>) {
    && (forall i: nat :: i in chunks <==> Differs(stored, remote, i))
    && forall i: nat :: i in chunks && i < |remote| ==> Raw(chunks[i]) == remote[i]
  }

  lemma PatchedByteIsRemote(local: Bytes, remote: Bytes, chunks: map<nat, Bytes>, size: nat, k: nat)
    requires size > 0 && k < |remote|
    requires Verified(chunks, ChunkHashes(local, size), ChunkHashes(remote, size))
    ensures PatchedByte(local, chunks, chunks.Keys, size, k) == remote[k]
  {
    ChunkOfByte(k, size);
    hide Offset, ChunkHashes, ChunkAt;
    var i, at := k / size, k % size;
    ManifestAt(remote, size, i, at);
    if !Differs(ChunkHashes(local, size), ChunkHashes(remote, size), i) {
      SameHashSameByte(remote, local, size, i, at);
    }
  }

  /**
   A delta equals a full copy for all lengths, growth, shrinkage and short last chunks, and
   does so exactly when the announced size is the remote length: the size comes from an
   earlier stat than the manifest and nothing compares the two.
   */
  lemma DeltaEqualsFullCopy(local: Bytes, remote: Bytes, chunks: map<nat, Bytes>, size: nat, fileSize: nat)
    requires size > 0
    requires Verified(chunks, ChunkHashes(local, size), ChunkHashes(remote, size))
    ensures Patched(local, chunks, size, fileSize) == remote <==> fileSize == |remote|
  {
    if fileSize == |remote| {
      forall k: nat | k < fileSize
        ensures Patched(local, chunks, size, fileSize)[k] == remote[k]
      {
        PatchedByteIsRemote(local, remote, chunks, size, k);
      }
    }
  }
}
