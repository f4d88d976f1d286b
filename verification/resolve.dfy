/**
  Resolving pairwise LD records against the reference index, chunk by chunk,
  and accumulating the surviving (id1, id2, val) triplets.
 */
module Resolve {
  import opened LdTypes

  /** `dict.get(key, None)` on the reference index. */
  function Lookup(index: map<Locus, nat>, key: Locus): Option<nat> {
    if key in index then Some(index[key]) else None
  }

  /** The mask entry of one record: both endpoints are in the reference. */
  predicate Resolves<V>(index: map<Locus, nat>, r: PairRecord<V>) {
    Lookup(index, r.a).Some? && Lookup(index, r.b).Some?
  }

  /** The triplet a record with a true mask entry contributes. */
  function Resolved<V>(index: map<Locus, nat>, r: PairRecord<V>): Triplet<V>
    requires Resolves(index, r)
  {
    Triplet(index[r.a], index[r.b], r.r2)
  }

  /**
    One chunk's frame: the id1, id2 and val columns selected with the same
    mask, kept in record order. Every index it emits is a value of the index.
   */
  function ResolveChunk<V>(index: map<Locus, nat>, chunk: seq<PairRecord<V>>): (ts: seq<Triplet<V>>)
    ensures |ts| <= |chunk|
    ensures forall t | t in ts :: t.id1 in index.Values && t.id2 in index.Values
  {
    if chunk == [] then []
    else
      var n := |chunk| - 1;
      var r := chunk[n];
      var rest := ResolveChunk(index, chunk[..n]);
      if Resolves(index, r) then
        assert index[r.a] in index.Values && index[r.b] in index.Values;
        rest + [Resolved(index, r)]
      else rest
  }

  /** Positions of a chunk's records whose mask entry is true, in increasing order. */
  ghost function MaskedPositions<V>(index: map<Locus, nat>, chunk: seq<PairRecord<V>>): seq<nat> {
    if chunk == [] then []
    else
      var n := |chunk| - 1;
      MaskedPositions(index, chunk[..n]) + (if Resolves(index, chunk[n]) then [n] else [])
  }

  /**
    The frame of a chunk is exactly its resolvable records, in order: the
    m-th triplet comes from the m-th masked position, the positions increase,
    and a position is masked exactly when both of its endpoints resolve.
   */
  lemma {:induction false} ResolveChunkIsMaskFilter<V>(index: map<Locus, nat>, chunk: seq<PairRecord<V>>)
    ensures |ResolveChunk(index, chunk)| == |MaskedPositions(index, chunk)|
    ensures forall m, m' | 0 <= m < m' < |MaskedPositions(index, chunk)| ::
      MaskedPositions(index, chunk)[m] < MaskedPositions(index, chunk)[m']
    ensures forall m | 0 <= m < |MaskedPositions(index, chunk)| ::
      && MaskedPositions(index, chunk)[m] < |chunk|
      && Resolves(index, chunk[MaskedPositions(index, chunk)[m]])
      && ResolveChunk(index, chunk)[m] == Resolved(index, chunk[MaskedPositions(index, chunk)[m]])
    ensures forall k | 0 <= k < |chunk| :: k in MaskedPositions(index, chunk) <==> Resolves(index, chunk[k])
  {
    if chunk != [] {
      var n := |chunk| - 1;
      var prefix := chunk[..n];
      ResolveChunkIsMaskFilter(index, prefix);
      var ps', ps := MaskedPositions(index, prefix), MaskedPositions(index, chunk);
      var ts', ts := ResolveChunk(index, prefix), ResolveChunk(index, chunk);
      assert forall m | 0 <= m < |ps'| :: ps[m] == ps'[m] && ts[m] == ts'[m] && ps'[m] < n;
      assert forall k | 0 <= k < n :: chunk[k] == prefix[k];
      assert n !in ps';
    }
  }

  /** Resolution is per record, so it distributes over concatenation. */
  lemma {:induction false} ResolveChunkAppend<V>(index: map<Locus, nat>, a: seq<PairRecord<V>>, b: seq<PairRecord<V>>)
    ensures ResolveChunk(index, a + b) == ResolveChunk(index, a) + ResolveChunk(index, b)
    decreases |b|
  {
    if b == [] {
      assert a + b == a;
    } else {
      var n := |b| - 1;
      ResolveChunkAppend(index, a, b[..n]);
      assert (a + b)[..|a + b| - 1] == a + b[..n];
      assert (a + b)[|a + b| - 1] == b[n];
    }
  }

  /** The record stream a sequence of chunks stands for. */
  function Flatten<T>(chunks: seq<seq<T>>): seq<T> {
    if chunks == [] then []
    else Flatten(chunks[..|chunks| - 1]) + chunks[|chunks| - 1]
  }

  lemma {:induction false} FlattenCons<T>(c: seq<T>, chunks: seq<seq<T>>)
    ensures Flatten([c] + chunks) == c + Flatten(chunks)
    decreases |chunks|
  {
    if chunks == [] {
      assert [c] + chunks == [c];
      assert Flatten([c]) == Flatten([c][..0]) + c;
    } else {
      var n := |chunks| - 1;
      FlattenCons(c, chunks[..n]);
      assert ([c] + chunks)[..|chunks|] == [c] + chunks[..n];
    }
  }

  /**
    The chunks a reader with the given chunk size yields for a record stream.
    A table with a header and no data rows still yields one, empty, chunk;
    otherwise every chunk holds between one and `size` records.
   */
  function Chunk<T>(records: seq<T>, size: nat): (chunks: seq<seq<T>>)
    requires size > 0
    ensures chunks != []
    ensures forall c | c in chunks :: |c| <= size
    ensures records == [] ==> chunks == [[]]
    ensures records != [] ==> forall c | c in chunks :: 0 < |c|
    decreases |records|
  {
    if records == [] then [[]]
    else if |records| <= size then [records]
    else [records[..size]] + Chunk(records[size..], size)
  }

  /** Chunking loses and reorders nothing, whatever the chunk size. */
  lemma {:induction false} FlattenChunk<T>(records: seq<T>, size: nat)
    requires size > 0
    ensures Flatten(Chunk(records, size)) == records
    decreases |records|
  {
    if |records| <= size {
      FlattenCons(records, []);
    } else {
      FlattenChunk(records[size..], size);
      FlattenCons(records[..size], Chunk(records[size..], size));
      assert records == records[..size] + records[size..];
    }
  }

  /**
    The chunk loop: resolve each chunk and append its frame to the running
    total. There is no total when the chunk sequence is empty; otherwise the
    total is the resolution of the whole concatenated record stream, so chunk
    boundaries do not affect it.
   */
  method Accumulate<V>(index: map<Locus, nat>, chunks: seq<seq<PairRecord<V>>>) returns (total: Option<seq<Triplet<V>>>)
    ensures total.None? <==> chunks == []
    ensures total.Some? ==> total.value == ResolveChunk(index, Flatten(chunks))
  {
    total := None;
    for i := 0 to |chunks|
      invariant total.None? <==> i == 0
      invariant total.Some? ==> total.value == ResolveChunk(index, Flatten(chunks[..i]))
    {
      var frame := ResolveChunk(index, chunks[i]);
      assert chunks[..i + 1][..i] == chunks[..i];
      ResolveChunkAppend(index, Flatten(chunks[..i]), chunks[i]);
      total := if total.None? then Some(frame) else Some(total.value + frame);
    }
    assert chunks[..|chunks|] == chunks;
  }

  /** Any two chunk sizes give the same accumulated table, and it is the resolution of the whole stream. */
  lemma ChunkSizeInvariance<V>(index: map<Locus, nat>, records: seq<PairRecord<V>>, size1: nat, size2: nat)
    requires size1 > 0 && size2 > 0
    ensures ResolveChunk(index, Flatten(Chunk(records, size1))) == ResolveChunk(index, Flatten(Chunk(records, size2)))
    ensures ResolveChunk(index, Flatten(Chunk(records, size1))) == ResolveChunk(index, records)
  {
    FlattenChunk(records, size1);
    FlattenChunk(records, size2);
  }
}
