/**
  `make_ld_matrix` end to end: the output-request check, the reference
  index, the chunk loop, deduplication and the requested exports.
 */
module Pipeline {
  import opened LdTypes
  import RefIndex
  import Resolve
  import Dedup
  import Materialize

  /** The output paths given on the command line (--savemat, --saveltm). */
  datatype Config = Config(savemat: Option<string>, saveltm: Option<string>)

  /** An output is requested when its path is given and is not the empty string. */
  predicate Requested(path: Option<string>) {
    path.Some? && path.value != ""
  }

  /** What a successful run produces: the requested exports and the number of dropped duplicates. */
  datatype Outputs<V> = Outputs(
    ltm: Option<seq<seq<Materialize.Cell<V>>>>,
    mat: Option<Materialize.MatRecord<V>>,
    dropped: nat)

  /**
    The export stage over the deduplicated table: the order check when the
    text export is requested, then the requested exports and the drop count.
   */
  ghost function Exports<V>(cfg: Config, kept: seq<Triplet<V>>, nsnp: nat, dropped: nat): Result<Outputs<V>, Error> {
    if Requested(cfg.saveltm) && !Materialize.LowerOrder(kept) then Failure(NotLowerDiagonal)
    else Success(Outputs(
      if Requested(cfg.saveltm) then Some(Materialize.LowerTriangle(kept, nsnp)) else None,
      if Requested(cfg.savemat) then Some(Materialize.SparseExport(kept, nsnp)) else None,
      dropped))
  }

  /**
    The run, stage by stage, stated with the stages' specification functions;
    `stream` is the concatenated record stream, or None when the reader
    yields no chunk at all (the chunk loop runs zero times).
   */
  ghost function RunOnStream<V>(cfg: Config, reference: seq<Locus>, stream: Option<seq<PairRecord<V>>>): Result<Outputs<V>, Error> {
    if !Requested(cfg.savemat) && !Requested(cfg.saveltm) then Failure(NoOutputRequested)
    else match RefIndex.BuildIndex(reference)
      case Failure(e) => Failure(e)
      case Success(index) =>
        match stream
        case None => Failure(EmptyLdTable)
        case Some(records) => RunOnTable(cfg, index, records, |reference|)
  }

  /** Resolution, deduplication and export of a record stream against a built index. */
  ghost function RunOnTable<V>(cfg: Config, index: map<Locus, nat>, records: seq<PairRecord<V>>, nsnp: nat): Result<Outputs<V>, Error> {
    var total := Resolve.ResolveChunk(index, records);
    var kept := Dedup.KeepFirst(total);
    Exports(cfg, kept, nsnp, |total| - |kept|)
  }

  /** The run over the chunks the reader yields. */
  ghost function Run<V>(cfg: Config, reference: seq<Locus>, chunks: seq<seq<PairRecord<V>>>): Result<Outputs<V>, Error> {
    RunOnStream(cfg, reference, if chunks == [] then None else Some(Resolve.Flatten(chunks)))
  }

  /** The table every export is built from is deduplicated and indexes only reference rows. */
  lemma KeptTableIsWellFormed<V>(index: map<Locus, nat>, reference: seq<Locus>, records: seq<PairRecord<V>>)
    requires RefIndex.BuildIndex(reference) == Success(index)
    ensures DistinctKeys(Dedup.KeepFirst(Resolve.ResolveChunk(index, records)))
    ensures InRange(Dedup.KeepFirst(Resolve.ResolveChunk(index, records)), |reference|)
  {
    var total := Resolve.ResolveChunk(index, records);
    var kept := Dedup.KeepFirst(total);
    Dedup.KeepFirstKeys(total);
    Dedup.KeepFirstSelectsFirstOccurrences(total);
    forall m | 0 <= m < |kept| ensures kept[m].id1 < |reference| && kept[m].id2 < |reference| {
      var p := Dedup.FirstPositions(total)[m];
      assert kept[m] == total[p] && total[p] in total;
    }
  }

  /** The three ways a run stops before any table exists. */
  lemma RunEarlyExits<V>(cfg: Config, reference: seq<Locus>, chunks: seq<seq<PairRecord<V>>>)
    ensures !Requested(cfg.savemat) && !Requested(cfg.saveltm) ==>
      Run(cfg, reference, chunks) == Failure(NoOutputRequested)
    ensures (Requested(cfg.savemat) || Requested(cfg.saveltm)) && RefIndex.BuildIndex(reference).Failure? ==>
      Run(cfg, reference, chunks) == Failure(DuplicatedChrPos)
    ensures (Requested(cfg.savemat) || Requested(cfg.saveltm)) && RefIndex.BuildIndex(reference).Success? && chunks == [] ==>
      Run(cfg, reference, chunks) == Failure(EmptyLdTable)
  {
  }

  /** The run once the index is built and the reader has yielded at least one chunk. */
  lemma RunWithTable<V>(cfg: Config, reference: seq<Locus>, chunks: seq<seq<PairRecord<V>>>, index: map<Locus, nat>)
    requires Requested(cfg.savemat) || Requested(cfg.saveltm)
    requires RefIndex.BuildIndex(reference) == Success(index)
    requires chunks != []
    ensures Run(cfg, reference, chunks) == RunOnTable(cfg, index, Resolve.Flatten(chunks), |reference|)
  {
  }

  /**
    The export stage: the text export when requested (which refuses a table
    with some id1 >= id2 before anything is written), then the MATLAB record
    when requested.
   */
  method WriteOutputs<V>(cfg: Config, kept: seq<Triplet<V>>, nsnp: nat, dropped: nat) returns (r: Result<Outputs<V>, Error>)
    requires DistinctKeys(kept) && InRange(kept, nsnp)
    ensures r == Exports(cfg, kept, nsnp, dropped)
  {
    var ltm: Option<seq<seq<Materialize.Cell<V>>>> := None;
    if Requested(cfg.saveltm) {
      var rows := Materialize.WriteLowerTriangular(kept, nsnp);
      if rows.Failure? {
        return Failure(rows.error);
      }
      ltm := Some(rows.value);
    }
    var mat: Option<Materialize.MatRecord<V>> := None;
    if Requested(cfg.savemat) {
      mat := Some(Materialize.SparseExport(kept, nsnp));
    }
    return Success(Outputs(ltm, mat, dropped));
  }

  /**
    The whole run. Fails first when no output is requested, then on a
    duplicated reference key; the rest is `ProcessTable`.
   */
  method MakeLdMatrix<V>(cfg: Config, reference: seq<Locus>, chunks: seq<seq<PairRecord<V>>>)
    returns (r: Result<Outputs<V>, Error>)
    ensures r == Run(cfg, reference, chunks)
  {
    RunEarlyExits(cfg, reference, chunks);
    if !Requested(cfg.savemat) && !Requested(cfg.saveltm) {
      return Failure(NoOutputRequested);
    }
    var built := RefIndex.BuildIndex(reference);
    if built.Failure? {
      return Failure(DuplicatedChrPos);
    }
    r := ProcessTable(cfg, reference, built.value, chunks);
  }

  /**
    The run once the reference index is built: fails when the chunk sequence
    is empty, then (for the text export only) on a triplet with id1 >= id2;
    otherwise produces the requested exports of the deduplicated table.
   */
  method ProcessTable<V>(cfg: Config, reference: seq<Locus>, index: map<Locus, nat>, chunks: seq<seq<PairRecord<V>>>)
    returns (r: Result<Outputs<V>, Error>)
    requires Requested(cfg.savemat) || Requested(cfg.saveltm)
    requires RefIndex.BuildIndex(reference) == Success(index)
    ensures r == Run(cfg, reference, chunks)
  {
    var total := Resolve.Accumulate(index, chunks);
    if total.None? {
      RunEarlyExits(cfg, reference, chunks);
      return Failure(EmptyLdTable);
    }
    var kept, dropped := Dedup.DropDuplicates(total.value);
    KeptTableIsWellFormed(index, reference, Resolve.Flatten(chunks));
    r := WriteOutputs(cfg, kept, |reference|, dropped);
    RunWithTable(cfg, reference, chunks, index);
  }

  /** Asking for neither output fails before any input is looked at. */
  lemma NoOutputFailsFirst<V>(cfg: Config, reference: seq<Locus>, chunks: seq<seq<PairRecord<V>>>)
    requires !Requested(cfg.savemat) && !Requested(cfg.saveltm)
    ensures Run(cfg, reference, chunks) == Failure(NoOutputRequested)
  {
  }

  /** The exports of an empty table: nothing to check, an empty sparse record. */
  lemma EmptyTableExports<V>(cfg: Config, nsnp: nat)
    ensures Exports<V>(cfg, [], nsnp, 0) == Success(Outputs(
      if Requested(cfg.saveltm) then Some(Materialize.LowerTriangle<V>([], nsnp)) else None,
      if Requested(cfg.savemat) then Some(Materialize.MatRecord<V>.MatRecord([], [], [], nsnp)) else None,
      0))
  {
    var none: seq<Triplet<V>> := [];
    assert Materialize.LowerOrder(none);
    assert Materialize.SparseExport(none, nsnp).id1 == [];
  }

  /**
    An LD table with a header and no data rows is read as one empty chunk, so
    the run goes on: nothing is dropped, the sparse record is empty, and the
    text export holds the diagonal and zeros only.
   */
  lemma HeaderOnlyTableRun<V>(cfg: Config, reference: seq<Locus>, size: nat)
    requires size > 0
    requires Requested(cfg.savemat) || Requested(cfg.saveltm)
    requires RefIndex.Distinct(reference)
    ensures Run<V>(cfg, reference, Resolve.Chunk<PairRecord<V>>([], size)) == Success(Outputs(
      if Requested(cfg.saveltm) then Some(Materialize.LowerTriangle<V>([], |reference|)) else None,
      if Requested(cfg.savemat) then Some(Materialize.MatRecord<V>.MatRecord([], [], [], |reference|)) else None,
      0))
    ensures forall i, j | 0 <= j < i < |Materialize.LowerTriangle<V>([], |reference|)| ::
      Materialize.LowerTriangle<V>([], |reference|)[i][j] == Materialize.Zero
  {
    var chunks := Resolve.Chunk<PairRecord<V>>([], size);
    var index := RefIndex.BuildIndex(reference).value;
    Resolve.FlattenChunk<PairRecord<V>>([], size);
    RunWithTable(cfg, reference, chunks, index);
    var none: seq<Triplet<V>> := [];
    assert Resolve.ResolveChunk(index, []) == none;
    assert Dedup.KeepFirst(none) == none;
    EmptyTableExports<V>(cfg, |reference|);
    Materialize.EmptyTableTriangle<V>(|reference|);
  }

  /** The chunk size the table is read with does not change the outcome of a run. */
  lemma RunIsChunkSizeInvariant<V>(cfg: Config, reference: seq<Locus>, records: seq<PairRecord<V>>, size1: nat, size2: nat)
    requires size1 > 0 && size2 > 0
    ensures Run(cfg, reference, Resolve.Chunk(records, size1)) == Run(cfg, reference, Resolve.Chunk(records, size2))
  {
    var chunks1, chunks2 := Resolve.Chunk(records, size1), Resolve.Chunk(records, size2);
    Resolve.FlattenChunk(records, size1);
    Resolve.FlattenChunk(records, size2);
    assert (if chunks1 == [] then None else Some(Resolve.Flatten(chunks1)))
        == (if chunks2 == [] then None else Some(Resolve.Flatten(chunks2)));
  }

  /**
    The shape of the exports: the sparse record holds nsnp and distinct
    1-based pairs in [1, nsnp] in three columns of equal length; the text
    export has nsnp rows (one when nsnp is zero), row i holding i entries
    and then the diagonal.
   */
  ghost predicate WellFormedOutputs<V>(out: Outputs<V>, nsnp: nat) {
    && (out.mat.Some? ==>
          var m := out.mat.value;
          && m.nsnp == nsnp
          && |m.id1| == |m.id2| == |m.val|
          && (forall k | 0 <= k < |m.id1| :: 1 <= m.id1[k] <= nsnp && 1 <= m.id2[k] <= nsnp)
          && (forall k, l | 0 <= k < l < |m.id1| :: (m.id1[k], m.id2[k]) != (m.id1[l], m.id2[l])))
    && (out.ltm.Some? ==>
          var rows := out.ltm.value;
          && |rows| == (if nsnp == 0 then 1 else nsnp)
          && (forall i | 0 <= i < |rows| :: |rows[i]| == i + 1 && rows[i][i] == Materialize.Diagonal))
  }

  /** The exports of a deduplicated, in-range table are well formed, whichever are requested. */
  lemma ExportsAreWellFormed<V>(kept: seq<Triplet<V>>, nsnp: nat, withLtm: bool, withMat: bool, dropped: nat)
    requires DistinctKeys(kept) && InRange(kept, nsnp)
    ensures WellFormedOutputs(Outputs(
      if withLtm then Some(Materialize.LowerTriangle(kept, nsnp)) else None,
      if withMat then Some(Materialize.SparseExport(kept, nsnp)) else None,
      dropped), nsnp)
  {
    Materialize.SparseExportRoundTrip(kept, nsnp);
    var m := Materialize.SparseExport(kept, nsnp);
    forall k, l | 0 <= k < l < |m.id1| ensures (m.id1[k], m.id2[k]) != (m.id1[l], m.id2[l]) {
      assert kept[k].Key() != kept[l].Key();
    }
    var rows := Materialize.LowerTriangle(kept, nsnp);
    forall i | 0 <= i < |rows| ensures |rows[i]| == i + 1 && rows[i][i] == Materialize.Diagonal {
      Materialize.TriangleRowEntries(kept, i);
    }
  }

  /** Every successful run produces well-formed exports sized by the reference. */
  lemma RunOutputsAreWellFormed<V>(cfg: Config, reference: seq<Locus>, chunks: seq<seq<PairRecord<V>>>)
    requires Run(cfg, reference, chunks).Success?
    ensures WellFormedOutputs(Run(cfg, reference, chunks).value, |reference|)
  {
    RunEarlyExits(cfg, reference, chunks);
    var index := RefIndex.BuildIndex(reference).value;
    var total := Resolve.ResolveChunk(index, Resolve.Flatten(chunks));
    var kept := Dedup.KeepFirst(total);
    RunWithTable(cfg, reference, chunks, index);
    KeptTableIsWellFormed(index, reference, Resolve.Flatten(chunks));
    ExportsAreWellFormed(kept, |reference|, Requested(cfg.saveltm), Requested(cfg.savemat), |total| - |kept|);
  }
}
