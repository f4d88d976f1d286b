/**
  A worked run: four distinct reference variants and four LD records, the
  last repeating the first pair with a different value.
 */
module Example {
  import opened LdTypes
  import RefIndex
  import Resolve
  import Dedup
  import Materialize
  import opened Pipeline

  ghost predicate FourDistinct(l0: Locus, l1: Locus, l2: Locus, l3: Locus) {
    l0 != l1 && l0 != l2 && l0 != l3 && l1 != l2 && l1 != l3 && l2 != l3
  }

  lemma ExampleIndex(l0: Locus, l1: Locus, l2: Locus, l3: Locus)
    requires FourDistinct(l0, l1, l2, l3)
    ensures RefIndex.BuildIndex([l0, l1, l2, l3]) == Success(map[l0 := 0, l1 := 1, l2 := 2, l3 := 3])
  {
    var reference := [l0, l1, l2, l3];
    var expected := map[l0 := 0, l1 := 1, l2 := 2, l3 := 3];
    assert RefIndex.Distinct(reference);
    assert RefIndex.Keys(reference) == expected.Keys;
    RefIndex.BuildIndexIsPositionMap(reference, expected);
  }

  lemma ExampleResolve<V>(l0: Locus, l1: Locus, l2: Locus, l3: Locus, v0: V, v1: V, v2: V, v3: V)
    requires FourDistinct(l0, l1, l2, l3)
    ensures Resolve.ResolveChunk(map[l0 := 0, l1 := 1, l2 := 2, l3 := 3], Resolve.Flatten([
      [PairRecord(l0, l1, v0), PairRecord(l0, l2, v1), PairRecord(l1, l2, v2), PairRecord(l0, l1, v3)]]))
         == [Triplet(0, 1, v0), Triplet(0, 2, v1), Triplet(1, 2, v2), Triplet(0, 1, v3)]
  {
    var records := [PairRecord(l0, l1, v0), PairRecord(l0, l2, v1), PairRecord(l1, l2, v2), PairRecord(l0, l1, v3)];
    var chunks := [records];
    assert chunks[..0] == [];
    assert Resolve.Flatten(chunks) == records;
    var index := map[l0 := 0, l1 := 1, l2 := 2, l3 := 3];
    assert records[..1][..0] == [] && records[..2][..1] == records[..1];
    assert records[..3][..2] == records[..2] && records[..4][..3] == records[..3];
    assert records[..4] == records;
    assert Resolve.ResolveChunk(index, records[..1]) == [Triplet(0, 1, v0)];
    assert Resolve.ResolveChunk(index, records[..2]) == [Triplet(0, 1, v0), Triplet(0, 2, v1)];
    assert Resolve.ResolveChunk(index, records[..3]) == [Triplet(0, 1, v0), Triplet(0, 2, v1), Triplet(1, 2, v2)];
  }

  lemma ExampleDedup<V>(v0: V, v1: V, v2: V, v3: V)
    ensures Dedup.KeepFirst([Triplet(0, 1, v0), Triplet(0, 2, v1), Triplet(1, 2, v2), Triplet(0, 1, v3)])
         == [Triplet(0, 1, v0), Triplet(0, 2, v1), Triplet(1, 2, v2)]
  {
    var total := [Triplet(0, 1, v0), Triplet(0, 2, v1), Triplet(1, 2, v2), Triplet(0, 1, v3)];
    assert total[..1][..0] == [] && total[..2][..1] == total[..1];
    assert total[..3][..2] == total[..2] && total[..4][..3] == total[..3] && total[..4] == total;
    assert !Dedup.SeenBefore(total[..2], 1) && !Dedup.SeenBefore(total[..3], 2);
    assert Dedup.SeenBefore(total, 3) by {
      assert total[0].Key() == total[3].Key();
    }
    assert Dedup.KeepFirst(total[..1]) == [total[0]];
    assert Dedup.KeepFirst(total[..2]) == [total[0], total[1]];
    assert Dedup.KeepFirst(total[..3]) == [total[0], total[1], total[2]];
  }

  lemma ExampleRows<V>(v0: V, v1: V, v2: V)
    ensures Materialize.LowerTriangle([Triplet(0, 1, v0), Triplet(0, 2, v1), Triplet(1, 2, v2)], 4)
         == [ [Materialize.Diagonal],
              [Materialize.Value(v0), Materialize.Diagonal],
              [Materialize.Value(v1), Materialize.Value(v2), Materialize.Diagonal],
              [Materialize.Zero, Materialize.Zero, Materialize.Zero, Materialize.Diagonal] ]
  {
    var kept := [Triplet(0, 1, v0), Triplet(0, 2, v1), Triplet(1, 2, v2)];
    var rows := Materialize.LowerTriangle(kept, 4);
    assert kept[0].Key() == (0, 1) && kept[1].Key() == (0, 2) && kept[2].Key() == (1, 2);
    forall i | 0 <= i < 4 ensures |rows[i]| == i + 1 && rows[i][i] == Materialize.Diagonal {
      Materialize.TriangleRowEntries(kept, i);
    }
    Materialize.TriangleRowEntries(kept, 1);
    Materialize.TriangleRowEntries(kept, 2);
    Materialize.TriangleRowEntries(kept, 3);
    assert rows[1][0] == Materialize.Value(v0);
    assert rows[2][0] == Materialize.Value(v1) && rows[2][1] == Materialize.Value(v2);
    assert rows[3][0] == Materialize.Zero && rows[3][1] == Materialize.Zero && rows[3][2] == Materialize.Zero;
    assert |rows| == 4;
    assert rows[0] == [Materialize.Diagonal];
    assert rows[1] == [Materialize.Value(v0), Materialize.Diagonal];
    assert rows[2] == [Materialize.Value(v1), Materialize.Value(v2), Materialize.Diagonal];
    assert rows[3] == [Materialize.Zero, Materialize.Zero, Materialize.Zero, Materialize.Diagonal];
  }

  lemma ExampleLowerOrder<V>(v0: V, v1: V, v2: V)
    ensures Materialize.LowerOrder([Triplet(0, 1, v0), Triplet(0, 2, v1), Triplet(1, 2, v2)])
  {
  }

  lemma ExampleSparse<V>(v0: V, v1: V, v2: V)
    ensures Materialize.SparseExport([Triplet(0, 1, v0), Triplet(0, 2, v1), Triplet(1, 2, v2)], 4)
         == Materialize.MatRecord([1, 1, 2], [2, 3, 3], [v0, v1, v2], 4)
  {
    var m := Materialize.SparseExport([Triplet(0, 1, v0), Triplet(0, 2, v1), Triplet(1, 2, v2)], 4);
    assert m.id1 == [1, 1, 2] && m.id2 == [2, 3, 3] && m.val == [v0, v1, v2];
  }

  /** A run with both exports requested, given the outcome of each stage. */
  lemma RunFromStages<V>(reference: seq<Locus>, chunks: seq<seq<PairRecord<V>>>, index: map<Locus, nat>,
                         total: seq<Triplet<V>>, kept: seq<Triplet<V>>)
    requires RefIndex.BuildIndex(reference) == Success(index)
    requires chunks != []
    requires Resolve.ResolveChunk(index, Resolve.Flatten(chunks)) == total
    requires Dedup.KeepFirst(total) == kept
    requires Materialize.LowerOrder(kept)
    ensures Run(Config(Some("ld.mat"), Some("ld.ltm")), reference, chunks) == Success(Outputs(
      Some(Materialize.LowerTriangle(kept, |reference|)),
      Some(Materialize.SparseExport(kept, |reference|)),
      |total| - |kept|))
  {
    var cfg := Config(Some("ld.mat"), Some("ld.ltm"));
    assert Requested(cfg.savemat) && Requested(cfg.saveltm);
    RunWithTable(cfg, reference, chunks, index);
  }

  /**
    Both exports requested: the duplicate of the first pair is dropped and
    its first value kept, the sparse record holds the 1-based pairs (1,2),
    (1,3), (2,3) with their values and nsnp = 4, and the text rows are the
    diagonal, (v0, diagonal), (v1, v2, diagonal) and (0, 0, 0, diagonal).
   */
  lemma FourVariantRun<V>(l0: Locus, l1: Locus, l2: Locus, l3: Locus, v0: V, v1: V, v2: V, v3: V)
    requires FourDistinct(l0, l1, l2, l3)
    ensures Run(Config(Some("ld.mat"), Some("ld.ltm")), [l0, l1, l2, l3],
                [[PairRecord(l0, l1, v0), PairRecord(l0, l2, v1), PairRecord(l1, l2, v2), PairRecord(l0, l1, v3)]])
         == Success(Outputs(
              Some([ [Materialize.Diagonal],
                     [Materialize.Value(v0), Materialize.Diagonal],
                     [Materialize.Value(v1), Materialize.Value(v2), Materialize.Diagonal],
                     [Materialize.Zero, Materialize.Zero, Materialize.Zero, Materialize.Diagonal] ]),
              Some(Materialize.MatRecord([1, 1, 2], [2, 3, 3], [v0, v1, v2], 4)),
              1))
  {
    var reference := [l0, l1, l2, l3];
    var chunks := [[PairRecord(l0, l1, v0), PairRecord(l0, l2, v1), PairRecord(l1, l2, v2), PairRecord(l0, l1, v3)]];
    var index := map[l0 := 0, l1 := 1, l2 := 2, l3 := 3];
    var total := [Triplet(0, 1, v0), Triplet(0, 2, v1), Triplet(1, 2, v2), Triplet(0, 1, v3)];
    var kept := [Triplet(0, 1, v0), Triplet(0, 2, v1), Triplet(1, 2, v2)];
    ExampleIndex(l0, l1, l2, l3);
    ExampleResolve(l0, l1, l2, l3, v0, v1, v2, v3);
    ExampleDedup(v0, v1, v2, v3);
    ExampleRows(v0, v1, v2);
    ExampleLowerOrder(v0, v1, v2);
    RunFromStages(reference, chunks, index, total, kept);
    ExampleSparse(v0, v1, v2);
  }
}
