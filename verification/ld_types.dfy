/**
  Values shared by every stage of the LD-matrix assembly in make_ld_matrix.py.
  Correlation values (the R2 column) are never inspected, so they are an
  opaque type parameter V throughout.
 */
module LdTypes {

  datatype Option<+T> = None | Some(value: T)

  datatype Result<+T, +E> = Success(value: T) | Failure(error: E)

  /** The fatal errors `make_ld_matrix` raises. */
  datatype Error =
    | NoOutputRequested   // neither --savemat nor --saveltm was given
    | DuplicatedChrPos    // two reference rows share the same (CHR, BP)
    | EmptyLdTable        // the chunk loop ran zero times, so there is no table to deduplicate
    | NotLowerDiagonal    // a retained triplet has id1 >= id2

  /** A variant key: chromosome token and base-pair position. */
  datatype Locus = Locus(chr: string, bp: int)

  /** One row of the pairwise LD table: (CHR_A, BP_A), (CHR_B, BP_B) and R2. */
  datatype PairRecord<V> = PairRecord(a: Locus, b: Locus, r2: V)

  /** One row (id1, id2, val) of the accumulated table. */
  datatype Triplet<V> = Triplet(id1: nat, id2: nat, val: V) {
    /** The subset ['id1', 'id2'] that deduplication compares. */
    function Key(): (nat, nat) { (id1, id2) }
  }

  /** Every index of every triplet lies in [0, n). */
  predicate InRange<V>(ts: seq<Triplet<V>>, n: nat) {
    forall k | 0 <= k < |ts| :: ts[k].id1 < n && ts[k].id2 < n
  }

  /** No two triplets share the same (id1, id2). */
  predicate DistinctKeys<V>(ts: seq<Triplet<V>>) {
    forall k, l | 0 <= k < l < |ts| :: ts[k].Key() != ts[l].Key()
  }
}
