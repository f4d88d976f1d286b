/**
  The two exports of the deduplicated table: the lower-triangular text
  matrix (rows of cells) and the 1-based sparse record for MATLAB.
 */
module Materialize {
  import opened LdTypes

  /** One cell of a text row: an absent pair, a stored value, or the unit diagonal. */
  datatype Cell<V> = Zero | Value(v: V) | Diagonal

  /** The check before the text export: every triplet has id1 < id2. */
  predicate LowerOrder<V>(ts: seq<Triplet<V>>) {
    forall k | 0 <= k < |ts| :: ts[k].id1 < ts[k].id2
  }

  /** The value stored for the pair (a, b), looked up directly in (row, col) orientation. */
  function LookupPair<V>(ts: seq<Triplet<V>>, a: nat, b: nat): (r: Option<V>)
    ensures r.Some? ==> exists k | 0 <= k < |ts| :: ts[k].Key() == (a, b) && ts[k].val == r.value
    ensures r.None? <==> forall k | 0 <= k < |ts| :: ts[k].Key() != (a, b)
  {
    if ts == [] then None
    else
      var n := |ts| - 1;
      var earlier := LookupPair(ts[..n], a, b);
      if earlier.Some? then
        assert ts[..n][0] == ts[0];
        earlier
      else if ts[n].Key() == (a, b) then Some(ts[n].val)
      else
        assert forall k | 0 <= k < n :: ts[..n][k] == ts[k];
        None
  }

  /**
    The sparse matrix built from (val, (id2, id1)): triplet (i, j, v) is
    stored transposed, at [j, i].
   */
  function Transposed<V>(ts: seq<Triplet<V>>): (csr: map<(nat, nat), V>)
    ensures forall k | 0 <= k < |ts| :: (ts[k].id2, ts[k].id1) in csr
    ensures forall c | c in csr :: exists k | 0 <= k < |ts| :: (ts[k].id2, ts[k].id1) == c
  {
    if ts == [] then map[]
    else
      var n := |ts| - 1;
      var earlier := Transposed(ts[..n]);
      assert forall k | 0 <= k < n :: ts[..n][k] == ts[k];
      earlier[(ts[n].id2, ts[n].id1) := ts[n].val]
  }

  /** With distinct keys, the transposed cell [b, a] holds exactly the value stored for (a, b). */
  lemma {:induction false} TransposedAgrees<V>(ts: seq<Triplet<V>>, a: nat, b: nat)
    requires DistinctKeys(ts)
    ensures (b, a) in Transposed(ts) <==> LookupPair(ts, a, b).Some?
    ensures (b, a) in Transposed(ts) ==> Transposed(ts)[(b, a)] == LookupPair(ts, a, b).value
  {
    if ts != [] {
      var n := |ts| - 1;
      var prefix := ts[..n];
      assert DistinctKeys(prefix) by {
        forall k, l | 0 <= k < l < n ensures prefix[k].Key() != prefix[l].Key() {
          assert prefix[k] == ts[k] && prefix[l] == ts[l];
        }
      }
      TransposedAgrees(prefix, a, b);
    }
  }

  function CellOf<V>(o: Option<V>): Cell<V> {
    match o
    case Some(v) => Value(v)
    case None => Zero
  }

  /** Text row i: the cells for columns 0 .. i-1, then the diagonal. */
  ghost function TriangleRow<V>(ts: seq<Triplet<V>>, i: nat): seq<Cell<V>> {
    seq(i, j requires 0 <= j < i => CellOf(LookupPair(ts, j, i))) + [Diagonal]
  }

  /** The whole text file: the "1.0" line, then rows 1 .. nsnp-1. */
  ghost function LowerTriangle<V>(ts: seq<Triplet<V>>, nsnp: nat): seq<seq<Cell<V>>> {
    seq(if nsnp == 0 then 1 else nsnp, i requires 0 <= i => TriangleRow(ts, i))
  }

  /**
    Row i has i entries and then the diagonal; entry j is the value of the
    triplet (j, i) when there is one, and zero otherwise. Row 0 is the
    diagonal alone.
   */
  lemma TriangleRowEntries<V>(ts: seq<Triplet<V>>, i: nat)
    requires DistinctKeys(ts)
    ensures |TriangleRow(ts, i)| == i + 1 && TriangleRow(ts, i)[i] == Diagonal
    ensures i == 0 ==> TriangleRow(ts, i) == [Diagonal]
    ensures forall j, k | 0 <= j < i && 0 <= k < |ts| && ts[k].Key() == (j, i) ::
      TriangleRow(ts, i)[j] == Value(ts[k].val)
    ensures forall j | 0 <= j < i && (forall k | 0 <= k < |ts| :: ts[k].Key() != (j, i)) ::
      TriangleRow(ts, i)[j] == Zero
  {
    forall j, k | 0 <= j < i && 0 <= k < |ts| && ts[k].Key() == (j, i)
      ensures TriangleRow(ts, i)[j] == Value(ts[k].val)
    {
      var k' :| 0 <= k' < |ts| && ts[k'].Key() == (j, i) && ts[k'].val == LookupPair(ts, j, i).value;
      assert k == k';
    }
  }

  /** With no triplets, every entry below the diagonal of the text export is zero. */
  lemma EmptyTableTriangle<V>(nsnp: nat)
    ensures forall i, j | 0 <= j < i < |LowerTriangle<V>([], nsnp)| :: LowerTriangle<V>([], nsnp)[i][j] == Zero
  {
    var none: seq<Triplet<V>> := [];
    forall i, j | 0 <= j < i < |LowerTriangle(none, nsnp)| ensures LowerTriangle(none, nsnp)[i][j] == Zero {
      TriangleRowEntries(none, i);
    }
  }

  /**
    The lower-triangular export: refuses a table with some id1 >= id2 before
    anything is written; otherwise yields the "1.0" line and, for each
    i in 1 .. nsnp-1, row i of the transposed sparse matrix up to column i-1
    followed by the diagonal.
   */
  method WriteLowerTriangular<V>(ts: seq<Triplet<V>>, nsnp: nat) returns (r: Result<seq<seq<Cell<V>>>, Error>)
    requires DistinctKeys(ts)
    requires InRange(ts, nsnp)
    ensures r.Failure? <==> !LowerOrder(ts)
    ensures r.Failure? ==> r.error == NotLowerDiagonal
    ensures r.Success? ==> r.value == LowerTriangle(ts, nsnp)
  {
    if !LowerOrder(ts) {
      return Failure(NotLowerDiagonal);
    }
    var csr := Transposed(ts);
    var lines: seq<seq<Cell<V>>> := [[Diagonal]];
    var i := 1;
    while i < nsnp
      invariant 1 <= i <= if nsnp == 0 then 1 else nsnp
      invariant |lines| == i
      invariant forall k | 0 <= k < i :: lines[k] == TriangleRow(ts, k)
    {
      var values := seq(i, j requires 0 <= j < i => if (i, j) in csr then Value(csr[(i, j)]) else Zero);
      forall j | 0 <= j < i ensures values[j] == CellOf(LookupPair(ts, j, i)) {
        TransposedAgrees(ts, j, i);
      }
      assert values + [Diagonal] == TriangleRow(ts, i);
      lines := lines + [values + [Diagonal]];
      i := i + 1;
    }
    return Success(lines);
  }

  /** The four fields handed to the MATLAB writer. */
  datatype MatRecord<V> = MatRecord(id1: seq<nat>, id2: seq<nat>, val: seq<V>, nsnp: nat)

  /** The sparse export: indices shifted to 1-based, values unchanged, plus nsnp. */
  function SparseExport<V>(ts: seq<Triplet<V>>, nsnp: nat): (m: MatRecord<V>)
    ensures |m.id1| == |m.id2| == |m.val| == |ts| && m.nsnp == nsnp
  {
    MatRecord(seq(|ts|, k requires 0 <= k < |ts| => ts[k].id1 + 1),
              seq(|ts|, k requires 0 <= k < |ts| => ts[k].id2 + 1),
              seq(|ts|, k requires 0 <= k < |ts| => ts[k].val),
              nsnp)
  }

  /** The inverse of the 1-based shift: the 0-based triplets an export was made from. */
  function FromExport<V>(m: MatRecord<V>): (ts: seq<Triplet<V>>)
    requires |m.id1| == |m.id2| == |m.val|
    requires forall k | 0 <= k < |m.id1| :: m.id1[k] >= 1 && m.id2[k] >= 1
    ensures |ts| == |m.val|
  {
    seq(|m.val|, k requires 0 <= k < |m.val| => Triplet(m.id1[k] - 1, m.id2[k] - 1, m.val[k]))
  }

  /**
    The export loses nothing: reading it back gives the table, in order; and
    for an in-range table every exported index lies in [1, nsnp].
   */
  lemma SparseExportRoundTrip<V>(ts: seq<Triplet<V>>, nsnp: nat)
    ensures FromExport(SparseExport(ts, nsnp)) == ts
    ensures InRange(ts, nsnp) ==>
      forall k | 0 <= k < |ts| ::
        1 <= SparseExport(ts, nsnp).id1[k] <= nsnp && 1 <= SparseExport(ts, nsnp).id2[k] <= nsnp
  {
  }
}
