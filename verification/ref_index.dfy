/**
  The reference index: every reference row's (CHR, BP) mapped to the row's
  0-based position, and the check that no (CHR, BP) occurs twice.
 */
module RefIndex {
  import opened LdTypes

  ghost predicate Distinct(rows: seq<Locus>) {
    forall i, j | 0 <= i < j < |rows| :: rows[i] != rows[j]
  }

  ghost function Keys(rows: seq<Locus>): set<Locus> {
    set x | x in rows
  }

  /**
    The dictionary built from (key, index) pairs in row order: a later row
    overwrites an earlier row with the same key, so each key ends up with
    the position of its LAST occurrence.
   */
  function IndexMap(rows: seq<Locus>): (m: map<Locus, nat>)
    ensures m.Keys == Keys(rows)
    ensures forall k | k in m :: m[k] < |rows| && rows[m[k]] == k
    ensures forall i | 0 <= i < |rows| :: i <= m[rows[i]]
  {
    if rows == [] then map[]
    else
      var n := |rows| - 1;
      assert rows == rows[..n] + [rows[n]];
      IndexMap(rows[..n])[rows[n] := n]
  }

  /** Appending a key not yet present keeps the keys distinct. */
  lemma DistinctAppend(prefix: seq<Locus>, x: Locus)
    requires Distinct(prefix) && x !in prefix
    ensures Distinct(prefix + [x])
  {
    var rows := prefix + [x];
    forall i, j | 0 <= i < j < |rows| ensures rows[i] != rows[j] {
      assert rows[i] == prefix[i];
    }
  }

  /** A sequence has as many distinct elements as positions exactly when no element repeats. */
  lemma {:induction false} DistinctIffCard(rows: seq<Locus>)
    ensures |Keys(rows)| <= |rows|
    ensures |Keys(rows)| == |rows| <==> Distinct(rows)
  {
    if rows != [] {
      var n := |rows| - 1;
      var prefix := rows[..n];
      DistinctIffCard(prefix);
      assert rows == prefix + [rows[n]];
      assert Keys(rows) == Keys(prefix) + {rows[n]};
      if rows[n] in Keys(prefix) {
        var j :| 0 <= j < n && prefix[j] == rows[n];
        assert rows[j] == rows[n];
        assert !Distinct(rows);
      } else {
        assert |Keys(rows)| == |Keys(prefix)| + 1;
        if Distinct(prefix) {
          DistinctAppend(prefix, rows[n]);
        } else {
          var i, j :| 0 <= i < j < n && prefix[i] == prefix[j];
          assert rows[i] == rows[j];
        }
      }
    }
  }

  /**
    Index construction: succeeds exactly when the (CHR, BP) keys are pairwise
    distinct, and then maps each row's key to that row's position and nothing
    else; otherwise fails with DuplicatedChrPos.
   */
  function BuildIndex(rows: seq<Locus>): (r: Result<map<Locus, nat>, Error>)
    ensures r.Success? <==> Distinct(rows)
    ensures r.Failure? ==> r.error == DuplicatedChrPos
    ensures r.Success? ==> r.value.Keys == Keys(rows)
    ensures r.Success? ==> forall i | 0 <= i < |rows| :: r.value[rows[i]] == i
    ensures r.Success? ==> forall k | k in r.value :: r.value[k] < |rows|
  {
    var m := IndexMap(rows);
    DistinctIffCard(rows);
    assert |m| == |m.Keys|;
    if |m| != |rows| then Failure(DuplicatedChrPos) else Success(m)
  }

  /**
    For distinct keys the index is the one map whose keys are the rows' keys
    and which sends each row's key to its position.
   */
  lemma BuildIndexIsPositionMap(rows: seq<Locus>, positions: map<Locus, nat>)
    requires Distinct(rows)
    requires positions.Keys == Keys(rows)
    requires forall i | 0 <= i < |rows| :: positions[rows[i]] == i
    ensures BuildIndex(rows) == Success(positions)
  {
    var index := BuildIndex(rows).value;
    forall k | k in index ensures index[k] == positions[k] {
      var i :| 0 <= i < |rows| && rows[i] == k;
    }
    assert index.Keys == positions.Keys;
    assert index == positions;
  }
}
