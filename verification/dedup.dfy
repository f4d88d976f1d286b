/**
  First-seen deduplication of the accumulated table on the (id1, id2) pair,
  with the count of dropped rows.
 */
module Dedup {
  import opened LdTypes

  /** Some earlier triplet of s has the same (id1, id2) as s[i]. */
  predicate SeenBefore<V>(s: seq<Triplet<V>>, i: nat)
    requires i < |s|
  {
    exists j | 0 <= j < i :: s[j].Key() == s[i].Key()
  }

  function KeySet<V>(s: seq<Triplet<V>>): set<(nat, nat)> {
    set k | 0 <= k < |s| :: s[k].Key()
  }

  /** The table that keeps, for each (id1, id2), only its first row. */
  function KeepFirst<V>(s: seq<Triplet<V>>): (r: seq<Triplet<V>>)
    ensures |r| <= |s|
  {
    if s == [] then []
    else
      var n := |s| - 1;
      var rest := KeepFirst(s[..n]);
      if SeenBefore(s, n) then rest else rest + [s[n]]
  }

  /** Positions of the first occurrence of each (id1, id2), in increasing order. */
  ghost function FirstPositions<V>(s: seq<Triplet<V>>): seq<nat> {
    if s == [] then []
    else
      var n := |s| - 1;
      FirstPositions(s[..n]) + (if SeenBefore(s, n) then [] else [n])
  }

  lemma SeenBeforePrefix<V>(s: seq<Triplet<V>>, n: nat, i: nat)
    requires i < n <= |s|
    ensures SeenBefore(s[..n], i) == SeenBefore(s, i)
  {
    if SeenBefore(s, i) {
      var j :| 0 <= j < i && s[j].Key() == s[i].Key();
      assert s[..n][j] == s[j];
    }
  }

  /**
    The kept table is the subsequence of first occurrences: its m-th row is
    the row at the m-th first-occurrence position, the positions increase,
    and a position is kept exactly when no earlier row has its key.
   */
  lemma {:induction false} KeepFirstSelectsFirstOccurrences<V>(s: seq<Triplet<V>>)
    ensures |KeepFirst(s)| == |FirstPositions(s)|
    ensures forall m, m' | 0 <= m < m' < |FirstPositions(s)| :: FirstPositions(s)[m] < FirstPositions(s)[m']
    ensures forall m | 0 <= m < |FirstPositions(s)| ::
      FirstPositions(s)[m] < |s| && KeepFirst(s)[m] == s[FirstPositions(s)[m]]
    ensures forall i | 0 <= i < |s| :: i in FirstPositions(s) <==> !SeenBefore(s, i)
  {
    if s != [] {
      var n := |s| - 1;
      var prefix := s[..n];
      KeepFirstSelectsFirstOccurrences(prefix);
      var ps', ps := FirstPositions(prefix), FirstPositions(s);
      var r', r := KeepFirst(prefix), KeepFirst(s);
      assert forall m | 0 <= m < |ps'| :: ps[m] == ps'[m] && r[m] == r'[m] && ps'[m] < n;
      assert forall k | 0 <= k < n :: s[k] == prefix[k];
      forall i | 0 <= i < n ensures SeenBefore(prefix, i) == SeenBefore(s, i) {
        SeenBeforePrefix(s, n, i);
      }
      assert n !in ps';
    }
  }

  /** The earliest row carrying the same key as s[i]. */
  lemma {:induction false} FirstOccurrenceOf<V>(s: seq<Triplet<V>>, i: nat) returns (j: nat)
    requires i < |s|
    ensures j <= i && s[j].Key() == s[i].Key() && !SeenBefore(s, j)
    decreases i
  {
    if SeenBefore(s, i) {
      var j' :| 0 <= j' < i && s[j'].Key() == s[i].Key();
      j := FirstOccurrenceOf(s, j');
    } else {
      j := i;
    }
  }

  /**
    Deduplication leaves pairwise-distinct keys, loses no key, and for every
    key keeps the row that came first in the input.
   */
  lemma KeepFirstKeys<V>(s: seq<Triplet<V>>)
    ensures DistinctKeys(KeepFirst(s))
    ensures KeySet(KeepFirst(s)) == KeySet(s)
    ensures forall m, i | 0 <= m < |KeepFirst(s)| && 0 <= i < |s| && !SeenBefore(s, i) ::
      KeepFirst(s)[m].Key() == s[i].Key() ==> KeepFirst(s)[m] == s[i]
  {
    var r, ps := KeepFirst(s), FirstPositions(s);
    KeepFirstSelectsFirstOccurrences(s);
    forall m, l | 0 <= m < l < |r| ensures r[m].Key() != r[l].Key() {
      assert ps[l] in ps;
      assert ps[m] < ps[l];
      assert !SeenBefore(s, ps[l]);
    }
    forall key | key in KeySet(s) ensures key in KeySet(r) {
      var i :| 0 <= i < |s| && s[i].Key() == key;
      var j := FirstOccurrenceOf(s, i);
      var m :| 0 <= m < |ps| && ps[m] == j;
      assert r[m].Key() == key;
    }
    forall m, i | 0 <= m < |r| && 0 <= i < |s| && !SeenBefore(s, i) && r[m].Key() == s[i].Key()
      ensures r[m] == s[i]
    {
      assert ps[m] in ps;
      var p := ps[m];
      assert !SeenBefore(s, p);
    }
  }

  /**
    `drop_duplicates(subset=['id1', 'id2'], keep='first')` followed by the
    drop count: one pass over the rows with the set of keys seen so far.
   */
  method DropDuplicates<V>(rows: seq<Triplet<V>>) returns (kept: seq<Triplet<V>>, dropped: nat)
    ensures kept == KeepFirst(rows)
    ensures dropped == |rows| - |kept|
  {
    var seen: set<(nat, nat)> := {};
    kept := [];
    var i := 0;
    while i < |rows|
      invariant 0 <= i <= |rows|
      invariant kept == KeepFirst(rows[..i])
      invariant seen == KeySet(rows[..i])
    {
      var prefix := rows[..i + 1];
      assert prefix[..i] == rows[..i];
      assert rows[i].Key() in seen <==> SeenBefore(prefix, i) by {
        if rows[i].Key() in seen {
          var j :| 0 <= j < i && rows[..i][j].Key() == rows[i].Key();
          assert prefix[j].Key() == prefix[i].Key();
        }
      }
      if rows[i].Key() !in seen {
        kept := kept + [rows[i]];
        seen := seen + {rows[i].Key()};
      }
      assert KeySet(prefix) == KeySet(rows[..i]) + {rows[i].Key()};
      i := i + 1;
    }
    assert rows[..i] == rows;
    dropped := |rows| - |kept|;
  }
}
