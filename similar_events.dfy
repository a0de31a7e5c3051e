/** Event-pair selection over a similarity matrix (similar_events.py).
    The matrix is the square matrix of pairwise scores of the event
    descriptions; how the scores are computed is not modelled. */
module SimilarEvents {

  /** The threshold a pair's score must reach. */
  const Threshold: real := 0.25

  /** One emitted pair: both descriptions and their score. */
  datatype SimilarPair = SimilarPair(event1: string, event2: string, score: real)

  /** `m` is an n by n matrix. */
  ghost predicate Square(m: seq<seq<real>>, n: nat)
  {
    |m| == n && forall i :: 0 <= i < n ==> |m[i]| == n
  }

  /** Every index pair in `ps` addresses a cell of an n by n matrix. */
  ghost predicate InBounds(ps: seq<(nat, nat)>, n: nat)
  {
    forall k :: 0 <= k < |ps| ==> ps[k].0 < n && ps[k].1 < n
  }

  /** The index pairs (i, k), i < k < j, that the inner loop over row i keeps
      once it has scanned the columns before j, in scan order. */
  ghost function RowPairs(m: seq<seq<real>>, n: nat, i: nat, j: nat): seq<(nat, nat)>
    requires Square(m, n) && i < n && j <= n
  {
    if j <= i + 1 then []
    else RowPairs(m, n, i, j - 1) + (if m[i][j - 1] >= Threshold then [(i, j - 1)] else [])
  }

  /** The index pairs kept once the outer loop has finished rows 0 .. i-1. */
  ghost function RowsPairs(m: seq<seq<real>>, n: nat, i: nat): seq<(nat, nat)>
    requires Square(m, n) && i <= n
  {
    if i == 0 then [] else RowsPairs(m, n, i - 1) + RowPairs(m, n, i - 1, n)
  }

  /** The selected index pairs of the whole matrix. */
  ghost function SelectedPairs(m: seq<seq<real>>, n: nat): seq<(nat, nat)>
    requires Square(m, n)
  {
    RowsPairs(m, n, n)
  }

  /** The triples that the index pairs `ps` stand for. */
  ghost function Triples(events: seq<string>, m: seq<seq<real>>, ps: seq<(nat, nat)>): (r: seq<SimilarPair>)
    requires Square(m, |events|)
    requires InBounds(ps, |events|)
    ensures |r| == |ps|
  {
    seq(|ps|, k requires 0 <= k < |ps| =>
      SimilarPair(events[ps[k].0], events[ps[k].1], m[ps[k].0][ps[k].1]))
  }

  /** (i, j) comes strictly before (k, l) in lexicographic order. */
  predicate LexLess(a: (nat, nat), b: (nat, nat))
  {
    a.0 < b.0 || (a.0 == b.0 && a.1 < b.1)
  }

  /** Every pair a row keeps lies in that row, to the right of the diagonal
      and left of j, and reaches the threshold; and every such column is kept. */
  lemma {:induction false} RowPairsMembers(m: seq<seq<real>>, n: nat, i: nat, j: nat)
    requires Square(m, n) && i < n && j <= n
    ensures forall p :: p in RowPairs(m, n, i, j) <==>
      (p.0 == i && i < p.1 < j && m[i][p.1] >= Threshold)
  {
    if j > i + 1 {
      RowPairsMembers(m, n, i, j - 1);
    }
  }

  /** A row keeps at most one pair per column to the right of the diagonal,
      in increasing column order. */
  lemma {:induction false} RowPairsOrderedAndBounded(m: seq<seq<real>>, n: nat, i: nat, j: nat)
    requires Square(m, n) && i < n && j <= n
    ensures |RowPairs(m, n, i, j)| <= if j <= i + 1 then 0 else j - i - 1
    ensures forall a, b :: 0 <= a < b < |RowPairs(m, n, i, j)| ==>
      RowPairs(m, n, i, j)[a].1 < RowPairs(m, n, i, j)[b].1
  {
    if j > i + 1 {
      RowPairsOrderedAndBounded(m, n, i, j - 1);
      RowPairsMembers(m, n, i, j - 1);
      var prev := RowPairs(m, n, i, j - 1);
      forall a | 0 <= a < |prev| ensures prev[a].1 < j - 1 {
        assert prev[a] in prev;
      }
    }
  }

  /** After i rows every kept pair lies above the diagonal in one of those
      rows and reaches the threshold. */
  lemma {:induction false} RowsPairsSound(m: seq<seq<real>>, n: nat, i: nat)
    requires Square(m, n) && i <= n
    ensures forall p :: p in RowsPairs(m, n, i) ==> p.0 < i && p.0 < p.1 < n && m[p.0][p.1] >= Threshold
  {
    if i > 0 {
      RowsPairsSound(m, n, i - 1);
      RowPairsMembers(m, n, i - 1, n);
    }
  }

  /** After i rows every pair above the diagonal in those rows that reaches
      the threshold is kept. */
  lemma {:induction false} RowsPairsComplete(m: seq<seq<real>>, n: nat, i: nat)
    requires Square(m, n) && i <= n
    ensures forall a: nat, b: nat :: a < i && a < b < n && m[a][b] >= Threshold ==> (a, b) in RowsPairs(m, n, i)
  {
    if i > 0 {
      RowsPairsComplete(m, n, i - 1);
      RowPairsMembers(m, n, i - 1, n);
      var prev := RowsPairs(m, n, i - 1);
      var row := RowPairs(m, n, i - 1, n);
      assert RowsPairs(m, n, i) == prev + row;
      forall a: nat, b: nat | a < i && a < b < n && m[a][b] >= Threshold ensures (a, b) in prev + row {
        if a < i - 1 {
          assert (a, b) in prev;
        } else {
          assert (a, b) in row;
        }
      }
    }
  }

  /** After i rows the outer loop has kept exactly the pairs above the
      diagonal in those rows whose score reaches the threshold. */
  lemma RowsPairsMembers(m: seq<seq<real>>, n: nat, i: nat)
    requires Square(m, n) && i <= n
    ensures forall p :: p in RowsPairs(m, n, i) <==>
      (p.0 < i && p.0 < p.1 < n && m[p.0][p.1] >= Threshold)
  {
    RowsPairsSound(m, n, i);
    RowsPairsComplete(m, n, i);
  }

  /** After i rows the kept pairs are in strictly increasing lexicographic order. */
  lemma {:induction false} RowsPairsOrdered(m: seq<seq<real>>, n: nat, i: nat)
    requires Square(m, n) && i <= n
    ensures forall a, b :: 0 <= a < b < |RowsPairs(m, n, i)| ==>
      LexLess(RowsPairs(m, n, i)[a], RowsPairs(m, n, i)[b])
  {
    if i > 0 {
      var prev := RowsPairs(m, n, i - 1);
      var row := RowPairs(m, n, i - 1, n);
      RowsPairsOrdered(m, n, i - 1);
      RowsPairsMembers(m, n, i - 1);
      RowPairsMembers(m, n, i - 1, n);
      RowPairsOrderedAndBounded(m, n, i - 1, n);
      var all := prev + row;
      assert all == RowsPairs(m, n, i);
      forall a, b | 0 <= a < b < |all| ensures LexLess(all[a], all[b]) {
        if b < |prev| {
          assert all[a] == prev[a] && all[b] == prev[b];
        } else if a < |prev| {
          assert all[a] == prev[a] && prev[a] in prev;
          assert all[b] == row[b - |prev|] && row[b - |prev|] in row;
        } else {
          assert all[a] == row[a - |prev|] && all[b] == row[b - |prev|];
          assert row[a - |prev|] in row && row[b - |prev|] in row;
        }
      }
    }
  }

  /** The cells above the diagonal in rows 0 .. i-1, counted row by row. */
  lemma TriangleStep(n: nat, i: nat)
    requires 0 < i <= n
    ensures (i - 1) * (2 * n - (i - 1) - 1) + 2 * (n - i) == i * (2 * n - i - 1)
  {
    assert (i - 1) * (2 * n - i) == i * (2 * n - i) - (2 * n - i);
    assert i * (2 * n - i - 1) == i * (2 * n - i) - i;
  }

  /** After i rows at most i(2n-i-1)/2 pairs are kept: the number of cells
      above the diagonal in those rows. */
  lemma {:induction false} RowsPairsBound(m: seq<seq<real>>, n: nat, i: nat)
    requires Square(m, n) && i <= n
    ensures 2 * |RowsPairs(m, n, i)| <= i * (2 * n - i - 1)
  {
    if i > 0 {
      RowsPairsBound(m, n, i - 1);
      RowPairsOrderedAndBounded(m, n, i - 1, n);
      TriangleStep(n, i);
    }
  }

  /** The properties of the selection as a whole: every pair has i < j (no
      self-pairs, no mirrored duplicates) and a score at the threshold,
      every such pair is selected, the order is lexicographic, and there are
      at most n(n-1)/2 of them. */
  lemma SelectedPairsProperties(m: seq<seq<real>>, n: nat)
    requires Square(m, n)
    ensures forall p :: p in SelectedPairs(m, n) ==> p.0 < p.1 < n && m[p.0][p.1] >= Threshold
    ensures forall i, j :: 0 <= i < j < n && m[i][j] >= Threshold ==> (i, j) in SelectedPairs(m, n)
    ensures forall a, b :: 0 <= a < b < |SelectedPairs(m, n)| ==>
      LexLess(SelectedPairs(m, n)[a], SelectedPairs(m, n)[b])
    ensures 2 * |SelectedPairs(m, n)| <= n * (n - 1)
  {
    RowsPairsMembers(m, n, n);
    RowsPairsOrdered(m, n, n);
    RowsPairsBound(m, n, n);
  }

  /** Every pair a row keeps addresses a cell of the matrix. */
  lemma RowPairsInBounds(m: seq<seq<real>>, n: nat, i: nat, j: nat)
    requires Square(m, n) && i < n && j <= n
    ensures InBounds(RowPairs(m, n, i, j), n)
  {
    var ps := RowPairs(m, n, i, j);
    RowPairsMembers(m, n, i, j);
    forall k | 0 <= k < |ps| ensures ps[k].0 < n && ps[k].1 < n {
      assert ps[k] in ps;
    }
  }

  /** Every pair kept after i rows addresses a cell of the matrix. */
  lemma RowsPairsInBounds(m: seq<seq<real>>, n: nat, i: nat)
    requires Square(m, n) && i <= n
    ensures InBounds(RowsPairs(m, n, i), n)
  {
    var ps := RowsPairs(m, n, i);
    RowsPairsSound(m, n, i);
    forall k | 0 <= k < |ps| ensures ps[k].0 < n && ps[k].1 < n {
      assert ps[k] in ps;
    }
  }

  /** The triples of a concatenation are the concatenation of the triples. */
  lemma TriplesConcat(events: seq<string>, m: seq<seq<real>>, a: seq<(nat, nat)>, b: seq<(nat, nat)>)
    requires Square(m, |events|) && InBounds(a, |events|) && InBounds(b, |events|)
    ensures InBounds(a + b, |events|)
    ensures Triples(events, m, a + b) == Triples(events, m, a) + Triples(events, m, b)
  {
    var n := |events|;
    forall k | 0 <= k < |a + b| ensures (a + b)[k].0 < n && (a + b)[k].1 < n {
      if k >= |a| {
        assert (a + b)[k] == b[k - |a|];
      }
    }
    var l := Triples(events, m, a + b);
    var r := Triples(events, m, a) + Triples(events, m, b);
    forall k | 0 <= k < |l| ensures l[k] == r[k] {
      if k < |a| {
        assert (a + b)[k] == a[k];
      } else {
        assert (a + b)[k] == b[k - |a|];
      }
    }
  }

  /** What the inner loop over row i appends once it has scanned the
      columns before j, in scan order. */
  ghost function RowTriples(events: seq<string>, m: seq<seq<real>>, i: nat, j: nat): seq<SimilarPair>
    requires Square(m, |events|) && i < |events| && j <= |events|
  {
    if j <= i + 1 then []
    else
      var here := if m[i][j - 1] >= Threshold then [SimilarPair(events[i], events[j - 1], m[i][j - 1])] else [];
      RowTriples(events, m, i, j - 1) + here
  }

  /** What the outer loop has appended once it has finished rows 0 .. i-1. */
  ghost function RowsTriples(events: seq<string>, m: seq<seq<real>>, i: nat): seq<SimilarPair>
    requires Square(m, |events|) && i <= |events|
  {
    if i == 0 then [] else RowsTriples(events, m, i - 1) + RowTriples(events, m, i - 1, |events|)
  }

  /** A row's triples are the triples of the index pairs it keeps. */
  lemma {:induction false} RowTriplesAgree(events: seq<string>, m: seq<seq<real>>, i: nat, j: nat)
    requires Square(m, |events|) && i < |events| && j <= |events|
    ensures InBounds(RowPairs(m, |events|, i, j), |events|)
    ensures RowTriples(events, m, i, j) == Triples(events, m, RowPairs(m, |events|, i, j))
  {
    var n := |events|;
    RowPairsInBounds(m, n, i, j);
    if j > i + 1 {
      RowTriplesAgree(events, m, i, j - 1);
      var here: seq<(nat, nat)> := if m[i][j - 1] >= Threshold then [(i, j - 1)] else [];
      TriplesConcat(events, m, RowPairs(m, n, i, j - 1), here);
      assert RowPairs(m, n, i, j) == RowPairs(m, n, i, j - 1) + here;
    }
  }

  /** The triples after i rows are the triples of the index pairs kept. */
  lemma {:induction false} RowsTriplesAgree(events: seq<string>, m: seq<seq<real>>, i: nat)
    requires Square(m, |events|) && i <= |events|
    ensures InBounds(RowsPairs(m, |events|, i), |events|)
    ensures RowsTriples(events, m, i) == Triples(events, m, RowsPairs(m, |events|, i))
  {
    var n := |events|;
    RowsPairsInBounds(m, n, i);
    if i > 0 {
      RowsTriplesAgree(events, m, i - 1);
      RowTriplesAgree(events, m, i - 1, n);
      TriplesConcat(events, m, RowsPairs(m, n, i - 1), RowPairs(m, n, i - 1, n));
    }
  }

  /** Every emitted triple scores at least the threshold. */
  lemma SelectedTriplesScores(events: seq<string>, m: seq<seq<real>>)
    requires Square(m, |events|)
    ensures forall t :: t in RowsTriples(events, m, |events|) ==> t.score >= Threshold
  {
    var n := |events|;
    var done := SelectedPairs(m, n);
    RowsTriplesAgree(events, m, n);
    RowsPairsSound(m, n, n);
    var pairs := Triples(events, m, done);
    forall t | t in pairs ensures t.score >= Threshold {
      var k :| 0 <= k < |pairs| && pairs[k] == t;
      assert done[k] in done;
    }
  }

  /** Every pair above the diagonal that reaches the threshold is emitted. */
  lemma SelectedTriplesComplete(events: seq<string>, m: seq<seq<real>>)
    requires Square(m, |events|)
    ensures forall i, j :: 0 <= i < j < |events| && m[i][j] >= Threshold ==>
      SimilarPair(events[i], events[j], m[i][j]) in RowsTriples(events, m, |events|)
  {
    var n := |events|;
    var done := SelectedPairs(m, n);
    RowsTriplesAgree(events, m, n);
    RowsPairsComplete(m, n, n);
    var pairs := Triples(events, m, done);
    forall i, j | 0 <= i < j < n && m[i][j] >= Threshold
      ensures SimilarPair(events[i], events[j], m[i][j]) in pairs
    {
      assert (i, j) in done;
      var k :| 0 <= k < |done| && done[k] == (i, j);
      assert pairs[k] == SimilarPair(events[i], events[j], m[i][j]);
    }
  }

  /** The emitted triples are those of the selected index pairs, in the same
      order; each scores at the threshold, every pair above the diagonal
      that reaches it is there, and there are at most n(n-1)/2 of them. */
  lemma SelectedTriplesProperties(events: seq<string>, m: seq<seq<real>>)
    requires Square(m, |events|)
    ensures InBounds(SelectedPairs(m, |events|), |events|)
    ensures RowsTriples(events, m, |events|) == Triples(events, m, SelectedPairs(m, |events|))
    ensures forall t :: t in RowsTriples(events, m, |events|) ==> t.score >= Threshold
    ensures forall i, j :: 0 <= i < j < |events| && m[i][j] >= Threshold ==>
      SimilarPair(events[i], events[j], m[i][j]) in RowsTriples(events, m, |events|)
    ensures 2 * |RowsTriples(events, m, |events|)| <= |events| * (|events| - 1)
  {
    RowsTriplesAgree(events, m, |events|);
    RowsPairsBound(m, |events|, |events|);
    SelectedTriplesScores(events, m);
    SelectedTriplesComplete(events, m);
  }

  /** One column of the inner loop. */
  lemma RowTriplesStep(events: seq<string>, m: seq<seq<real>>, i: nat, j: nat)
    requires Square(m, |events|) && i + 1 <= j < |events|
    ensures m[i][j] >= Threshold ==>
      RowTriples(events, m, i, j + 1) == RowTriples(events, m, i, j) + [SimilarPair(events[i], events[j], m[i][j])]
    ensures m[i][j] < Threshold ==> RowTriples(events, m, i, j + 1) == RowTriples(events, m, i, j)
  {
    assert RowTriples(events, m, i, j) + [] == RowTriples(events, m, i, j);
  }

  /** The inner loop at similar_events.py:44-46: scan row i to the right of
      the diagonal and append each pair that reaches the threshold. */
  method ScanRow(events: seq<string>, m: seq<seq<real>>, i: nat, pairs: seq<SimilarPair>)
    returns (pairs': seq<SimilarPair>)
    requires Square(m, |events|) && i < |events|
    ensures pairs' == pairs + RowTriples(events, m, i, |events|)
  {
    var n := |events|;
    var scores := m[i];
    pairs' := pairs;
    assert pairs' == pairs + RowTriples(events, m, i, i + 1);
    for j := i + 1 to n
      invariant pairs' == pairs + RowTriples(events, m, i, j)
    {
      RowTriplesStep(events, m, i, j);
      if scores[j] >= Threshold {
        pairs' := pairs' + [SimilarPair(events[i], events[j], scores[j])];
      }
    }
  }

  /** The nested loops at similar_events.py:43-46: scan the upper triangle of
      the score matrix row by row. */
  method FindSimilarEventPairs(events: seq<string>, m: seq<seq<real>>) returns (pairs: seq<SimilarPair>)
    requires Square(m, |events|)
    ensures pairs == RowsTriples(events, m, |events|)
    ensures forall t :: t in pairs ==> t.score >= Threshold
    ensures forall i, j :: 0 <= i < j < |events| && m[i][j] >= Threshold ==>
      SimilarPair(events[i], events[j], m[i][j]) in pairs
    ensures 2 * |pairs| <= |events| * (|events| - 1)
  {
    pairs := [];
    for i := 0 to |events|
      invariant pairs == RowsTriples(events, m, i)
    {
      pairs := ScanRow(events, m, i, pairs);
    }
    SelectedTriplesProperties(events, m);
  }
}
