/** The order in which a group's fixtures are played: the outer walk over the
    group takes each team in turn, the inner walk each team after it. */
module Schedule {

  /** The fixtures (i, lo), (i, lo + 1), …, (i, hi - 1). */
  function Row(i: nat, lo: nat, hi: nat): (r: seq<(nat, nat)>)
    ensures |r| == if lo <= hi then hi - lo else 0
    ensures forall k :: 0 <= k < |r| ==> r[k] == (i, lo + k)
    decreases hi - lo
  {
    if lo >= hi then [] else Row(i, lo, hi - 1) + [(i, hi - 1)]
  }

  /** The fixtures of the first `i` teams of a group of `n`, each against every later team. */
  function PairsBefore(i: nat, n: nat): (r: seq<(nat, nat)>)
    ensures forall k :: 0 <= k < |r| ==> r[k].0 < i && r[k].0 < r[k].1 < n
  {
    if i == 0 then [] else PairsBefore(i - 1, n) + Row(i - 1, i, n)
  }

  /** All fixtures of a group of `n` teams. */
  function Fixtures(n: nat): seq<(nat, nat)> {
    PairsBefore(n, n)
  }

  /** Strict lexicographic order on fixtures. */
  predicate Before(p: (nat, nat), q: (nat, nat)) {
    p.0 < q.0 || (p.0 == q.0 && p.1 < q.1)
  }

  /** 0 + 1 + … + (m - 1). */
  function Triangle(m: nat): nat {
    if m == 0 then 0 else Triangle(m - 1) + (m - 1)
  }

  lemma {:induction false} TriangleClosed(m: nat)
    ensures 2 * Triangle(m) == m * (m - 1)
  {
    if m > 0 {
      TriangleClosed(m - 1);
      assert (m - 1) * (m - 2) + 2 * (m - 1) == (m - 1) * m;
    }
  }

  lemma {:induction false} PairsBeforeLength(i: nat, n: nat)
    requires i <= n
    ensures |PairsBefore(i, n)| + Triangle(n - i) == Triangle(n)
  {
    if i > 0 {
      PairsBeforeLength(i - 1, n);
      assert Triangle(n - i + 1) == Triangle(n - i) + (n - i);
    }
  }

  /** A group of `n` teams plays n(n-1)/2 fixtures. */
  lemma FixturesLength(n: nat)
    ensures |Fixtures(n)| == n * (n - 1) / 2
  {
    PairsBeforeLength(n, n);
    TriangleClosed(n);
  }

  lemma {:induction false} PairsBeforeComplete(i: nat, n: nat, a: nat, b: nat)
    requires a < i && a < b < n
    ensures (a, b) in PairsBefore(i, n)
  {
    if a == i - 1 {
      var row := Row(i - 1, i, n);
      assert row[b - i] == (a, b);
    } else {
      PairsBeforeComplete(i - 1, n, a, b);
    }
  }

  /** Every fixture pairs an earlier team with a later one, and every such pair is a fixture. */
  lemma FixturesExactly(n: nat, a: nat, b: nat)
    ensures (a, b) in Fixtures(n) <==> a < b < n
  {
    if a < b < n {
      PairsBeforeComplete(n, n, a, b);
    }
  }

  lemma {:induction false} PairsBeforeIncreasing(i: nat, n: nat)
    ensures forall k, l :: 0 <= k < l < |PairsBefore(i, n)| ==> Before(PairsBefore(i, n)[k], PairsBefore(i, n)[l])
  {
    if i > 0 {
      PairsBeforeIncreasing(i - 1, n);
    }
  }

  /** Fixtures come in strictly increasing (i, j) order, so none is played twice. */
  lemma FixturesIncreasing(n: nat)
    ensures forall k, l :: 0 <= k < l < |Fixtures(n)| ==> Before(Fixtures(n)[k], Fixtures(n)[l])
    ensures forall k, l :: 0 <= k < l < |Fixtures(n)| ==> Fixtures(n)[k] != Fixtures(n)[l]
  {
    PairsBeforeIncreasing(n, n);
  }
}
