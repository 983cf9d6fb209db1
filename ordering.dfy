/** The ordering behind the team table's in-place `sort(key, reverse)`.

    A sort key is a tuple of integers, compared the way Python compares tuples
    (lexicographically, a proper prefix first). `SortBy` is the stable sort the
    table relies on: equal keys keep their original relative order, also when
    `reverse` asks for descending order. */
module Ordering {

  /** Python's `<=` on tuples of integers. */
  predicate LexLe(u: seq<int>, v: seq<int>)
    decreases |u|
  {
    if u == [] then true
    else if v == [] then false
    else u[0] < v[0] || (u[0] == v[0] && LexLe(u[1..], v[1..]))
  }

  lemma {:induction false} LexLeReflexive(u: seq<int>)
    ensures LexLe(u, u)
    decreases |u|
  {
    if u != [] {
      LexLeReflexive(u[1..]);
    }
  }

  lemma {:induction false} LexLeTotal(u: seq<int>, v: seq<int>)
    ensures LexLe(u, v) || LexLe(v, u)
    decreases |u|
  {
    if u != [] && v != [] && u[0] == v[0] {
      LexLeTotal(u[1..], v[1..]);
    }
  }

  lemma {:induction false} LexLeTransitive(u: seq<int>, v: seq<int>, w: seq<int>)
    requires LexLe(u, v) && LexLe(v, w)
    ensures LexLe(u, w)
    decreases |u|
  {
    if u != [] && v != [] && w != [] && u[0] == v[0] == w[0] {
      LexLeTransitive(u[1..], v[1..], w[1..]);
    }
  }

  lemma {:induction false} LexLeAntisymmetric(u: seq<int>, v: seq<int>)
    requires LexLe(u, v) && LexLe(v, u)
    ensures u == v
    decreases |u|
  {
    if u != [] {
      LexLeAntisymmetric(u[1..], v[1..]);
      assert u == [u[0]] + u[1..];
      assert v == [v[0]] + v[1..];
    }
  }

  /** An element with key `ka` may stand before one with key `kb`: ascending
      order, or descending order when `reverse` is set. */
  predicate InOrder(ka: seq<int>, kb: seq<int>, reverse: bool) {
    if reverse then LexLe(kb, ka) else LexLe(ka, kb)
  }

  lemma InOrderReflexive(k: seq<int>, reverse: bool)
    ensures InOrder(k, k, reverse)
  {
    LexLeReflexive(k);
  }

  lemma InOrderTotal(ka: seq<int>, kb: seq<int>, reverse: bool)
    ensures InOrder(ka, kb, reverse) || InOrder(kb, ka, reverse)
  {
    LexLeTotal(ka, kb);
  }

  lemma InOrderTransitive(ka: seq<int>, kb: seq<int>, kc: seq<int>, reverse: bool)
    requires InOrder(ka, kb, reverse) && InOrder(kb, kc, reverse)
    ensures InOrder(ka, kc, reverse)
  {
    if reverse { LexLeTransitive(kc, kb, ka); } else { LexLeTransitive(ka, kb, kc); }
  }

  /** Every adjacent pair of `s` is in order. */
  predicate Sorted<T>(key: T -> seq<int>, reverse: bool, s: seq<T>) {
    forall i :: 0 < i < |s| ==> InOrder(key(s[i - 1]), key(s[i]), reverse)
  }

  /** The elements of `s` whose key is `k`, in their order in `s`. */
  function WithKey<T>(key: T -> seq<int>, k: seq<int>, s: seq<T>): seq<T> {
    if s == [] then []
    else (if key(s[0]) == k then [s[0]] else []) + WithKey(key, k, s[1..])
  }

  /** Puts `x` in front of the first element it may precede. */
  function Insert<T>(key: T -> seq<int>, reverse: bool, x: T, s: seq<T>): seq<T> {
    if s == [] then [x]
    else if InOrder(key(x), key(s[0]), reverse) then [x] + s
    else [s[0]] + Insert(key, reverse, x, s[1..])
  }

  /** Stable insertion sort by `key`, descending when `reverse` holds. */
  function SortBy<T>(key: T -> seq<int>, reverse: bool, s: seq<T>): (r: seq<T>)
    ensures |r| == |s|
  {
    if s == [] then []
    else
      var sorted := SortBy(key, reverse, s[1..]);
      InsertShape(key, reverse, s[0], sorted);
      Insert(key, reverse, s[0], sorted)
  }

  lemma {:induction false} InsertShape<T>(key: T -> seq<int>, reverse: bool, x: T, s: seq<T>)
    ensures |Insert(key, reverse, x, s)| == |s| + 1
    ensures multiset(Insert(key, reverse, x, s)) == multiset(s) + multiset{x}
    ensures Insert(key, reverse, x, s)[0] == x || (s != [] && Insert(key, reverse, x, s)[0] == s[0])
  {
    if s != [] && !InOrder(key(x), key(s[0]), reverse) {
      InsertShape(key, reverse, x, s[1..]);
      assert s == [s[0]] + s[1..];
    }
  }

  lemma {:induction false} InsertSorted<T>(key: T -> seq<int>, reverse: bool, x: T, s: seq<T>)
    requires Sorted(key, reverse, s)
    ensures Sorted(key, reverse, Insert(key, reverse, x, s))
  {
    if s != [] && !InOrder(key(x), key(s[0]), reverse) {
      var tail := Insert(key, reverse, x, s[1..]);
      InsertSorted(key, reverse, x, s[1..]);
      InsertShape(key, reverse, x, s[1..]);
      InOrderTotal(key(x), key(s[0]), reverse);
      assert InOrder(key(s[0]), key(tail[0]), reverse);
      var r := [s[0]] + tail;
      forall i | 0 < i < |r| ensures InOrder(key(r[i - 1]), key(r[i]), reverse) {
        if i > 1 { assert r[i - 1] == tail[i - 2] && r[i] == tail[i - 1]; }
      }
    }
  }

  lemma WithKeyCons<T>(key: T -> seq<int>, k: seq<int>, x: T, s: seq<T>)
    ensures WithKey(key, k, [x] + s) == (if key(x) == k then [x] else []) + WithKey(key, k, s)
  {
    assert ([x] + s)[1..] == s;
  }

  lemma {:induction false} InsertWithKey<T>(key: T -> seq<int>, reverse: bool, x: T, s: seq<T>, k: seq<int>)
    ensures WithKey(key, k, Insert(key, reverse, x, s)) == WithKey(key, k, [x] + s)
  {
    if s != [] && !InOrder(key(x), key(s[0]), reverse) {
      var rest := Insert(key, reverse, x, s[1..]);
      var w := WithKey(key, k, s[1..]);
      var cx := if key(x) == k then [x] else [];
      var c0 := if key(s[0]) == k then [s[0]] else [];
      InsertWithKey(key, reverse, x, s[1..], k);
      InOrderReflexive(key(x), reverse);
      assert cx == [] || c0 == [];
      assert Insert(key, reverse, x, s) == [s[0]] + rest;
      WithKeyCons(key, k, s[0], rest);
      WithKeyCons(key, k, x, s[1..]);
      assert WithKey(key, k, Insert(key, reverse, x, s)) == c0 + (cx + w);
      WithKeyCons(key, k, x, s);
      WithKeyCons(key, k, s[0], s[1..]);
      assert [s[0]] + s[1..] == s;
      assert WithKey(key, k, [x] + s) == cx + (c0 + w);
      assert c0 + (cx + w) == cx + (c0 + w);
    }
  }

  /** The sort's result is ordered by the key. */
  lemma {:induction false} SortBySorted<T>(key: T -> seq<int>, reverse: bool, s: seq<T>)
    ensures Sorted(key, reverse, SortBy(key, reverse, s))
  {
    if s != [] {
      SortBySorted(key, reverse, s[1..]);
      InsertSorted(key, reverse, s[0], SortBy(key, reverse, s[1..]));
    }
  }

  /** The sort's result is a permutation of its input. */
  lemma {:induction false} SortByPermutes<T>(key: T -> seq<int>, reverse: bool, s: seq<T>)
    ensures |SortBy(key, reverse, s)| == |s|
    ensures multiset(SortBy(key, reverse, s)) == multiset(s)
  {
    if s != [] {
      SortByPermutes(key, reverse, s[1..]);
      InsertShape(key, reverse, s[0], SortBy(key, reverse, s[1..]));
      assert s == [s[0]] + s[1..];
    }
  }

  /** The sort is stable: the elements sharing any one key keep their order. */
  lemma {:induction false} SortByStable<T>(key: T -> seq<int>, reverse: bool, s: seq<T>, k: seq<int>)
    ensures WithKey(key, k, SortBy(key, reverse, s)) == WithKey(key, k, s)
  {
    if s != [] {
      SortByStable(key, reverse, s[1..], k);
      InsertWithKey(key, reverse, s[0], SortBy(key, reverse, s[1..]), k);
    }
  }

  /** An already ordered list is left as it is. */
  lemma {:induction false} SortBySortedIdentity<T>(key: T -> seq<int>, reverse: bool, s: seq<T>)
    requires Sorted(key, reverse, s)
    ensures SortBy(key, reverse, s) == s
  {
    if s != [] {
      assert Sorted(key, reverse, s[1..]) by {
        forall i | 0 < i < |s[1..]| ensures InOrder(key(s[1..][i - 1]), key(s[1..][i]), reverse) {
          assert s[1..][i - 1] == s[i] && s[1..][i] == s[i + 1];
        }
      }
      SortBySortedIdentity(key, reverse, s[1..]);
      assert [s[0]] + s[1..] == s;
    }
  }

  /** Sorting twice with the same key gives the order of sorting once. */
  lemma SortByIdempotent<T>(key: T -> seq<int>, reverse: bool, s: seq<T>)
    ensures SortBy(key, reverse, SortBy(key, reverse, s)) == SortBy(key, reverse, s)
  {
    SortBySorted(key, reverse, s);
    SortBySortedIdentity(key, reverse, SortBy(key, reverse, s));
  }

  /** In an ordered list every element may precede every later one, not only its neighbour. */
  lemma {:induction false} SortedPairwise<T>(key: T -> seq<int>, reverse: bool, s: seq<T>, i: nat, j: nat)
    requires Sorted(key, reverse, s)
    requires i <= j < |s|
    ensures InOrder(key(s[i]), key(s[j]), reverse)
    decreases j - i
  {
    if i == j {
      InOrderReflexive(key(s[i]), reverse);
    } else {
      SortedPairwise(key, reverse, s, i + 1, j);
      InOrderTransitive(key(s[i]), key(s[i + 1]), key(s[j]), reverse);
    }
  }

  /** The first components of a sequence of pairs. */
  function Firsts<A, B>(ps: seq<(A, B)>): (r: seq<A>)
    ensures |r| == |ps| && forall i {:trigger r[i]} :: 0 <= i < |ps| ==> r[i] == ps[i].0
  {
    if ps == [] then [] else [ps[0].0] + Firsts(ps[1..])
  }

  /** The second components of a sequence of pairs. */
  function Seconds<A, B>(ps: seq<(A, B)>): (r: seq<B>)
    ensures |r| == |ps| && forall i {:trigger r[i]} :: 0 <= i < |ps| ==> r[i] == ps[i].1
  {
    if ps == [] then [] else [ps[0].1] + Seconds(ps[1..])
  }

  /** A key on pairs that looks only at the first component. */
  function OnFirst<A, B>(key: A -> seq<int>): ((A, B)) -> seq<int> {
    (p: (A, B)) => key(p.0)
  }

  lemma FirstsCons<A, B>(p: (A, B), ps: seq<(A, B)>)
    ensures Firsts([p] + ps) == [p.0] + Firsts(ps) && Seconds([p] + ps) == [p.1] + Seconds(ps)
  {
    assert ([p] + ps)[1..] == ps;
  }

  lemma {:induction false} InsertFirsts<A, B>(key: A -> seq<int>, reverse: bool, x: (A, B), ps: seq<(A, B)>)
    ensures Firsts(Insert(OnFirst(key), reverse, x, ps)) == Insert(key, reverse, x.0, Firsts(ps))
  {
    var k := OnFirst<A, B>(key);
    if ps == [] {
    } else if InOrder(k(x), k(ps[0]), reverse) {
      FirstsCons(x, ps);
    } else {
      var rest := Insert(k, reverse, x, ps[1..]);
      InsertFirsts(key, reverse, x, ps[1..]);
      assert Insert(k, reverse, x, ps) == [ps[0]] + rest;
      FirstsCons(ps[0], rest);
      FirstsCons(ps[0], ps[1..]);
      assert [ps[0]] + ps[1..] == ps;
      assert k(x) == key(x.0) && k(ps[0]) == key(ps[0].0);
      assert Insert(key, reverse, x.0, Firsts(ps)) == [ps[0].0] + Insert(key, reverse, x.0, Firsts(ps[1..]));
    }
  }

  lemma {:induction false} InsertSeconds<A, B>(key: A -> seq<int>, reverse: bool, x: (A, B), ps: seq<(A, B)>)
    ensures multiset(Seconds(Insert(OnFirst(key), reverse, x, ps))) == multiset(Seconds(ps)) + multiset{x.1}
  {
    var k := OnFirst<A, B>(key);
    if ps == [] {
    } else if InOrder(k(x), k(ps[0]), reverse) {
      FirstsCons(x, ps);
    } else {
      var rest := Insert(k, reverse, x, ps[1..]);
      InsertSeconds(key, reverse, x, ps[1..]);
      assert Seconds(Insert(k, reverse, x, ps)) == [ps[0].1] + Seconds(rest) by {
        assert Insert(k, reverse, x, ps) == [ps[0]] + rest;
        FirstsCons(ps[0], rest);
      }
      assert Seconds(ps) == [ps[0].1] + Seconds(ps[1..]) by {
        FirstsCons(ps[0], ps[1..]);
        assert [ps[0]] + ps[1..] == ps;
      }
      calc {
        multiset(Seconds(Insert(k, reverse, x, ps)));
        multiset([ps[0].1] + Seconds(rest));
        multiset{ps[0].1} + multiset(Seconds(rest));
        multiset{ps[0].1} + (multiset(Seconds(ps[1..])) + multiset{x.1});
        multiset([ps[0].1] + Seconds(ps[1..])) + multiset{x.1};
        multiset(Seconds(ps)) + multiset{x.1};
      }
    }
  }

  /** Sorting pairs by a key on the first component sorts the first components
      and permutes the second components. */
  lemma {:induction false} SortByFirsts<A, B>(key: A -> seq<int>, reverse: bool, ps: seq<(A, B)>)
    ensures Firsts(SortBy(OnFirst(key), reverse, ps)) == SortBy(key, reverse, Firsts(ps))
    ensures multiset(Seconds(SortBy(OnFirst(key), reverse, ps))) == multiset(Seconds(ps))
  {
    if ps != [] {
      SortByFirsts(key, reverse, ps[1..]);
      InsertFirsts(key, reverse, ps[0], SortBy(OnFirst(key), reverse, ps[1..]));
      InsertSeconds(key, reverse, ps[0], SortBy(OnFirst(key), reverse, ps[1..]));
      assert Firsts(ps)[1..] == Firsts(ps[1..]);
      assert Seconds(ps) == [ps[0].1] + Seconds(ps[1..]);
    }
  }

  /** No element occurs twice. */
  predicate Distinct<T(==)>(s: seq<T>) {
    forall i, j :: 0 <= i < j < |s| ==> s[i] != s[j]
  }

  lemma {:induction false} DistinctPermutation<T>(s: seq<T>, t: seq<T>)
    requires Distinct(s) && multiset(t) == multiset(s)
    ensures Distinct(t)
  {
    forall i, j | 0 <= i < j < |t| ensures t[i] != t[j] {
      if t[i] == t[j] {
        var x := t[i];
        assert multiset(t)[x] >= 2 by {
          assert t == t[..j] + [t[j]] + t[j + 1..];
          assert x in multiset(t[..j]) by { assert t[..j][i] == x; }
        }
        CountAtMostOne(s, x);
      }
    }
  }

  lemma {:induction false} CountAtMostOne<T>(s: seq<T>, x: T)
    requires Distinct(s)
    ensures multiset(s)[x] <= 1
  {
    if s != [] {
      assert Distinct(s[1..]) by {
        forall i, j | 0 <= i < j < |s[1..]| ensures s[1..][i] != s[1..][j] {
          assert s[1..][i] == s[i + 1] && s[1..][j] == s[j + 1];
        }
      }
      CountAtMostOne(s[1..], x);
      assert s == [s[0]] + s[1..];
      if s[0] == x {
        assert x !in s[1..];
      }
    }
  }

  /** Removing an element leaves only elements that were there. */
  lemma RemovedMembers<T>(s: seq<T>, k: nat)
    requires k < |s|
    ensures forall x :: x in s[..k] + s[k + 1..] ==> x in s
  {
    var r := s[..k] + s[k + 1..];
    forall x | x in r ensures x in s {
      var i :| 0 <= i < |r| && r[i] == x;
      if i < k {
        assert s[i] == x;
      } else {
        assert s[i + 1] == x;
      }
    }
  }

  lemma DistinctRemove<T>(s: seq<T>, k: nat)
    requires Distinct(s) && k < |s|
    ensures Distinct(s[..k] + s[k + 1..])
  {
    var r := s[..k] + s[k + 1..];
    forall i, j | 0 <= i < j < |r| ensures r[i] != r[j] {
      var i' := if i < k then i else i + 1;
      var j' := if j < k then j else j + 1;
      assert r[i] == s[i'] && r[j] == s[j'];
    }
  }

  /** `Distinct`, stated one element at a time so that a list invariant using it
      unfolds one step at a time. */
  predicate NoRepeats<T(==)>(s: seq<T>) {
    s == [] || (s[0] !in s[1..] && NoRepeats(s[1..]))
  }

  lemma {:induction false} NoRepeatsDistinct<T>(s: seq<T>)
    ensures NoRepeats(s) <==> Distinct(s)
  {
    if s != [] {
      NoRepeatsDistinct(s[1..]);
      if Distinct(s) {
        forall i, j | 0 <= i < j < |s[1..]| ensures s[1..][i] != s[1..][j] {
          assert s[1..][i] == s[i + 1] && s[1..][j] == s[j + 1];
        }
      }
      if NoRepeats(s) {
        forall i, j | 0 <= i < j < |s| ensures s[i] != s[j] {
          if i == 0 {
            assert s[j] == s[1..][j - 1];
          } else {
            assert s[i] == s[1..][i - 1] && s[j] == s[1..][j - 1];
          }
        }
      }
    }
  }
}
