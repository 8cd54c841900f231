/** Sums of a map's values over a finite set of its keys. */
module Sums {

  ghost function Sum<K>(w: map<K, int>, s: set<K>): int
    requires s <= w.Keys
    decreases |s|
  {
    if s == {} then 0
    else
      var x :| x in s;
      w[x] + Sum(w, s - {x})
  }

  /** The order in which elements are added does not matter. */
  lemma {:induction false} SumRemove<K>(w: map<K, int>, s: set<K>, x: K)
    requires s <= w.Keys && x in s
    ensures Sum(w, s) == w[x] + Sum(w, s - {x})
    decreases |s|
  {
    var y :| y in s && Sum(w, s) == w[y] + Sum(w, s - {y});
    if y != x {
      SumRemove(w, s - {y}, x);
      SumRemove(w, s - {x}, y);
      assert s - {y} - {x} == s - {x} - {y};
    }
  }

  lemma SumInsert<K>(w: map<K, int>, s: set<K>, x: K)
    requires s <= w.Keys && x in w && x !in s
    ensures Sum(w, s + {x}) == Sum(w, s) + w[x]
  {
    SumRemove(w, s + {x}, x);
    assert s + {x} - {x} == s;
  }

  lemma {:induction false} SumAgree<K>(w: map<K, int>, v: map<K, int>, s: set<K>)
    requires s <= w.Keys && s <= v.Keys && forall x :: x in s ==> w[x] == v[x]
    ensures Sum(w, s) == Sum(v, s)
    decreases |s|
  {
    if s != {} {
      var x :| x in s;
      SumRemove(w, s, x);
      SumRemove(v, s, x);
      SumAgree(w, v, s - {x});
    }
  }

  /** A bound by a multiple, element by element, bounds the sums. */
  lemma {:induction false} SumScaled<K>(v: map<K, int>, w: map<K, int>, s: set<K>, m: int)
    requires s <= w.Keys && s <= v.Keys
    ensures (forall x :: x in s ==> v[x] >= m * w[x]) ==> Sum(v, s) >= m * Sum(w, s)
    ensures (forall x :: x in s ==> v[x] <= m * w[x]) ==> Sum(v, s) <= m * Sum(w, s)
    decreases |s|
  {
    if s != {} {
      var x :| x in s;
      SumRemove(w, s, x);
      SumRemove(v, s, x);
      SumScaled(v, w, s - {x}, m);
      assert m * Sum(w, s) == m * w[x] + m * Sum(w, s - {x});
    }
  }

  lemma OneMore(a: int, n: nat)
    ensures a * (n + 1) == a * n + a
  {}

  lemma {:induction false} SumBetween<K>(w: map<K, int>, s: set<K>, lo: int, hi: int)
    requires s <= w.Keys && forall x :: x in s ==> lo <= w[x] <= hi
    ensures lo * |s| <= Sum(w, s) <= hi * |s|
    decreases |s|
  {
    if s != {} {
      var x :| x in s;
      SumRemove(w, s, x);
      hide Sum;
      SumBetween(w, s - {x}, lo, hi);
      OneMore(lo, |s - {x}|);
      OneMore(hi, |s - {x}|);
      assert |s| == |s - {x}| + 1;
    }
  }
}
