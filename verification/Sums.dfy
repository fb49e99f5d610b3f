/** Finite sums over sequences, and summing the same terms in another order. */
module Sums {

  function Sum(s: seq<int>): int {
    if s == [] then 0 else Sum(s[..|s| - 1]) + s[|s| - 1]
  }

  lemma {:induction false} SumUpdate(s: seq<int>, i: nat, v: int)
    requires i < |s|
    ensures Sum(s[i := v]) == Sum(s) - s[i] + v
  {
    var n := |s| - 1;
    if i == n {
      assert s[i := v][..n] == s[..n];
    } else {
      assert s[i := v][..n] == s[..n][i := v];
      SumUpdate(s[..n], i, v);
    }
  }

  lemma SumSnoc(s: seq<int>, v: int)
    ensures Sum(s + [v]) == Sum(s) + v
  {
    assert (s + [v])[..|s|] == s;
  }

  lemma {:induction false} SumConcat(s: seq<int>, t: seq<int>)
    ensures Sum(s + t) == Sum(s) + Sum(t)
  {
    if t == [] {
      assert s + t == s;
    } else {
      var n := |t| - 1;
      assert s + t == (s + t[..n]) + [t[n]];
      SumSnoc(s + t[..n], t[n]);
      SumConcat(s, t[..n]);
    }
  }

  /** s without its element at i. */
  function Without<T>(s: seq<T>, i: nat): (r: seq<T>)
    requires i < |s|
    ensures |r| == |s| - 1
  {
    s[..i] + s[i + 1..]
  }

  lemma SplitAt(s: seq<int>, i: nat)
    requires i < |s|
    ensures s == s[..i] + [s[i]] + s[i + 1..]
  {
  }

  lemma SumWithout(s: seq<int>, i: nat)
    requires i < |s|
    ensures Sum(Without(s, i)) == Sum(s) - s[i]
  {
    hide Sum;
    SplitAt(s, i);
    SumConcat(s[..i] + [s[i]], s[i + 1..]);
    SumSnoc(s[..i], s[i]);
    SumConcat(s[..i], s[i + 1..]);
  }

  lemma {:induction false} SumAdd(a: seq<int>, b: seq<int>, c: seq<int>)
    requires |a| == |b| == |c|
    requires forall i :: 0 <= i < |a| ==> c[i] == a[i] + b[i]
    ensures Sum(c) == Sum(a) + Sum(b)
  {
    if |a| > 0 {
      var n := |a| - 1;
      SumAdd(a[..n], b[..n], c[..n]);
    }
  }

  lemma {:induction false} SumScale(a: seq<int>, k: int, b: seq<int>)
    requires |a| == |b|
    requires forall i :: 0 <= i < |a| ==> b[i] == k * a[i]
    ensures Sum(b) == k * Sum(a)
  {
    if |a| > 0 {
      var n := |a| - 1;
      SumScale(a[..n], k, b[..n]);
      assert k * (Sum(a[..n]) + a[n]) == k * Sum(a[..n]) + k * a[n];
    }
  }

  lemma {:induction false} SumZero(s: seq<int>)
    requires forall i :: 0 <= i < |s| ==> s[i] == 0
    ensures Sum(s) == 0
  {
    if s != [] { SumZero(s[..|s| - 1]); }
  }

  lemma {:induction false} SumLe(a: seq<int>, b: seq<int>)
    requires |a| == |b|
    requires forall i :: 0 <= i < |a| ==> a[i] <= b[i]
    ensures Sum(a) <= Sum(b)
  {
    if |a| > 0 { SumLe(a[..|a| - 1], b[..|a| - 1]); }
  }

  // ----- the same terms, listed in some order

  ghost predicate Indices(order: seq<nat>, n: nat) {
    && (forall p :: 0 <= p < |order| ==> order[p] < n)
    && (forall p, q :: 0 <= p < q < |order| ==> order[p] != order[q])
  }

  /** The terms of f in the given order. */
  function Pick(f: seq<int>, order: seq<nat>): (r: seq<int>)
    requires forall p :: 0 <= p < |order| ==> order[p] < |f|
    ensures |r| == |order|
    ensures forall p :: 0 <= p < |order| ==> r[p] == f[order[p]]
  {
    seq(|order|, p requires 0 <= p < |order| => f[order[p]])
  }

  /** The terms of f that the order lists, each in its own place; zero elsewhere. */
  function Mark(f: seq<int>, order: seq<nat>): (r: seq<int>)
    ensures |r| == |f|
    ensures forall i :: 0 <= i < |f| ==> r[i] == if i in order then f[i] else 0
  {
    seq(|f|, i requires 0 <= i < |f| => if i in order then f[i] else 0)
  }

  lemma {:induction false} SumReorder(f: seq<int>, order: seq<nat>)
    requires Indices(order, |f|)
    ensures Sum(Pick(f, order)) == Sum(Mark(f, order))
  {
    if order == [] {
      SumZero(Mark(f, order));
    } else {
      var n := |order| - 1;
      var rest, x := order[..n], order[n];
      SumReorder(f, rest);
      assert Pick(f, order)[..n] == Pick(f, rest);
      assert x !in rest;
      assert forall i :: 0 <= i < |f| ==> (i in order <==> i in rest || i == x);
      assert Mark(f, order) == Mark(f, rest)[x := f[x]];
      SumUpdate(Mark(f, rest), x, f[x]);
    }
  }
}
