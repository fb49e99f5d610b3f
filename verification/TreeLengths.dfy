/** What the first pass has found, as sums over the codes in order of their numbers. */
module TreeLengths {
  import opened Sums
  import opened Rfc1951
  import opened Heaps
  import opened TreeLoop
  import opened TreeShape
  import opened BitLengths
  import opened FirstPasses

  /** The bits that n codes take: each as often as f says, with its length and its extra bits. */
  function TotalBits(f: seq<nat>, lens: seq<nat>, xs: seq<nat>, n: nat): nat
    requires n <= |f| && n <= |lens| && n <= |xs|
  {
    if n == 0 then 0 else TotalBits(f, lens, xs, n - 1) + f[n - 1] * (lens[n - 1] + xs[n - 1])
  }

  // ----- a sum over the nodes of the tree that only the codes contribute to

  lemma {:induction false} SumTail(g: seq<int>, n: nat)
    requires n <= |g| && forall i :: n <= i < |g| ==> g[i] == 0
    ensures Sum(g) == Sum(g[..n])
    decreases |g|
  {
    if n < |g| {
      SumTail(g[..|g| - 1], n);
      assert g[..|g| - 1][..n] == g[..n];
    } else {
      assert g[..n] == g;
    }
  }

  /** Only the first n terms matter, and of those only the ones in the order after its head. */
  ghost predicate OnlyListed(g: seq<int>, order: seq<nat>, n: nat) {
    && |order| > 0 && Indices(order, |g|) && n <= |g| && g[order[0]] == 0
    && (forall i :: 0 <= i < |g| && i !in order ==> g[i] == 0)
    && (forall i :: n <= i < |g| ==> g[i] == 0)
  }

  lemma PickAll(g: seq<int>, order: seq<nat>, n: nat)
    requires OnlyListed(g, order, n)
    ensures Sum(Sons(g, order)) == Sum(g[..n])
  {
    PickHead(g, order);
    SumReorder(g, order);
    assert Mark(g, order) == g;
    SumTail(g, n);
  }

  /** The leaves of the order are the codes that occur, and none is above maxCode. */
  ghost predicate LeavesAre(order: seq<ush>, f: seq<ush>, d: seq<ush>, elems: nat, root: nat, maxCode: nat) {
    && |order| > 0 && Indices(order, root + 1) && order[0] == root
    && maxCode < elems <= root < |d| == |f|
    && Unused(f, d, elems)
    && (forall i :: maxCode < i < elems ==> f[i] == 0)
    && (forall i :: 0 <= i < elems && f[i] != 0 ==> i in order)
    && (forall i :: 0 <= i < elems && f[i] == 0 ==> i !in order)
  }

  // ----- counts

  function CountTerms(d: seq<ush>, n: nat, size: nat, b: nat): (r: seq<int>)
    requires size <= |d|
    ensures |r| == size && forall i :: 0 <= i < size ==> r[i] == if i < n && d[i] == b then 1 else 0
  {
    seq(size, i requires 0 <= i < size => if i < n && d[i] == b then 1 else 0)
  }

  lemma {:induction false} CountIsSum(d: seq<ush>, n: nat, b: nat)
    requires n <= |d|
    ensures Sum(CountTerms(d, n, n, b)) == Count(d[..n], b)
  {
    if n > 0 {
      CountIsSum(d, n - 1, b);
      assert d[..n][..n - 1] == d[..n - 1];
      assert CountTerms(d, n, n, b)[..n - 1] == CountTerms(d, n - 1, n - 1, b);
    }
  }

  lemma {:induction false} LeafCountIsSum(ids: seq<ush>, bs: seq<nat>, d: seq<ush>, maxCode: nat, size: nat, b: nat)
    requires |ids| == |bs| && size <= |d|
    requires forall p :: 0 <= p < |ids| ==> ids[p] < size && d[ids[p]] == bs[p]
    ensures LeafCount(ids, bs, maxCode, b) == Sum(Pick(CountTerms(d, maxCode + 1, size, b), ids))
  {
    if ids != [] {
      var n := |ids| - 1;
      LeafCountIsSum(ids[..n], bs[..n], d, maxCode, size, b);
      assert Pick(CountTerms(d, maxCode + 1, size, b), ids)[..n] == Pick(CountTerms(d, maxCode + 1, size, b), ids[..n]);
    }
  }

  lemma SonsArePick(g: seq<int>, order: seq<nat>)
    requires |order| > 0 && Indices(order, |g|)
    ensures Sons(g, order) == Pick(g, order[1..])
  {
  }

  /** b >= 1: the pass has counted each code with b bits once. */
  lemma CountsAgree(order: seq<ush>, bs: seq<nat>, f: seq<ush>, d: seq<ush>, elems: nat, root: nat, maxCode: nat, b: nat)
    requires LeavesAre(order, f, d, elems, root, maxCode) && b >= 1
    requires Listing(bs, order, d) && |bs| == |order| - 1
    ensures LeafCount(order[1..], bs, maxCode, b) == Count(d[..maxCode + 1], b)
  {
    CountedAsSons(order, bs, d, root + 1, maxCode, b);
    SonsAsCounts(order, f, d, elems, root, maxCode, b);
  }

  lemma CountedAsSons(order: seq<ush>, bs: seq<nat>, d: seq<ush>, size: nat, maxCode: nat, b: nat)
    requires |order| > 0 && Indices(order, size) && size <= |d|
    requires Listing(bs, order, d) && |bs| == |order| - 1
    ensures LeafCount(order[1..], bs, maxCode, b) == Sum(Sons(CountTerms(d, maxCode + 1, size, b), order))
  {
    ListedTail(bs, order, d, size);
    LeafCountIsSum(order[1..], bs, d, maxCode, size, b);
    SonsArePick(CountTerms(d, maxCode + 1, size, b), order);
  }

  lemma SonsAsCounts(order: seq<ush>, f: seq<ush>, d: seq<ush>, elems: nat, root: nat, maxCode: nat, b: nat)
    requires LeavesAre(order, f, d, elems, root, maxCode) && b >= 1
    ensures Sum(Sons(CountTerms(d, maxCode + 1, root + 1, b), order)) == Count(d[..maxCode + 1], b)
  {
    hide Sum, Indices, Sons, Count, Unused, CountTerms;
    var g := CountTerms(d, maxCode + 1, root + 1, b);
    CountsListed(order, f, d, elems, root, maxCode, b);
    PickAll(g, order, maxCode + 1);
    CountsCut(d, maxCode + 1, root + 1, b);
    CountIsSum(d, maxCode + 1, b);
  }

  lemma CountsCut(d: seq<ush>, n: nat, size: nat, b: nat)
    requires n <= size <= |d|
    ensures CountTerms(d, n, size, b)[..n] == CountTerms(d, n, n, b)
  {
  }

  lemma CountsListed(order: seq<ush>, f: seq<ush>, d: seq<ush>, elems: nat, root: nat, maxCode: nat, b: nat)
    requires LeavesAre(order, f, d, elems, root, maxCode) && b >= 1
    ensures OnlyListed(CountTerms(d, maxCode + 1, root + 1, b), order, maxCode + 1)
  {
    var g := CountTerms(d, maxCode + 1, root + 1, b);
    forall i | 0 <= i < |g| && i !in order
      ensures g[i] == 0
    {
      if i < elems { assert f[i] == 0; }
    }
  }

  lemma ListedTail(bs: seq<nat>, order: seq<ush>, d: seq<ush>, size: nat)
    requires Listing(bs, order, d) && |bs| == |order| - 1 && Indices(order, size)
    ensures |order[1..]| == |bs|
    ensures forall p :: 0 <= p < |bs| ==> order[1..][p] < size && order[1..][p] < |d| && d[order[1..][p]] == bs[p]
  {
    forall p | 0 <= p < |bs|
      ensures order[1..][p] < size && order[1..][p] < |d| && d[order[1..][p]] == bs[p]
    {
      assert ListAt(bs, order, d, p);
    }
  }

  // ----- costs

  function CostTerms(f: seq<ush>, vs: seq<nat>, xs: seq<nat>, n: nat, size: nat): (r: seq<int>)
    requires n <= size <= |f| && n <= |vs| && n <= |xs|
    ensures |r| == size && forall i :: 0 <= i < size ==> r[i] == if i < n then f[i] * (vs[i] + xs[i]) else 0
  {
    seq(size, i requires 0 <= i < size => if i < n then f[i] * (vs[i] + xs[i]) else 0)
  }

  lemma {:induction false} CostIsSum(f: seq<ush>, vs: seq<nat>, xs: seq<nat>, n: nat)
    requires n <= |f| && n <= |vs| && n <= |xs|
    ensures Sum(CostTerms(f, vs, xs, n, n)) == TotalBits(f, vs, xs, n)
  {
    if n > 0 {
      CostIsSum(f, vs, xs, n - 1);
      assert CostTerms(f, vs, xs, n, n)[..n - 1] == CostTerms(f, vs, xs, n - 1, n - 1);
    }
  }

  lemma {:induction false} LeafTotalIsSum(ids: seq<ush>, us: seq<nat>, vs: seq<nat>, f: seq<ush>, xs: seq<nat>,
                                          maxCode: nat, size: nat)
    requires |ids| == |us| && maxCode < size <= |f| && maxCode < |vs| && maxCode < |xs|
    requires forall p :: 0 <= p < |ids| ==> ids[p] < size && (ids[p] <= maxCode ==> vs[ids[p]] == us[p])
    ensures LeafTotal(ids, us, maxCode, f, xs) == Sum(Pick(CostTerms(f, vs, xs, maxCode + 1, size), ids))
  {
    hide Pick;
    if ids != [] {
      var n := |ids| - 1;
      LeafTotalIsSum(ids[..n], us[..n], vs, f, xs, maxCode, size);
      var g := CostTerms(f, vs, xs, maxCode + 1, size);
      assert Pick(g, ids)[..n] == Pick(g, ids[..n]);
    }
  }

  lemma SonsAsCosts(order: seq<ush>, f: seq<ush>, d: seq<ush>, vs: seq<nat>, xs: seq<nat>, elems: nat, root: nat, maxCode: nat)
    requires LeavesAre(order, f, d, elems, root, maxCode) && maxCode < |vs| && maxCode < |xs|
    ensures Sum(Sons(CostTerms(f, vs, xs, maxCode + 1, root + 1), order)) == TotalBits(f, vs, xs, maxCode + 1)
  {
    hide Sum, Sons, TotalBits, CostTerms, Indices, LeavesAre, OnlyListed, Unused;
    LeavesBound(order, f, d, elems, root, maxCode);
    CostsListed(order, f, d, vs, xs, elems, root, maxCode);
    PickAll(CostTerms(f, vs, xs, maxCode + 1, root + 1), order, maxCode + 1);
    CostsCut(f, vs, xs, maxCode + 1, root + 1);
    CostIsSum(f, vs, xs, maxCode + 1);
  }

  lemma LeavesBound(order: seq<ush>, f: seq<ush>, d: seq<ush>, elems: nat, root: nat, maxCode: nat)
    requires LeavesAre(order, f, d, elems, root, maxCode)
    ensures maxCode < root < |f| && |order| > 0 && Indices(order, root + 1)
  {
    hide Indices, Unused;
  }

  lemma CostsCut(f: seq<ush>, vs: seq<nat>, xs: seq<nat>, n: nat, size: nat)
    requires n <= size <= |f| && n <= |vs| && n <= |xs|
    ensures CostTerms(f, vs, xs, n, size)[..n] == CostTerms(f, vs, xs, n, n)
  {
  }

  lemma CostsListed(order: seq<ush>, f: seq<ush>, d: seq<ush>, vs: seq<nat>, xs: seq<nat>, elems: nat, root: nat, maxCode: nat)
    requires LeavesAre(order, f, d, elems, root, maxCode) && maxCode < |vs| && maxCode < |xs|
    ensures OnlyListed(CostTerms(f, vs, xs, maxCode + 1, root + 1), order, maxCode + 1)
  {
    var g := CostTerms(f, vs, xs, maxCode + 1, root + 1);
    forall i | 0 <= i < |g| && i !in order
      ensures g[i] == 0
    {
      if i <= maxCode {
        assert f[i] == 0;
        ZeroTimes(vs[i] + xs[i]);
      }
    }
  }

  lemma ZeroTimes(a: nat)
    ensures 0 * a == 0
  {
  }

  /** The pass has added up each code's cost once. */
  lemma TotalsAgree(order: seq<ush>, us: seq<nat>, f: seq<ush>, d: seq<ush>, vs: seq<nat>, xs: seq<nat>,
                    elems: nat, root: nat, maxCode: nat)
    requires LeavesAre(order, f, d, elems, root, maxCode) && maxCode < |vs| && maxCode < |xs|
    requires |us| == |order| - 1
    requires forall p :: 1 <= p < |order| && order[p] <= maxCode ==> vs[order[p]] == us[p - 1]
    ensures LeafTotal(order[1..], us, maxCode, f, xs) == TotalBits(f, vs, xs, maxCode + 1)
  {
    TotalAsSons(order, us, f, vs, xs, root + 1, maxCode);
    SonsAsCosts(order, f, d, vs, xs, elems, root, maxCode);
  }

  lemma TotalAsSons(order: seq<ush>, us: seq<nat>, f: seq<ush>, vs: seq<nat>, xs: seq<nat>, size: nat, maxCode: nat)
    requires |order| > 0 && Indices(order, size) && |us| == |order| - 1
    requires maxCode < size <= |f| && maxCode < |vs| && maxCode < |xs|
    requires forall p :: 1 <= p < |order| && order[p] <= maxCode ==> vs[order[p]] == us[p - 1]
    ensures LeafTotal(order[1..], us, maxCode, f, xs) == Sum(Sons(CostTerms(f, vs, xs, maxCode + 1, size), order))
  {
    TailAgrees(order, us, vs, size, maxCode);
    LeafTotalIsSum(order[1..], us, vs, f, xs, maxCode, size);
    SonsArePick(CostTerms(f, vs, xs, maxCode + 1, size), order);
  }

  lemma TailAgrees(order: seq<ush>, us: seq<nat>, vs: seq<nat>, size: nat, maxCode: nat)
    requires |order| > 0 && Indices(order, size) && |us| == |order| - 1 && maxCode < |vs|
    requires forall p :: 1 <= p < |order| && order[p] <= maxCode ==> vs[order[p]] == us[p - 1]
    ensures forall p :: 0 <= p < |us| ==> order[1..][p] < size && (order[1..][p] <= maxCode ==> vs[order[1..][p]] == us[p])
  {
    forall p | 0 <= p < |us|
      ensures order[1..][p] < size && (order[1..][p] <= maxCode ==> vs[order[1..][p]] == us[p])
    {
      assert order[1..][p] == order[p + 1];
    }
  }
}
