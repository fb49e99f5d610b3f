/** The code space that lengths take, counted over nodes, over codes and over the histogram. */
module CodeSpace {
  import opened Bits
  import opened Sums
  import opened Rfc1951
  import opened Heaps
  import opened TreeShape
  import opened TreeLengths

  // ----- over the codes

  function ShareTerms(d: seq<ush>, n: nat, size: nat): (r: seq<int>)
    requires size <= |d|
    ensures |r| == size && forall i :: 0 <= i < size ==> r[i] == if i < n then Share(d[i]) else 0
  {
    seq(size, i requires 0 <= i < size => if i < n then Share(d[i]) else 0)
  }

  lemma {:induction false} SpaceIsSum(d: seq<ush>, n: nat)
    requires n <= |d|
    ensures Sum(ShareTerms(d, n, n)) == Space(d[..n])
  {
    if n > 0 {
      SpaceIsSum(d, n - 1);
      assert d[..n][..n - 1] == d[..n - 1];
      assert ShareTerms(d, n, n)[..n - 1] == ShareTerms(d, n - 1, n - 1);
    }
  }

  lemma ShareOfNode(a: nat)
    requires 1 <= a <= 15
    ensures Share(a) == Pow2(15 - a)
  {
  }

  /** The leaves of the tree take what the codes take. */
  lemma LeavesSpace(order: seq<ush>, f: seq<ush>, d: seq<ush>, elems: nat, root: nat, maxCode: nat)
    requires LeavesAre(order, f, d, elems, root, maxCode)
    requires forall i :: 0 <= i < elems && f[i] != 0 ==> 1 <= d[i] <= 15
    ensures Sum(Pick(Leaves(NodeShares(d[..root + 1]), elems), order)) == Space(d[..maxCode + 1])
  {
    var g := Leaves(NodeShares(d[..root + 1]), elems);
    var n := maxCode + 1;
    SumReorder(g, order);
    MarkedShares(order, f, d, elems, root, maxCode);
    SumTail(ShareTerms(d, n, root + 1), n);
    assert ShareTerms(d, n, root + 1)[..n] == ShareTerms(d, n, n);
    SpaceIsSum(d, n);
  }

  lemma MarkedShares(order: seq<ush>, f: seq<ush>, d: seq<ush>, elems: nat, root: nat, maxCode: nat)
    requires LeavesAre(order, f, d, elems, root, maxCode)
    requires forall i :: 0 <= i < elems && f[i] != 0 ==> 1 <= d[i] <= 15
    ensures Mark(Leaves(NodeShares(d[..root + 1]), elems), order) == ShareTerms(d, maxCode + 1, root + 1)
  {
    var g := Leaves(NodeShares(d[..root + 1]), elems);
    forall i | 0 <= i < root + 1
      ensures Mark(g, order)[i] == ShareTerms(d, maxCode + 1, root + 1)[i]
    {
      if i < elems {
        if f[i] != 0 {
          assert i in order;
          ShareOfNode(d[i]);
        } else {
          assert i !in order;
          assert d[i] == 0;
        }
      }
    }
  }

  // ----- over the histogram

  function BlTerms(bl: seq<nat>): (r: seq<int>)
    ensures |r| == |bl| && forall b :: 0 <= b < |bl| ==> r[b] == bl[b] * Share(b)
  {
    seq(|bl|, b requires 0 <= b < |bl| => bl[b] * Share(b))
  }

  /** The code space taken by bl[b] codes of each length b. */
  function BlSpace(bl: seq<nat>): int {
    Sum(BlTerms(bl))
  }

  lemma BlSpaceUpdate(bl: seq<nat>, b: nat, v: nat)
    requires b < |bl|
    ensures BlSpace(bl[b := v]) == BlSpace(bl) - bl[b] * Share(b) + v * Share(b)
  {
    assert BlTerms(bl[b := v]) == BlTerms(bl)[b := v * Share(b)];
    SumUpdate(BlTerms(bl), b, v * Share(b));
  }

  function CountsOf(lens: seq<nat>): (r: seq<nat>)
    ensures |r| == 16 && forall b :: 0 <= b < 16 ==> r[b] == Count(lens, b)
  {
    seq(16, b requires 0 <= b < 16 => Count(lens, b))
  }

  lemma {:induction false} SpaceOfCounts(lens: seq<nat>)
    requires forall i :: 0 <= i < |lens| ==> lens[i] <= 15
    ensures BlSpace(CountsOf(lens)) == Space(lens)
  {
    if lens == [] {
      SumZero(BlTerms(CountsOf(lens)));
    } else {
      var rest, last := lens[..|lens| - 1], lens[|lens| - 1];
      SpaceOfCounts(rest);
      var c := CountsOf(rest);
      assert CountsOf(lens) == c[last := c[last] + 1];
      BlSpaceUpdate(c, last, c[last] + 1);
      MulDistrib(c[last], 1, Share(last));
    }
  }

  lemma {:induction false} SameTerms(a: seq<nat>, b: seq<nat>)
    requires |a| == |b| == 16 && forall i :: 1 <= i < 16 ==> a[i] == b[i]
    ensures BlSpace(a) == BlSpace(b)
  {
    forall i | 0 <= i < 16
      ensures BlTerms(a)[i] == BlTerms(b)[i]
    {
      if i == 0 { MulZero(a[0]); MulZero(b[0]); }
    }
    assert BlTerms(a) == BlTerms(b);
  }

  /** A histogram of the lengths takes the space the lengths take. */
  lemma HistogramSpace(bl: seq<nat>, lens: seq<nat>)
    requires |bl| == 16 && (forall b :: 1 <= b < 16 ==> bl[b] == Count(lens, b))
    requires forall i :: 0 <= i < |lens| ==> lens[i] <= 15
    ensures BlSpace(bl) == Space(lens)
  {
    SameTerms(bl, CountsOf(lens));
    SpaceOfCounts(lens);
  }

  // ----- how many nodes are cut

  function AtTop(lens: seq<nat>, top: nat): (r: seq<int>)
    ensures |r| == |lens| && forall i :: 0 <= i < |lens| ==> r[i] == if lens[i] == top then 1 else 0
  {
    seq(|lens|, i requires 0 <= i < |lens| => if lens[i] == top then 1 else 0)
  }

  lemma CutIsPairs(order: seq<nat>, elems: nat, root: nat, lens: seq<nat>, top: nat)
    requires Cut(order, elems, root, lens, top)
    ensures Sum(Overflows(order, root, lens, top)) == 2 * Range(AtTop(lens, top), elems, root + 1)
  {
    var k := root - elems + 1;
    var over, dads := Overflows(order, root, lens, top), DadTerms(AtTop(lens, top), root, 2 * k);
    forall p | 0 <= p < 2 * k
      ensures over[p] == dads[p]
    {
      assert Dad(root, p + 1) == root - p / 2;
    }
    assert over == dads;
    DadTermsSum(AtTop(lens, top), root, k);
  }

  lemma CutNodesAtTop(order: seq<nat>, elems: nat, root: nat, lens: seq<nat>, top: nat)
    requires Cut(order, elems, root, lens, top)
    ensures Sum(Overflows(order, root, lens, top)) <= Sum(Sons(AtTop(lens, top), order))
  {
    var over, sons := Overflows(order, root, lens, top), Sons(AtTop(lens, top), order);
    forall p | 0 <= p < |over|
      ensures over[p] <= sons[p]
    {
      assert Dad(root, p + 1) == root - p / 2;
    }
    SumLe(over, sons);
  }

  /** Not all nodes of the greatest length have been cut. */
  lemma SomeNotCut(order: seq<nat>, elems: nat, root: nat, lens: seq<nat>, top: nat)
    requires Cut(order, elems, root, lens, top)
    requires Sum(Overflows(order, root, lens, top)) > 0
    ensures Sum(Overflows(order, root, lens, top)) < Sum(Sons(AtTop(lens, top), order))
  {
    var over, sons := Overflows(order, root, lens, top), Sons(AtTop(lens, top), order);
    if forall p :: 0 <= p < |over| ==> over[p] == 0 { SumZero(over); }
    var p :| 0 <= p < |over| && over[p] != 0;
    p := FirstAtTop(order, elems, root, lens, top, p);
    forall k | 0 <= k < |over|
      ensures over[k] <= sons[p := 0][k]
    {
      assert Dad(root, k + 1) == root - k / 2;
    }
    SumLe(over, sons[p := 0]);
    SumUpdate(sons, p, 0);
  }

  /** Going up from a node of the greatest length, one comes to one whose father is shorter. */
  lemma {:induction false} FirstAtTop(order: seq<nat>, elems: nat, root: nat, lens: seq<nat>, top: nat, p: nat) returns (q: nat)
    requires Cut(order, elems, root, lens, top) && p < |order| - 1 && lens[order[p + 1]] == top
    ensures q < |order| - 1 && lens[order[q + 1]] == top && Overflows(order, root, lens, top)[q] == 0
    decreases p
  {
    q := p;
    if Overflows(order, root, lens, top)[p] != 0 {
      var x := DadBefore(order, elems, root, p + 1);
      q := FirstAtTop(order, elems, root, lens, top, x - 1);
    }
  }

  /** More than half as many leaves have the greatest length as nodes were cut, and those come in pairs. */
  lemma CutLeaves(order: seq<nat>, elems: nat, root: nat, lens: seq<nat>, top: nat)
    requires Cut(order, elems, root, lens, top)
    ensures var cut, half := Sum(Overflows(order, root, lens, top)), Range(AtTop(lens, top), elems, root + 1);
            cut == 2 * half && half >= 0
            && (half == 0 || half < Sum(Pick(Leaves(AtTop(lens, top), elems), order)))
  {
    CutIsPairs(order, elems, root, lens, top);
    CutNodesAtTop(order, elems, root, lens, top);
    TreeSum(AtTop(lens, top), order, elems, root);
    NoneOver(Overflows(order, root, lens, top));
    if Sum(Overflows(order, root, lens, top)) > 0 { SomeNotCut(order, elems, root, lens, top); }
  }

  /** The leaves of greatest length are codes of greatest length. */
  lemma TopCount(order: seq<ush>, f: seq<ush>, d: seq<ush>, elems: nat, root: nat, maxCode: nat, top: nat)
    requires LeavesAre(order, f, d, elems, root, maxCode) && top >= 1
    ensures Sum(Pick(Leaves(AtTop(d[..root + 1], top), elems), order)) == Count(d[..maxCode + 1], top)
  {
    var g := Leaves(AtTop(d[..root + 1], top), elems);
    TopTerms(order, f, d, elems, root, maxCode, top);
    PickHead(g, order);
    SonsAsCounts(order, f, d, elems, root, maxCode, top);
  }

  lemma TopTerms(order: seq<ush>, f: seq<ush>, d: seq<ush>, elems: nat, root: nat, maxCode: nat, top: nat)
    requires LeavesAre(order, f, d, elems, root, maxCode) && top >= 1
    ensures Leaves(AtTop(d[..root + 1], top), elems) == CountTerms(d, maxCode + 1, root + 1, top)
  {
    var g, c := Leaves(AtTop(d[..root + 1], top), elems), CountTerms(d, maxCode + 1, root + 1, top);
    forall i | 0 <= i < root + 1
      ensures g[i] == c[i]
    {
      if maxCode < i < elems { assert f[i] == 0 && d[i] == 0; }
    }
  }
}
