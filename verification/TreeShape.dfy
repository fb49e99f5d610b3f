/** A Huffman tree as build_tree leaves it: a list of nodes, each pair of sons after
    its father, and the lengths that follow from it. */
module TreeShape {
  import opened Bits
  import opened Sums

  /** Fathers are numbered root, root - 1, ... and their sons follow in pairs. */
  function Dad(root: nat, p: nat): int {
    root - (p - 1) / 2
  }

  /** order lists every node of the tree once; leaves are below elems. */
  ghost predicate Shape(order: seq<nat>, elems: nat, root: nat) {
    && elems <= root
    && |order| == 2 * (root - elems) + 3
    && order[0] == root
    && Indices(order, root + 1)
    && (forall p :: 1 <= p < |order| ==> order[p] < Dad(root, p))
    && (forall x :: elems <= x <= root ==> x in order)
  }

  function Min(a: int, b: int): int {
    if a <= b then a else b
  }

  /** Each node is one bit longer than its father, cut at the greatest length. */
  ghost predicate Depths(order: seq<nat>, root: nat, lens: seq<nat>, maxLength: nat)
    requires Indices(order, |lens|) && root < |lens|
  {
    && lens[root] == 0
    && forall p {:trigger order[p]} :: 1 <= p < |order| && 0 <= Dad(root, p) < |lens| ==>
         lens[order[p]] == Min(lens[Dad(root, p)] + 1, maxLength)
  }

  /** 1 for each node whose father was already at the greatest length. */
  function Overflows(order: seq<nat>, root: nat, lens: seq<nat>, maxLength: nat): (r: seq<int>)
    requires |order| > 0
    ensures |r| == |order| - 1
  {
    seq(|order| - 1, p requires 0 <= p < |order| - 1 =>
      var d := Dad(root, p + 1);
      if 0 <= d < |lens| && lens[d] + 1 > maxLength then 1 else 0)
  }

  // ----- sums over the nodes

  function Range(f: seq<int>, lo: nat, hi: nat): int
    requires lo <= hi <= |f|
    decreases hi - lo
  {
    if lo == hi then 0 else Range(f, lo, hi - 1) + f[hi - 1]
  }

  lemma {:induction false} RangeFirst(f: seq<int>, lo: nat, hi: nat)
    requires lo < hi <= |f|
    ensures Range(f, lo, hi) == f[lo] + Range(f, lo + 1, hi)
    decreases hi - lo
  {
    if lo + 1 < hi { RangeFirst(f, lo, hi - 1); }
  }

  /** Only the part from elems on. */
  function Inner(f: seq<int>, elems: nat): (r: seq<int>)
    ensures |r| == |f| && forall i :: 0 <= i < |f| ==> r[i] == if i < elems then 0 else f[i]
  {
    seq(|f|, i requires 0 <= i < |f| => if i < elems then 0 else f[i])
  }

  function Leaves(f: seq<int>, elems: nat): (r: seq<int>)
    ensures |r| == |f| && forall i :: 0 <= i < |f| ==> r[i] == if i < elems then f[i] else 0
  {
    seq(|f|, i requires 0 <= i < |f| => if i < elems then f[i] else 0)
  }

  lemma {:induction false} SumInner(f: seq<int>, elems: nat)
    ensures Sum(Inner(f, elems)) == if elems <= |f| then Range(f, elems, |f|) else 0
  {
    if elems >= |f| {
      SumZero(Inner(f, elems));
    } else {
      var n := |f| - 1;
      assert Inner(f, elems)[..n] == Inner(f[..n], elems);
      SumInner(f[..n], elems);
      RangeCut(f, n, elems, n);
    }
  }

  lemma {:induction false} RangeCut(f: seq<int>, n: nat, lo: nat, hi: nat)
    requires lo <= hi <= n <= |f|
    ensures Range(f[..n], lo, hi) == Range(f, lo, hi)
    decreases hi - lo
  {
    if lo < hi { RangeCut(f, n, lo, hi - 1); }
  }

  /** Terms that pair up over the fathers add up over the fathers. */
  lemma {:induction false} PairSum(v: seq<int>, f: seq<int>, root: nat, k: nat)
    requires |v| == 2 * k && k <= root + 1 && root < |f|
    requires forall j :: 0 <= j < k ==> v[2 * j] + v[2 * j + 1] == f[root - j]
    ensures Sum(v) == Range(f, root + 1 - k, root + 1)
  {
    if k > 0 {
      var w := v[..2 * (k - 1)];
      PairSum(w, f, root, k - 1);
      assert v == w + [v[2 * (k - 1)]] + [v[2 * (k - 1) + 1]];
      SumSnoc(w + [v[2 * (k - 1)]], v[2 * (k - 1) + 1]);
      SumSnoc(w, v[2 * (k - 1)]);
      RangeFirst(f, root + 1 - k, root + 1);
    }
  }

  /** The terms of all nodes but the first, the root. */
  function Sons(f: seq<int>, order: seq<nat>): (r: seq<int>)
    requires |order| > 0 && forall p :: 0 <= p < |order| ==> order[p] < |f|
    ensures |r| == |order| - 1
    ensures forall p :: 0 <= p < |r| ==> r[p] == f[order[p + 1]]
  {
    seq(|order| - 1, p requires 0 <= p < |order| - 1 => f[order[p + 1]])
  }

  lemma PickHead(f: seq<int>, order: seq<nat>)
    requires |order| > 0 && forall p :: 0 <= p < |order| ==> order[p] < |f|
    ensures Sum(Pick(f, order)) == f[order[0]] + Sum(Sons(f, order))
  {
    assert Pick(f, order) == [f[order[0]]] + Sons(f, order);
    SumConcat([f[order[0]]], Sons(f, order));
    assert Sum([f[order[0]]]) == f[order[0]];
  }

  lemma PickSplits(f: seq<int>, elems: nat, order: seq<nat>)
    requires Indices(order, |f|)
    ensures Sum(Pick(f, order)) == Sum(Pick(Leaves(f, elems), order)) + Sum(Pick(Inner(f, elems), order))
  {
    SumAdd(Pick(Leaves(f, elems), order), Pick(Inner(f, elems), order), Pick(f, order));
  }

  lemma PickInner(f: seq<int>, order: seq<nat>, elems: nat, root: nat)
    requires Shape(order, elems, root) && |f| == root + 1
    ensures Sum(Pick(Inner(f, elems), order)) == Range(f, elems, root + 1)
  {
    hide Sum, Range;
    SumReorder(Inner(f, elems), order);
    assert Mark(Inner(f, elems), order) == Inner(f, elems);
    SumInner(f, elems);
  }

  /** The heart of both counts below: what the non-root nodes hold, leaves hold and fathers pass on. */
  lemma TreeSum(f: seq<int>, order: seq<nat>, elems: nat, root: nat)
    requires Shape(order, elems, root) && |f| == root + 1
    ensures f[root] + Sum(Sons(f, order))
         == Sum(Pick(Leaves(f, elems), order)) + Range(f, elems, root + 1)
  {
    PickHead(f, order);
    PickSplits(f, elems, order);
    PickInner(f, order, elems, root);
  }

  // ----- Kraft's sum of the cut lengths

  function NodeShares(lens: seq<nat>): (r: seq<int>)
    ensures |r| == |lens|
    ensures forall i :: 0 <= i < |lens| ==> r[i] == if lens[i] <= 15 then Pow2(15 - lens[i]) else 0
  {
    seq(|lens|, i requires 0 <= i < |lens| => if lens[i] <= 15 then Pow2(15 - lens[i]) else 0)
  }

  /** The share of each non-root node's father. */
  function DadTerms(f: seq<int>, root: nat, n: nat): (r: seq<int>)
    requires n <= 2 * |f| && root < |f| && n <= 2 * (root + 1)
    ensures |r| == n && forall p :: 0 <= p < n ==> 0 <= root - p / 2 < |f| && r[p] == f[root - p / 2]
  {
    seq(n, p requires 0 <= p < n => f[root - p / 2])
  }

  lemma DadTermsSum(f: seq<int>, root: nat, k: nat)
    requires root < |f| && k <= root + 1
    ensures Sum(DadTerms(f, root, 2 * k)) == 2 * Range(f, root + 1 - k, root + 1)
  {
    hide *;
    var g := seq(|f|, i requires 0 <= i < |f| => 2 * f[i]);
    PairSum(DadTerms(f, root, 2 * k), g, root, k);
    RangeScale(f, g, root + 1 - k, root + 1);
  }

  lemma {:induction false} RangeScale(f: seq<int>, g: seq<int>, lo: nat, hi: nat)
    requires |f| == |g| && lo <= hi <= |f|
    requires forall i :: 0 <= i < |f| ==> g[i] == 2 * f[i]
    ensures Range(g, lo, hi) == 2 * Range(f, lo, hi)
    decreases hi - lo
  {
    if lo < hi { RangeScale(f, g, lo, hi - 1); }
  }

  /** Twice a son's share is its father's, or one unit more when the length was cut. */
  lemma SonShare(a: nat, maxLength: nat)
    requires 1 <= maxLength <= 15 && a <= maxLength
    ensures 2 * Pow2(15 - Min(a + 1, maxLength))
         == Pow2(15 - a) + (if a + 1 > maxLength then Pow2(15 - maxLength) else 0)
  {
  }

  ghost predicate Cut(order: seq<nat>, elems: nat, root: nat, lens: seq<nat>, maxLength: nat) {
    && Shape(order, elems, root) && |lens| == root + 1
    && 1 <= maxLength <= 15 && (forall i :: 0 <= i < |lens| ==> lens[i] <= maxLength)
    && Depths(order, root, lens, maxLength)
  }

  lemma OneSon(order: seq<nat>, elems: nat, root: nat, lens: seq<nat>, maxLength: nat, p: nat)
    requires Cut(order, elems, root, lens, maxLength) && p < |order| - 1
    ensures 0 <= root - p / 2 <= root
    ensures 2 * NodeShares(lens)[order[p + 1]]
         == NodeShares(lens)[root - p / 2]
          + Pow2(15 - maxLength) * Overflows(order, root, lens, maxLength)[p]
  {
    hide Pow2, Natural;
    assert Dad(root, p + 1) == root - p / 2;
    SonShare(lens[root - p / 2], maxLength);
    UnitTimes(Pow2(15 - maxLength), Overflows(order, root, lens, maxLength)[p]);
  }

  lemma UnitTimes(u: nat, x: int)
    requires x == 0 || x == 1
    ensures u * x == if x == 1 then u else 0
  {
  }

  lemma SharesStep(order: seq<nat>, elems: nat, root: nat, lens: seq<nat>, maxLength: nat)
    requires Cut(order, elems, root, lens, maxLength)
    ensures 2 * Sum(Sons(NodeShares(lens), order))
         == Sum(DadTerms(NodeShares(lens), root, |order| - 1))
          + Pow2(15 - maxLength) * Sum(Overflows(order, root, lens, maxLength))
  {
    var f, n, u := NodeShares(lens), |order| - 1, Pow2(15 - maxLength);
    var sons := Sons(f, order);
    var dads, over := DadTerms(f, root, n), Overflows(order, root, lens, maxLength);
    forall p | 0 <= p < n
      ensures 2 * sons[p] == dads[p] + u * over[p]
    {
      OneSon(order, elems, root, lens, maxLength, p);
    }
    SumLinear(sons, dads, over, u);
  }

  lemma SumLinear(a: seq<int>, b: seq<int>, c: seq<int>, u: int)
    requires |a| == |b| == |c|
    requires forall i :: 0 <= i < |a| ==> 2 * a[i] == b[i] + u * c[i]
    ensures 2 * Sum(a) == Sum(b) + u * Sum(c)
  {
    var n := |a|;
    var twice := seq(n, p requires 0 <= p < n => 2 * a[p]);
    var units := seq(n, p requires 0 <= p < n => u * c[p]);
    SumScale(a, 2, twice);
    SumScale(c, u, units);
    SumAdd(b, units, twice);
  }

  /** Each cut node is half a unit too much. */
  lemma KraftExcess(order: seq<nat>, elems: nat, root: nat, lens: seq<nat>, maxLength: nat)
    requires Cut(order, elems, root, lens, maxLength)
    ensures 2 * Sum(Pick(Leaves(NodeShares(lens), elems), order))
         == 2 * Pow2(15) + Pow2(15 - maxLength) * Sum(Overflows(order, root, lens, maxLength))
  {
    var f := NodeShares(lens);
    TreeSum(f, order, elems, root);
    SharesStep(order, elems, root, lens, maxLength);
    var k := root - elems + 1;
    assert |order| - 1 == 2 * k;
    DadTermsSum(f, root, k);
    assert f[root] == Pow2(15);
  }

  // ----- the cost of the uncut lengths

  function NodeCosts(freq: seq<nat>, lens: seq<nat>): (r: seq<int>)
    requires |freq| == |lens|
    ensures |r| == |lens| && forall i :: 0 <= i < |lens| ==> r[i] == freq[i] * lens[i]
  {
    seq(|lens|, i requires 0 <= i < |lens| => freq[i] * lens[i])
  }

  ghost predicate Fathers(order: seq<nat>, elems: nat, root: nat, freq: seq<nat>)
    requires Shape(order, elems, root) && |freq| == root + 1
  {
    forall j :: 0 <= j <= root - elems ==>
      freq[root - j] == freq[order[2 * j + 1]] + freq[order[2 * j + 2]]
  }

  /** The depths of the nodes: each is one deeper than its father. */
  ghost predicate Natural(order: seq<nat>, root: nat, depths: seq<nat>)
    requires Indices(order, |depths|) && root < |depths|
  {
    && depths[root] == 0
    && forall p :: 1 <= p < |order| ==> NaturalAt(order, root, depths, p)
  }

  ghost predicate NaturalAt(order: seq<nat>, root: nat, depths: seq<nat>, p: nat)
    requires p < |order|
  {
    order[p] < |depths| && 0 <= Dad(root, p) < |depths| && depths[order[p]] == depths[Dad(root, p)] + 1
  }

  /** At its depths, the tree with the weights freq. */
  ghost predicate Uncut(order: seq<nat>, elems: nat, root: nat, freq: seq<nat>, lens: seq<nat>) {
    && Shape(order, elems, root) && |lens| == |freq| == root + 1
    && Natural(order, root, lens) && Fathers(order, elems, root, freq)
  }

  /** A father stands before his sons. */
  lemma DadBefore(order: seq<nat>, elems: nat, root: nat, p: nat) returns (q: nat)
    requires Shape(order, elems, root) && 1 <= p < |order|
    ensures q < p && order[q] == Dad(root, p) && elems <= Dad(root, p) <= root
  {
    assert Dad(root, p) in order;
    q :| 0 <= q < |order| && order[q] == Dad(root, p);
    if q >= 1 { assert order[q] < Dad(root, q); }
  }

  /** Every tree has its depths. */
  lemma NaturalDepths(order: seq<nat>, elems: nat, root: nat) returns (depths: seq<nat>)
    requires Shape(order, elems, root)
    ensures |depths| == root + 1 && Natural(order, root, depths)
  {
    depths := seq(root + 1, _ => 0);
    var p := 1;
    while p < |order|
      invariant 1 <= p <= |order| && |depths| == root + 1 && depths[root] == 0
      invariant forall q :: 1 <= q < p ==> NaturalAt(order, root, depths, q)
    {
      var x := DadBefore(order, elems, root, p);
      var was := depths;
      depths := depths[order[p] := depths[Dad(root, p)] + 1];
      forall q | 1 <= q <= p
        ensures NaturalAt(order, root, depths, q)
      {
        var y := DadBefore(order, elems, root, q);
        if q < p { assert NaturalAt(order, root, was, q); }
      }
      p := p + 1;
    }
  }

  /** Cut lengths are the depths as far as the greatest length allows. */
  lemma {:induction false} CutAt(order: seq<nat>, elems: nat, root: nat, lens: seq<nat>, maxLength: nat, depths: seq<nat>, p: nat)
    requires Cut(order, elems, root, lens, maxLength) && |depths| == root + 1 && Natural(order, root, depths) && p < |order|
    ensures lens[order[p]] == Min(depths[order[p]], maxLength)
    decreases p
  {
    if p > 0 {
      var q := DadBefore(order, elems, root, p);
      CutAt(order, elems, root, lens, maxLength, depths, q);
      assert NaturalAt(order, root, depths, p);
    }
  }

  lemma OverAtDepth(order: seq<nat>, elems: nat, root: nat, lens: seq<nat>, maxLength: nat, depths: seq<nat>, p: nat)
    requires Cut(order, elems, root, lens, maxLength) && |depths| == root + 1 && Natural(order, root, depths)
    requires 1 <= p < |order|
    ensures Overflows(order, root, lens, maxLength)[p - 1] == if depths[order[p]] > maxLength then 1 else 0
  {
    var q := DadBefore(order, elems, root, p);
    CutAt(order, elems, root, lens, maxLength, depths, q);
    assert NaturalAt(order, root, depths, p);
  }

  /** Below a node there is a leaf, at least as deep. */
  lemma {:induction false} LeafBelow(order: seq<nat>, elems: nat, root: nat, depths: seq<nat>, p: nat) returns (q: nat)
    requires Shape(order, elems, root) && |depths| == root + 1 && Natural(order, root, depths) && p < |order|
    ensures q < |order| && order[q] < elems && depths[order[q]] >= depths[order[p]]
    decreases order[p]
  {
    if order[p] < elems {
      q := p;
    } else {
      var son := 2 * (root - order[p]) + 1;
      assert Dad(root, son) == order[p];
      assert NaturalAt(order, root, depths, son);
      q := LeafBelow(order, elems, root, depths, son);
    }
  }

  // ----- lighter nodes lie no higher

  /** Along the order, nodes get no heavier. */
  ghost predicate NoHeavier(order: seq<nat>, freq: seq<nat>) {
    && (forall p :: 0 <= p < |order| ==> order[p] < |freq|)
    && forall p, q :: 0 <= p < q < |order| ==> freq[order[q]] <= freq[order[p]]
  }

  /** The fathers of two nodes that are no brothers differ in weight the same way. */
  lemma FathersDiffer(order: seq<nat>, elems: nat, root: nat, freq: seq<nat>, p: nat, q: nat)
    requires Shape(order, elems, root) && |freq| == root + 1 && Fathers(order, elems, root, freq) && NoHeavier(order, freq)
    requires 1 <= q < p < |order| && freq[order[p]] < freq[order[q]] && (q - 1) / 2 < (p - 1) / 2
    ensures 0 <= Dad(root, p) < |freq| && 0 <= Dad(root, q) < |freq| && freq[Dad(root, p)] < freq[Dad(root, q)]
  {
    var i, j := (q - 1) / 2, (p - 1) / 2;
    assert freq[root - i] == freq[order[2 * i + 1]] + freq[order[2 * i + 2]];
    assert freq[root - j] == freq[order[2 * j + 1]] + freq[order[2 * j + 2]];
    assert (q == 2 * i + 1 || q == 2 * i + 2) && (p == 2 * j + 1 || p == 2 * j + 2);
  }

  /** The lighter of two nodes lies as deep as the other or deeper. */
  lemma {:induction false} LighterIsDeeper(order: seq<nat>, elems: nat, root: nat, freq: seq<nat>, depths: seq<nat>, p: nat, q: nat)
    requires Uncut(order, elems, root, freq, depths) && NoHeavier(order, freq)
    requires p < |order| && q < |order| && freq[order[p]] < freq[order[q]]
    ensures depths[order[p]] >= depths[order[q]]
    decreases q
  {
    hide Shape, Fathers, Indices;
    UncutParts(order, elems, root, freq, depths);
    if q > 0 {
      assert q < p;
      assert NaturalAt(order, root, depths, p) && NaturalAt(order, root, depths, q);
      if (p - 1) / 2 != (q - 1) / 2 {
        FathersDiffer(order, elems, root, freq, p, q);
        var x := DadBefore(order, elems, root, p);
        var y := DadBefore(order, elems, root, q);
        LighterIsDeeper(order, elems, root, freq, depths, x, y);
      }
    }
  }

  lemma UncutParts(order: seq<nat>, elems: nat, root: nat, freq: seq<nat>, depths: seq<nat>)
    requires Uncut(order, elems, root, freq, depths)
    ensures |order| > 0 && order[0] == root && depths[root] == 0
  {
  }

  /** Nodes are cut exactly if some leaf lies too deep. */
  lemma CutMeansDeep(order: seq<nat>, elems: nat, root: nat, lens: seq<nat>, maxLength: nat, depths: seq<nat>)
    requires Cut(order, elems, root, lens, maxLength) && |depths| == root + 1 && Natural(order, root, depths)
    ensures Sum(Overflows(order, root, lens, maxLength)) == 0 <==>
              forall q :: 0 <= q < |order| && order[q] < elems ==> depths[order[q]] <= maxLength
  {
    hide NaturalAt, Sum, Dad, Depths, Natural, Indices;
    var o := Overflows(order, root, lens, maxLength);
    NoneOver(o);
    if Sum(o) == 0 {
      forall q | 0 <= q < |order| && order[q] < elems
        ensures depths[order[q]] <= maxLength
      {
        if q > 0 { OverAtDepth(order, elems, root, lens, maxLength, depths, q); }
      }
    }
    if forall q :: 0 <= q < |order| && order[q] < elems ==> depths[order[q]] <= maxLength {
      forall p | 0 <= p < |o|
        ensures o[p] == 0
      {
        OverAtDepth(order, elems, root, lens, maxLength, depths, p + 1);
        var q := LeafBelow(order, elems, root, depths, p + 1);
      }
      SumZero(o);
    }
  }

  lemma {:induction false} NoneOver(s: seq<int>)
    requires forall i :: 0 <= i < |s| ==> s[i] == 0 || s[i] == 1
    ensures Sum(s) >= 0
    ensures Sum(s) == 0 ==> forall i :: 0 <= i < |s| ==> s[i] == 0
  {
    if s != [] { NoneOver(s[..|s| - 1]); }
  }

  /** What the p-th non-root node costs one level up. */
  function OneUp(order: seq<nat>, root: nat, freq: seq<nat>, lens: seq<nat>, p: nat): int
    requires Indices(order, |freq|) && p + 1 < |order| && 0 <= root - p / 2 < |lens|
  {
    freq[order[p + 1]] * lens[root - p / 2]
  }

  lemma OneCost(order: seq<nat>, elems: nat, root: nat, freq: seq<nat>, lens: seq<nat>, p: nat)
    requires Uncut(order, elems, root, freq, lens) && p < |order| - 1
    ensures 0 <= root - p / 2 <= root
    ensures NodeCosts(freq, lens)[order[p + 1]] == OneUp(order, root, freq, lens, p) + freq[order[p + 1]]
  {
    assert Dad(root, p + 1) == root - p / 2;
    assert NaturalAt(order, root, lens, p + 1);
    MulOne(freq[order[p + 1]], lens[root - p / 2]);
  }

  lemma TwoCosts(order: seq<nat>, elems: nat, root: nat, freq: seq<nat>, lens: seq<nat>, j: nat)
    requires Uncut(order, elems, root, freq, lens) && j <= root - elems
    ensures OneUp(order, root, freq, lens, 2 * j) + OneUp(order, root, freq, lens, 2 * j + 1)
         == NodeCosts(freq, lens)[root - j]
  {
    hide Natural;
    var a, b, x := freq[order[2 * j + 1]], freq[order[2 * j + 2]], lens[root - j];
    assert (2 * j) / 2 == j && (2 * j + 1) / 2 == j;
    assert freq[root - j] == a + b;
    MulDistrib(a, b, x);
  }

  lemma AboveSum(order: seq<nat>, elems: nat, root: nat, freq: seq<nat>, lens: seq<nat>,
                 above: seq<int>)
    requires Uncut(order, elems, root, freq, lens)
    requires |above| == |order| - 1
    requires forall p :: 0 <= p < |above| ==> 0 <= root - p / 2 <= root && above[p] == OneUp(order, root, freq, lens, p)
    ensures Sum(above) == Range(NodeCosts(freq, lens), elems, root + 1)
  {
    var k := root - elems + 1;
    forall j | 0 <= j < k
      ensures above[2 * j] + above[2 * j + 1] == NodeCosts(freq, lens)[root - j]
    {
      TwoCosts(order, elems, root, freq, lens, j);
    }
    PairSum(above, NodeCosts(freq, lens), root, k);
  }

  lemma CostStep(order: seq<nat>, elems: nat, root: nat, freq: seq<nat>, lens: seq<nat>)
    requires Uncut(order, elems, root, freq, lens)
    ensures Sum(Sons(NodeCosts(freq, lens), order))
         == Range(NodeCosts(freq, lens), elems, root + 1) + Sum(Sons(freq, order))
  {
    hide Fathers, Sum;
    var n := |order| - 1;
    var sons := Sons(NodeCosts(freq, lens), order);
    var above := seq(n, p requires 0 <= p < n && 0 <= root - p / 2 < |lens| => OneUp(order, root, freq, lens, p));
    forall p | 0 <= p < n
      ensures sons[p] == above[p] + Sons(freq, order)[p]
    {
      OneCost(order, elems, root, freq, lens, p);
    }
    SumAdd(above, Sons(freq, order), sons);
    AboveSum(order, elems, root, freq, lens, above);
  }

  /** At their depths, the leaves cost what all nodes but the root weigh. */
  lemma LeafCost(order: seq<nat>, elems: nat, root: nat, freq: seq<nat>, lens: seq<nat>)
    requires Uncut(order, elems, root, freq, lens)
    ensures Sum(Pick(Leaves(NodeCosts(freq, lens), elems), order)) == Sum(Sons(freq, order))
  {
    TreeSum(NodeCosts(freq, lens), order, elems, root);
    CostStep(order, elems, root, freq, lens);
    RootCost(freq, lens, root);
  }

  lemma RootCost(freq: seq<nat>, lens: seq<nat>, root: nat)
    requires |freq| == |lens| && root < |lens| && lens[root] == 0
    ensures NodeCosts(freq, lens)[root] == 0
  {
    MulZero(freq[root]);
  }

  lemma MulZero(a: nat)
    ensures a * 0 == 0
  {
  }

  lemma MulOne(a: nat, b: nat)
    ensures a * (b + 1) == a * b + a
  {
  }
}
