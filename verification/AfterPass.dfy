/** What holds when the first pass is over. */
module AfterPass {
  import opened Bits
  import opened Sums
  import opened Rfc1951
  import opened Huffman
  import opened Heaps
  import opened TreeBuilding
  import opened TreeGrowth
  import opened TreeLoop
  import opened TreeShape
  import opened BitLengths
  import opened FirstPasses
  import opened TreeLengths
  import opened CodeSpace

  lemma PassLeaves(order: seq<ush>, f: seq<ush>, d0: seq<ush>, d: seq<ush>, elems: nat, node: nat, w0: multiset<nat>,
                   maxCode: nat)
    requires FullTree(order, f, d0, elems, node, w0)
    requires Unused(f, d, elems) && |d| == |f| && maxCode < elems
    requires forall i :: maxCode < i < elems ==> f[i] == 0
    ensures LeavesAre(order, f, d, elems, node - 1, maxCode)
  {
    FullTreeShape(order, f, d0, elems, node, w0);
    forall i | 0 <= i < elems
      ensures i in order <==> f[i] != 0
    {
      LeafInOrder(order, f, d0, elems, node, w0, i);
    }
  }

  ghost predicate AllPassed(order: seq<ush>, d: seq<ush>, elems: nat, root: nat, maxLength: nat) {
    Passed(order, d, elems, root, maxLength, |order|) && 1 <= maxLength <= 15
  }

  /** Every leaf has a length between 1 and the greatest. */
  lemma LeafLengths(order: seq<ush>, f: seq<ush>, d: seq<ush>, elems: nat, root: nat, maxLength: nat, maxCode: nat, i: nat)
    requires AllPassed(order, d, elems, root, maxLength) && LeavesAre(order, f, d, elems, root, maxCode)
    requires i < elems
    ensures f[i] != 0 ==> 1 <= d[i] <= maxLength
    ensures f[i] == 0 ==> d[i] == 0
  {
    if f[i] != 0 {
      assert i in order;
      var p :| 0 <= p < |order| && order[p] == i;
      assert Lengthened(order, d, root, maxLength, p);
    }
  }

  lemma InnerLengths(order: seq<ush>, d: seq<ush>, elems: nat, root: nat, maxLength: nat, x: nat)
    requires AllPassed(order, d, elems, root, maxLength) && elems <= x <= root
    ensures d[x] <= maxLength
  {
    assert x in order;
    var p :| 0 <= p < |order| && order[p] == x;
    if p > 0 { assert Lengthened(order, d, root, maxLength, p); }
  }

  lemma PassIsCut(order: seq<ush>, f: seq<ush>, d: seq<ush>, elems: nat, root: nat, maxLength: nat, maxCode: nat)
    requires AllPassed(order, d, elems, root, maxLength) && LeavesAre(order, f, d, elems, root, maxCode)
    ensures Cut(order, elems, root, d[..root + 1], maxLength)
  {
    var lens := d[..root + 1];
    forall i | 0 <= i < |lens|
      ensures lens[i] <= maxLength
    {
      if i < elems {
        LeafLengths(order, f, d, elems, root, maxLength, maxCode, i);
      } else {
        InnerLengths(order, d, elems, root, maxLength, i);
      }
    }
    forall p {:trigger order[p]} | 1 <= p < |order| && 0 <= Dad(root, p) < |lens|
      ensures lens[order[p]] == Min(lens[Dad(root, p)] + 1, maxLength)
    {
      assert Lengthened(order, d, root, maxLength, p);
    }
  }

  lemma OversAreOverflows(order: seq<ush>, d: seq<ush>, elems: nat, root: nat, maxLength: nat, overs: seq<int>)
    requires Shape(order, elems, root) && root < |d|
    requires Overs(overs, d, root, maxLength) && |overs| == |order| - 1
    ensures overs == Overflows(order, root, d[..root + 1], maxLength)
  {
    var o := Overflows(order, root, d[..root + 1], maxLength);
    forall q | 0 <= q < |overs|
      ensures overs[q] == o[q]
    {
      DadInRange(order, elems, root, q + 1);
      assert OverAt(overs, d, root, maxLength, q);
    }
  }

  /** Where gen_bitlen stands after its first pass, which has cut half pairs of brothers. */
  ghost predicate Measured(bl: seq<nat>, f: seq<ush>, d: seq<ush>, elems: nat, maxCode: nat, maxLength: nat, half: nat) {
    && maxCode < elems <= |f| && elems <= |d| && 1 <= maxLength <= 15
    && Histogram(bl, d, maxCode)
    && (forall i :: 0 <= i < elems ==> LengthOk(f, d, maxLength, i))
    && BlSpace(bl) == Pow2(15) + Pow2(15 - maxLength) * half
    && (half == 0 || half < bl[maxLength])
  }

  /** bl counts the codes of each length. */
  ghost predicate Histogram(bl: seq<nat>, d: seq<ush>, maxCode: nat) {
    && maxCode < |d| && |bl| == 16 && bl[0] == 0
    && forall b :: 1 <= b < 16 ==> bl[b] == Count(d[..maxCode + 1], b)
  }

  /** Code i has a length, within bounds, if and only if it occurs. */
  ghost predicate LengthOk(f: seq<ush>, d: seq<ush>, maxLength: nat, i: nat) {
    && i < |f| && i < |d| && 1 <= maxLength <= 15
    && (f[i] != 0 ==> 1 <= d[i] <= maxLength)
    && (f[i] == 0 ==> d[i] == 0)
  }

  lemma NoneOfLengthZero(ids: seq<ush>, bs: seq<nat>, maxCode: int)
    requires |ids| == |bs| && forall p :: 0 <= p < |ids| && ids[p] <= maxCode ==> bs[p] >= 1
    ensures LeafCount(ids, bs, maxCode, 0) == 0
  {
    if ids != [] {
      var n := |ids| - 1;
      NoneOfLengthZero(ids[..n], bs[..n], maxCode);
    }
  }

  /** The situation at the end of the pass. */
  ghost predicate PassEnd(order: seq<ush>, f: seq<ush>, d: seq<ush>, elems: nat, root: nat, maxLength: nat, maxCode: nat,
                          c: Counters, c0: Counters, k: Tariff, bs: seq<nat>, overs: seq<int>) {
    && LeavesAre(order, f, d, elems, root, maxCode)
    && AllPassed(order, d, elems, root, maxLength)
    && InPass(order, d, elems, root, maxLength, |order|, c, c0, k, bs, overs)
    && k.f == f && k.maxCode == maxCode && maxCode < |k.xs| && (k.isStatic ==> maxCode < |k.slens|)
  }

  lemma EndHistogram(order: seq<ush>, f: seq<ush>, d: seq<ush>, elems: nat, root: nat, maxLength: nat, maxCode: nat,
                     c: Counters, c0: Counters, k: Tariff, bs: seq<nat>, overs: seq<int>)
    requires PassEnd(order, f, d, elems, root, maxLength, maxCode, c, c0, k, bs, overs)
    ensures Histogram(c.blCount, d, maxCode)
  {
    assert order[1..|order|] == order[1..];
    forall b | 1 <= b < 16
      ensures c.blCount[b] == Count(d[..maxCode + 1], b)
    {
      CountsAgree(order, bs, f, d, elems, root, maxCode, b);
    }
    EndLengths(order, f, d, elems, root, maxLength, maxCode, c, c0, k, bs, overs);
    NoneOfLengthZero(order[1..], bs, maxCode);
  }

  lemma EndLengths(order: seq<ush>, f: seq<ush>, d: seq<ush>, elems: nat, root: nat, maxLength: nat, maxCode: nat,
                   c: Counters, c0: Counters, k: Tariff, bs: seq<nat>, overs: seq<int>)
    requires PassEnd(order, f, d, elems, root, maxLength, maxCode, c, c0, k, bs, overs)
    ensures |bs| == |order[1..]|
    ensures forall p :: 0 <= p < |bs| && order[1..][p] <= maxCode ==> bs[p] >= 1
  {
    forall p | 0 <= p < |bs| && order[1..][p] <= maxCode
      ensures bs[p] >= 1
    {
      assert order[1..][p] == order[p + 1];
      assert ListAt(bs, order, d, p);
      assert f[order[p + 1]] != 0;
      LeafLengths(order, f, d, elems, root, maxLength, maxCode, order[p + 1]);
    }
  }

  lemma EndSpace(order: seq<ush>, f: seq<ush>, d: seq<ush>, elems: nat, root: nat, maxLength: nat, maxCode: nat,
                 c: Counters, c0: Counters, k: Tariff, bs: seq<nat>, overs: seq<int>)
    returns (half: nat)
    requires PassEnd(order, f, d, elems, root, maxLength, maxCode, c, c0, k, bs, overs)
    ensures Sum(overs) == 2 * half && (half == 0 || half < Count(d[..maxCode + 1], maxLength))
    ensures Space(d[..maxCode + 1]) == Pow2(15) + Pow2(15 - maxLength) * half
  {
    hide Pow2, Sum;
    var lens := d[..root + 1];
    PassIsCut(order, f, d, elems, root, maxLength, maxCode);
    OversAreOverflows(order, d, elems, root, maxLength, overs);
    CutSpace(order, f, d, elems, root, maxLength, maxCode);
    half := CutCounts(order, f, d, elems, root, maxLength, maxCode);
    HalfOf(Space(d[..maxCode + 1]), Pow2(15), Pow2(15 - maxLength), half);
  }

  lemma HalfOf(a: int, b: int, u: int, half: int)
    requires 2 * a == 2 * b + u * (2 * half)
    ensures a == b + u * half
  {
  }

  lemma CutSpace(order: seq<ush>, f: seq<ush>, d: seq<ush>, elems: nat, root: nat, maxLength: nat, maxCode: nat)
    requires LeavesAre(order, f, d, elems, root, maxCode) && AllPassed(order, d, elems, root, maxLength)
    requires Cut(order, elems, root, d[..root + 1], maxLength)
    ensures 2 * Space(d[..maxCode + 1])
         == 2 * Pow2(15) + Pow2(15 - maxLength) * Sum(Overflows(order, root, d[..root + 1], maxLength))
  {
    KraftExcess(order, elems, root, d[..root + 1], maxLength);
    UsedLengths(order, f, d, elems, root, maxLength, maxCode);
    LeavesSpace(order, f, d, elems, root, maxCode);
  }

  lemma CutCounts(order: seq<ush>, f: seq<ush>, d: seq<ush>, elems: nat, root: nat, maxLength: nat, maxCode: nat)
    returns (half: nat)
    requires LeavesAre(order, f, d, elems, root, maxCode)
    requires Cut(order, elems, root, d[..root + 1], maxLength)
    ensures Sum(Overflows(order, root, d[..root + 1], maxLength)) == 2 * half
    ensures (half == 0 || half < Count(d[..maxCode + 1], maxLength))
  {
    CutLeaves(order, elems, root, d[..root + 1], maxLength);
    half := Range(AtTop(d[..root + 1], maxLength), elems, root + 1);
    TopCount(order, f, d, elems, root, maxCode, maxLength);
  }

  lemma UsedLengths(order: seq<ush>, f: seq<ush>, d: seq<ush>, elems: nat, root: nat, maxLength: nat, maxCode: nat)
    requires AllPassed(order, d, elems, root, maxLength) && LeavesAre(order, f, d, elems, root, maxCode)
    ensures forall i :: 0 <= i < elems ==> LengthOk(f, d, maxLength, i)
    ensures forall i :: 0 <= i < elems && f[i] != 0 ==> 1 <= d[i] <= 15
  {
    forall i | 0 <= i < elems
      ensures LengthOk(f, d, maxLength, i)
      ensures f[i] != 0 ==> 1 <= d[i] <= 15
    {
      LeafLengths(order, f, d, elems, root, maxLength, maxCode, i);
    }
  }

  lemma CodesBounded(f: seq<ush>, d: seq<ush>, elems: nat, maxLength: nat, n: nat)
    requires n <= elems <= |d| && forall i :: 0 <= i < elems ==> LengthOk(f, d, maxLength, i)
    ensures forall i :: 0 <= i < n ==> d[..n][i] <= 15
  {
    forall i | 0 <= i < n
      ensures d[..n][i] <= 15
    {
      assert LengthOk(f, d, maxLength, i);
    }
  }

  lemma EndMeasured(order: seq<ush>, f: seq<ush>, d: seq<ush>, elems: nat, root: nat, maxLength: nat, maxCode: nat,
                    c: Counters, c0: Counters, k: Tariff, bs: seq<nat>, overs: seq<int>)
    returns (half: nat)
    requires PassEnd(order, f, d, elems, root, maxLength, maxCode, c, c0, k, bs, overs)
    ensures Sum(overs) == 2 * half
    ensures Measured(c.blCount, f, d, elems, maxCode, maxLength, half)
  {
    EndHistogram(order, f, d, elems, root, maxLength, maxCode, c, c0, k, bs, overs);
    half := EndSpace(order, f, d, elems, root, maxLength, maxCode, c, c0, k, bs, overs);
    UsedLengths(order, f, d, elems, root, maxLength, maxCode);
    CodesBounded(f, d, elems, maxLength, maxCode + 1);
    HistogramSpace(c.blCount, d[..maxCode + 1]);
  }

  /** Both block lengths have grown by exactly what the codes cost. */
  lemma EndTotals(order: seq<ush>, f: seq<ush>, d: seq<ush>, elems: nat, root: nat, maxLength: nat, maxCode: nat,
                  c: Counters, c0: Counters, k: Tariff, bs: seq<nat>, overs: seq<int>)
    requires PassEnd(order, f, d, elems, root, maxLength, maxCode, c, c0, k, bs, overs)
    ensures c.opt == U32(c0.opt + TotalBits(f, d, k.xs, maxCode + 1))
    ensures k.isStatic ==> c.sta == U32(c0.sta + TotalBits(f, k.slens, k.xs, maxCode + 1))
    ensures !k.isStatic ==> c.sta == c0.sta
  {
    hide StaticOf, TotalBits;
    assert order[1..|order|] == order[1..];
    EndListed(order, d, bs);
    TotalsAgree(order, bs, f, d, d, k.xs, elems, root, maxCode);
    if k.isStatic {
      StaticListed(order, k.slens);
      TotalsAgree(order, StaticOf(order[1..], k.slens), f, d, k.slens, k.xs, elems, root, maxCode);
    }
  }

  lemma EndListed(order: seq<ush>, d: seq<ush>, bs: seq<nat>)
    requires Listing(bs, order, d) && |bs| == |order| - 1
    ensures forall p :: 1 <= p < |order| ==> order[p] < |d| && d[order[p]] == bs[p - 1]
  {
    forall p | 1 <= p < |order|
      ensures order[p] < |d| && d[order[p]] == bs[p - 1]
    {
      assert ListAt(bs, order, d, p - 1);
    }
  }

  lemma StaticListed(order: seq<ush>, slens: seq<ush>)
    requires |order| > 0
    ensures |StaticOf(order[1..], slens)| == |order| - 1
    ensures forall p :: 1 <= p < |order| && order[p] < |slens| ==> slens[order[p]] == StaticOf(order[1..], slens)[p - 1]
  {
    forall p | 1 <= p < |order| && order[p] < |slens|
      ensures slens[order[p]] == StaticOf(order[1..], slens)[p - 1]
    {
      assert order[1..][p - 1] == order[p];
    }
  }

  // ----- the tree, and how the lengths follow from it

  function NoExtra(n: nat): (r: seq<nat>)
    ensures |r| == n && forall i :: 0 <= i < n ==> r[i] == 0
  {
    seq(n, _ => 0)
  }

  lemma FathersWeigh(order: seq<ush>, f: seq<ush>, d0: seq<ush>, elems: nat, node: nat, root: nat)
    requires Shape(order, elems, root) && root == node - 1 && root < |f|
    requires Paired(order[1..], f, d0, elems, node)
    ensures Fathers(order, elems, root, f[..root + 1])
  {
    forall j | 0 <= j <= root - elems
      ensures f[..root + 1][root - j] == Plus(f[..root + 1][order[2 * j + 1]], f[..root + 1][order[2 * j + 2]])
    {
      assert Father(order[1..], f, node, j);
      assert order[1..][2 * j] == order[2 * j + 1] && order[1..][2 * j + 1] == order[2 * j + 2];
    }
  }

  lemma SonFreqs(order: seq<ush>, f: seq<ush>, root: nat)
    requires |order| > 0 && Indices(order, root + 1) && root < |f|
    ensures Sum(Sons(f[..root + 1], order)) == Sum(Freqs(order[1..], f))
  {
    assert Sons(f[..root + 1], order) == Freqs(order[1..], f);
  }

  /** A Huffman tree: `order` lists its nodes, the root first, with their weights and depths. */
  datatype HuffmanTree = HuffmanTree(order: seq<nat>, root: nat, weights: seq<nat>, depths: seq<nat>)

  /** t joins the symbols below elems that occur in f, each father weighing what his sons weigh; the joins cost
      as little as any, and no node is heavier than one before it. */
  ghost predicate TreeFor(t: HuffmanTree, f: seq<ush>, elems: nat, w0: multiset<nat>) {
    && Uncut(t.order, elems, t.root, t.weights, t.depths) && elems <= |f|
    && (forall i :: 0 <= i < elems ==> (i in t.order <==> f[i] != 0) && (f[i] != 0 ==> t.weights[i] == f[i]))
    && Sum(Sons(t.weights, t.order)) == HuffmanCost(w0)
    && NoHeavier(t.order, t.weights)
  }

  /** More frequent symbols have no greater lengths. */
  ghost predicate RarerNoShorter(f: seq<ush>, d: seq<nat>, elems: nat) {
    elems <= |f| && elems <= |d| && forall i, j :: 0 <= i < elems && 0 <= j < elems && 0 < f[i] < f[j] ==> d[j] <= d[i]
  }

  /** The depths in a Huffman tree are such lengths. */
  lemma RarerIsDeeper(t: HuffmanTree, f: seq<ush>, elems: nat, w0: multiset<nat>)
    requires TreeFor(t, f, elems, w0) && elems <= |t.depths|
    ensures RarerNoShorter(f, t.depths, elems)
  {
    hide Uncut, HuffmanCost, Sum, NoHeavier;
    forall i, j | 0 <= i < elems && 0 <= j < elems && 0 < f[i] < f[j]
      ensures t.depths[j] <= t.depths[i]
    {
      assert i in t.order && j in t.order;
      var p :| 0 <= p < |t.order| && t.order[p] == i;
      var q :| 0 <= q < |t.order| && t.order[q] == j;
      LighterIsDeeper(t.order, elems, t.root, t.weights, t.depths, p, q);
    }
  }

  lemma FallingWeights(order: seq<ush>, f: seq<ush>, root: nat)
    requires Falling(order, f) && Indices(order, root + 1) && root < |f|
    ensures NoHeavier(order, f[..root + 1])
  {
  }

  lemma TreeForNow(order: seq<ush>, f: seq<ush>, d0: seq<ush>, d: seq<ush>, elems: nat, node: nat, root: nat, w0: multiset<nat>,
                   maxCode: nat)
    returns (t: HuffmanTree)
    requires FullTree(order, f, d0, elems, node, w0) && root == node - 1
    requires LeavesAre(order, f, d, elems, root, maxCode)
    ensures t.order == order && t.root == root && t.weights == f[..root + 1] && TreeFor(t, f, elems, w0)
  {
    hide HuffmanCost, Sum, Natural, Fathers, Shape, NoHeavier;
    FullTreeShape(order, f, d0, elems, node, w0);
    FallingWeights(order, f, root);
    var depths := NaturalDepths(order, elems, root);
    t := HuffmanTree(order, root, f[..root + 1], depths);
    FathersWeigh(order, f, d0, elems, node, root);
    SonFreqs(order, f, root);
  }

  /** The code whose lengths are the depths costs what the joins cost. */
  lemma TreeCost(t: HuffmanTree, order: seq<ush>, f: seq<ush>, d: seq<ush>, elems: nat, root: nat, maxCode: nat, w0: multiset<nat>)
    requires LeavesAre(order, f, d, elems, root, maxCode)
    requires TreeFor(t, f, elems, w0) && t.order == order && t.root == root && t.weights == f[..root + 1]
    ensures TotalBits(f, t.depths, NoExtra(elems), maxCode + 1) == HuffmanCost(w0)
  {
    hide HuffmanCost, Sum, TotalBits, Shape, Natural, Fathers;
    LeafCost(order, elems, root, f[..root + 1], t.depths);
    CostTermsAreLeaves(order, f, d, t.depths, elems, root, maxCode);
    PickedCost(order, f, d, t.depths, elems, root, maxCode);
  }

  lemma CostTermsAreLeaves(order: seq<ush>, f: seq<ush>, d: seq<ush>, depths: seq<nat>, elems: nat, root: nat, maxCode: nat)
    requires LeavesAre(order, f, d, elems, root, maxCode) && |depths| == root + 1
    ensures CostTerms(f, depths, NoExtra(elems), maxCode + 1, root + 1) == Leaves(NodeCosts(f[..root + 1], depths), elems)
  {
    var g, h := CostTerms(f, depths, NoExtra(elems), maxCode + 1, root + 1), Leaves(NodeCosts(f[..root + 1], depths), elems);
    forall i | 0 <= i < root + 1
      ensures g[i] == h[i]
    {
      if maxCode < i < elems {
        assert f[i] == 0;
        ZeroTimes(depths[i]);
      }
    }
  }

  lemma PickedCost(order: seq<ush>, f: seq<ush>, d: seq<ush>, depths: seq<nat>, elems: nat, root: nat, maxCode: nat)
    requires LeavesAre(order, f, d, elems, root, maxCode) && |depths| == root + 1
    ensures Sum(Pick(CostTerms(f, depths, NoExtra(elems), maxCode + 1, root + 1), order))
         == TotalBits(f, depths, NoExtra(elems), maxCode + 1)
  {
    PickHead(CostTerms(f, depths, NoExtra(elems), maxCode + 1, root + 1), order);
    SonsAsCosts(order, f, d, depths, NoExtra(elems), elems, root, maxCode);
  }

  /** No symbol that occurs lies deeper than maxLength. */
  ghost predicate NoDeeper(t: HuffmanTree, f: seq<ush>, elems: nat, maxLength: nat) {
    forall i :: 0 <= i < elems && i < |f| && i < |t.depths| && f[i] != 0 ==> t.depths[i] <= maxLength
  }

  /** The lengths are the depths, as far as maxLength allows. */
  ghost predicate CutOff(t: HuffmanTree, f: seq<ush>, d: seq<ush>, elems: nat, maxLength: nat) {
    elems <= |t.depths| && elems <= |d| && elems <= |f|
    && forall i :: 0 <= i < elems && f[i] != 0 ==> d[i] == Min(t.depths[i], maxLength)
  }

  /** Nothing has been cut exactly if no symbol lies too deep. */
  lemma EndDepths(t: HuffmanTree, order: seq<ush>, f: seq<ush>, d: seq<ush>, elems: nat, root: nat, w0: multiset<nat>,
                  maxLength: nat, maxCode: nat, overs: seq<int>)
    requires LeavesAre(order, f, d, elems, root, maxCode) && AllPassed(order, d, elems, root, maxLength)
    requires TreeFor(t, f, elems, w0) && t.order == order && t.root == root
    requires Overs(overs, d, root, maxLength) && |overs| == |order| - 1
    ensures CutOff(t, f, d, elems, maxLength)
    ensures Sum(overs) == 0 <==> NoDeeper(t, f, elems, maxLength)
  {
    hide HuffmanCost, Sum, Sons, Natural, Fathers, NoDeeper, Overs, Depths;
    var lens := d[..root + 1];
    PassIsCut(order, f, d, elems, root, maxLength, maxCode);
    OversAreOverflows(order, d, elems, root, maxLength, overs);
    CutMeansDeep(order, elems, root, lens, maxLength, t.depths);
    forall i | 0 <= i < elems && f[i] != 0
      ensures d[i] == Min(t.depths[i], maxLength)
      ensures exists q :: 0 <= q < |order| && order[q] == i
    {
      assert i in order;
      var q :| 0 <= q < |order| && order[q] == i;
      CutAt(order, elems, root, lens, maxLength, t.depths, q);
    }
    DepthsOfLeaves(t, order, f, elems, root, maxLength);
  }

  lemma DepthsOfLeaves(t: HuffmanTree, order: seq<ush>, f: seq<ush>, elems: nat, root: nat, maxLength: nat)
    requires t.order == order && elems <= |f| && elems <= root && |t.depths| == root + 1 && Indices(order, root + 1)
    requires forall i :: 0 <= i < elems ==> (i in order <==> f[i] != 0)
    ensures NoDeeper(t, f, elems, maxLength) <==>
              forall q :: 0 <= q < |order| && order[q] < elems ==> t.depths[order[q]] <= maxLength
  {
    if NoDeeper(t, f, elems, maxLength) {
      forall q | 0 <= q < |order| && order[q] < elems
        ensures t.depths[order[q]] <= maxLength
      {
        assert order[q] in order;
      }
    }
    if forall q :: 0 <= q < |order| && order[q] < elems ==> t.depths[order[q]] <= maxLength {
      forall i | 0 <= i < elems && f[i] != 0
        ensures t.depths[i] <= maxLength
      {
        assert i in order;
        var q :| 0 <= q < |order| && order[q] == i;
      }
    }
  }
}
