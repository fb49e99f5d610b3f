/** gen_bitlen as a whole. */
module CodeLengths {
  import opened Bits
  import opened Sums
  import opened Rfc1951
  import opened Huffman
  import opened Heaps
  import opened Trees
  import opened TreeGrowth
  import opened TreeLoop
  import opened BitLengths
  import opened FirstPasses
  import opened TreeLengths
  import opened CodeSpace
  import opened AfterPass
  import opened Repair
  import opened Reassign

  /** The lengths d are right for the frequencies f: a complete code on exactly the
      codes that occur, none longer than maxLength, counted in bl. */
  ghost predicate GoodLengths(f: seq<ush>, d: seq<ush>, bl: seq<nat>, elems: nat, maxCode: nat, maxLength: nat) {
    && maxCode < elems <= |f| && elems <= |d| && 1 <= maxLength <= 15
    && Histogram(bl, d, maxCode)
    && (forall i :: 0 <= i < elems ==> LengthOk(f, d, maxLength, i))
    && Space(d[..maxCode + 1]) == Pow2(15)
  }

  lemma {:induction false} CountNone(lens: seq<nat>, b: nat)
    requires forall i :: 0 <= i < |lens| ==> lens[i] != b
    ensures Count(lens, b) == 0
  {
    if lens != [] { CountNone(lens[..|lens| - 1], b); }
  }

  lemma {:induction false} CountsTotal(lens: seq<nat>)
    requires forall i :: 0 <= i < |lens| ==> lens[i] < 16
    ensures Sum(CountsOf(lens)) == |lens|
  {
    if lens == [] {
      SumZero(CountsOf(lens));
    } else {
      var rest, last := lens[..|lens| - 1], lens[|lens| - 1];
      CountsTotal(rest);
      var c := CountsOf(rest);
      assert CountsOf(lens) == c[last := c[last] + 1];
      SumUpdate(c, last, c[last] + 1);
    }
  }

  ghost predicate AtMost(lens: seq<nat>, top: nat) {
    forall i :: 0 <= i < |lens| ==> lens[i] <= top
  }

  lemma BoundedCodes(f: seq<ush>, d: seq<ush>, elems: nat, maxCode: nat, maxLength: nat)
    requires maxCode < elems <= |d| && forall i :: 0 <= i < elems ==> LengthOk(f, d, maxLength, i)
    ensures AtMost(d[..maxCode + 1], maxLength) && maxLength <= 15
  {
    assert LengthOk(f, d, maxLength, 0);
    var lens := d[..maxCode + 1];
    forall i | 0 <= i < |lens|
      ensures lens[i] <= maxLength
    {
      assert LengthOk(f, d, maxLength, i);
    }
  }

  lemma HistogramTotal(bl: seq<nat>, d: seq<ush>, maxCode: nat)
    requires Histogram(bl, d, maxCode) && AtMost(d[..maxCode + 1], 15)
    ensures Sum(bl) <= maxCode + 1
  {
    var c := CountsOf(d[..maxCode + 1]);
    CountsTotal(d[..maxCode + 1]);
    assert bl == c[0 := 0];
    SumUpdate(c, 0, 0);
  }

  /** What is counted can be repaired: there are no more codes than fit. */
  lemma MeasuredIsOverfull(bl: seq<nat>, f: seq<ush>, d: seq<ush>, elems: nat, maxCode: nat, maxLength: nat, half: nat,
                           total: nat)
    requires Measured(bl, f, d, elems, maxCode, maxLength, half)
    requires 3 <= elems <= Pow2(maxLength) && total == Sum(bl) && half > 0
    ensures Overfull(bl, maxLength, half, total)
  {
    BoundedCodes(f, d, elems, maxCode, maxLength);
    NoneAbove(bl, d, maxCode, maxLength);
    HistogramTotal(bl, d, maxCode);
    LongEnough(elems, maxLength);
  }

  lemma LongEnough(elems: nat, maxLength: nat)
    requires 3 <= elems <= Pow2(maxLength)
    ensures maxLength >= 2
  {
  }

  lemma NoneAbove(bl: seq<nat>, d: seq<ush>, maxCode: nat, maxLength: nat)
    requires Histogram(bl, d, maxCode) && AtMost(d[..maxCode + 1], maxLength)
    ensures forall b :: maxLength < b < 16 ==> bl[b] == 0
  {
    forall b | maxLength < b < 16
      ensures bl[b] == 0
    {
      CountNone(d[..maxCode + 1], b);
    }
  }

  lemma {:induction false} SumNat(s: seq<nat>)
    ensures Sum(s) >= 0
  {
    if s != [] { SumNat(s[..|s| - 1]); }
  }

  lemma NoZeroTally(order: seq<ush>, f: seq<ush>, d: seq<ush>, elems: nat, maxCode: nat, maxLength: nat, q: nat)
    requires q <= |order| && LeavesUsed(order, f, maxCode) && maxCode < elems
    requires forall i :: 0 <= i < elems ==> LengthOk(f, d, maxLength, i)
    ensures Tally(order, d, q, maxCode, 0) == 0
    decreases |order| - q
  {
    if q < |order| {
      NoZeroTally(order, f, d, elems, maxCode, maxLength, q + 1);
      if order[q] <= maxCode { assert LengthOk(f, d, maxLength, order[q]); }
    }
  }

  /** The histogram counts the leaves. */
  lemma LeafTotalCount(order: seq<ush>, f: seq<ush>, d: seq<ush>, elems: nat, root: nat, maxCode: nat, maxLength: nat, bl: seq<nat>)
    requires LeavesAre(order, f, d, elems, root, maxCode) && LeavesUsed(order, f, maxCode)
    requires forall i :: 0 <= i < elems ==> LengthOk(f, d, maxLength, i)
    requires Histogram(bl, d, maxCode)
    ensures LeafNum(order, d, 0, maxCode) == Sum(bl)
  {
    BoundedCodes(f, d, elems, maxCode, maxLength);
    forall i | 0 <= i <= maxCode && i < |d|
      ensures d[i] < 16
    {
      assert d[..maxCode + 1][i] == d[i];
    }
    TalliesSum(order, d, 0, maxCode);
    var t := Tallies(order, d, 0, maxCode);
    forall b | 0 <= b < 16
      ensures t[b] == bl[b]
    {
      if b == 0 { NoZeroTally(order, f, d, elems, maxCode, maxLength, 0); }
      else { TallyIsCount(order, f, d, elems, root, maxCode, b); }
    }
    assert t == bl;
  }

  lemma {:induction false} TallyEnd(order: seq<ush>, d: seq<ush>, maxCode: nat)
    ensures forall b :: Tally(order, d, |order|, maxCode, b) == 0
    ensures LeafNum(order, d, |order|, maxCode) == 0
  {
  }

  lemma ReassignStart(order: seq<ush>, f: seq<ush>, d: seq<ush>, elems: nat, maxCode: nat, maxLength: nat, bl: seq<nat>, total: nat)
    requires maxCode < elems <= |d| && 1 <= maxLength <= 15
    requires forall i :: 0 <= i < elems ==> LengthOk(f, d, maxLength, i)
    requires |bl| == 16 && bl[0] == 0 && (forall b :: maxLength < b < 16 ==> bl[b] == 0) && Sum(bl) == total
    requires LeafNum(order, d, 0, maxCode) == total
    ensures Reassigning(order, f, d, elems, maxCode, maxLength, bl, |order|, maxLength, bl[maxLength])
  {
    TallyEnd(order, d, maxCode);
    SumZero(bl[maxLength + 1..]);
  }

  lemma ReassignEnd(order: seq<ush>, f: seq<ush>, d: seq<ush>, elems: nat, root: nat, maxCode: nat, maxLength: nat,
                    bl: seq<nat>, q: nat)
    requires |bl| == 16 && bl[0] == 0 && Reassigning(order, f, d, elems, maxCode, maxLength, bl, q, 0, bl[0])
    requires LeavesAre(order, f, d, elems, root, maxCode)
    ensures Histogram(bl, d, maxCode)
  {
    AboveAll(bl, 0);
    forall b | 1 <= b < 16
      ensures bl[b] == Count(d[..maxCode + 1], b)
    {
      NoLeavesBefore(order, d, 0, q, maxCode, b);
      TallyIsCount(order, f, d, elems, root, maxCode, b);
    }
  }

  lemma StillLeaves(order: seq<ush>, f: seq<ush>, d: seq<ush>, e: seq<ush>, elems: nat, root: nat, maxCode: nat, maxLength: nat)
    requires LeavesAre(order, f, d, elems, root, maxCode) && |e| == |d|
    requires forall i :: 0 <= i < elems ==> LengthOk(f, e, maxLength, i)
    ensures LeavesAre(order, f, e, elems, root, maxCode)
  {
    forall i | 0 <= i < elems && f[i] == 0
      ensures e[i] == 0
    {
      assert LengthOk(f, e, maxLength, i);
    }
  }

  // ----- before the pass

  lemma FullTreeParts(order: seq<ush>, f: seq<ush>, d: seq<ush>, elems: nat, node: nat, w0: multiset<nat>)
    requires FullTree(order, f, d, elems, node, w0)
    ensures elems < node <= |d| == |f| && |order| > 0 && Paired(order[1..], f, d, elems, node)
  {
    hide HuffmanCost, Sum, Paired;
  }

  /** The root's length is set; every other node still names its father. */
  lemma PassStart(order: seq<ush>, f: seq<ush>, d: seq<ush>, e: seq<ush>, elems: nat, node: nat, root: nat,
                  maxLength: nat, w0: multiset<nat>)
    requires FullTree(order, f, d, elems, node, w0) && root == node - 1
    requires root < |d| && e == d[root := 0]
    ensures Passed(order, e, elems, root, maxLength, 1)
  {
    hide FullTree, Paired;
    FullTreeShape(order, f, d, elems, node, w0);
    FullTreeParts(order, f, d, elems, node, w0);
    forall q | 1 <= q < |order|
      ensures StillDad(order, e, root, q)
    {
      DadOfSon(order, f, d, elems, node, q);
      assert order[q] != order[0];
    }
  }

  lemma UsedOnlyAtStart(order: seq<ush>, f: seq<ush>, d: seq<ush>, elems: nat, node: nat, w0: multiset<nat>)
    requires FullTree(order, f, d, elems, node, w0)
    ensures UsedOnly(order, f, elems)
  {
    forall q | 0 <= q < |order| && order[q] < elems
      ensures f[order[q]] != 0
    {
      LeafInOrder(order, f, d, elems, node, w0, order[q]);
    }
  }

  lemma CountedStart(c: Counters, k: Tariff, order: seq<ush>)
    requires |order| > 0 && |c.blCount| == 16 && forall b :: 0 <= b < 16 ==> c.blCount[b] == 0
    requires c.opt < 0x1_0000_0000 && c.sta < 0x1_0000_0000
    ensures Counted(c, c, k, order[1..1], [])
  {
    assert order[1..1] == [];
  }

  lemma InPassStart(order: seq<ush>, f: seq<ush>, d: seq<ush>, e: seq<ush>, elems: nat, node: nat, root: nat,
                    maxLength: nat, w0: multiset<nat>, c: Counters, k: Tariff)
    requires FullTree(order, f, d, elems, node, w0) && root == node - 1
    requires root < |d| && e == d[root := 0] && Unused(f, d, elems) && k.f == f
    requires |c.blCount| == 16 && forall b :: 0 <= b < 16 ==> c.blCount[b] == 0
    requires c.opt < 0x1_0000_0000 && c.sta < 0x1_0000_0000
    ensures InPass(order, e, elems, root, maxLength, 1, c, c, k, [], [])
  {
    PassStart(order, f, d, e, elems, node, root, maxLength, w0);
    UsedOnlyAtStart(order, f, d, elems, node, w0);
    CountedStart(c, k, order);
  }

  method ClearCounts(blCount: array<nat>)
    requires blCount.Length == 16
    modifies blCount
    ensures forall b :: 0 <= b < 16 ==> blCount[b] == 0
  {
    var bits := 0;
    while bits < blCount.Length
      invariant 0 <= bits <= blCount.Length
      invariant forall b :: 0 <= b < bits ==> blCount[b] == 0
    {
      blCount[bits] := 0;
      bits := bits + 1;
    }
  }

  // ----- after the pass

  lemma LeavesAreUsed(order: seq<ush>, f: seq<ush>, d: seq<ush>, elems: nat, root: nat, maxCode: nat)
    requires LeavesAre(order, f, d, elems, root, maxCode)
    ensures LeavesUsed(order, f, maxCode)
  {
    forall p | 0 <= p < |order| && order[p] <= maxCode
      ensures order[p] < |f| && f[order[p]] != 0
    {
      assert order[p] in order;
    }
  }

  /** A repaired histogram, and lengths given out by it. */
  lemma RepairedIsGood(order: seq<ush>, f: seq<ush>, d: seq<ush>, e: seq<ush>, elems: nat, root: nat, maxCode: nat,
                       maxLength: nat, bl: seq<nat>, q: nat, total: nat)
    requires LeavesAre(order, f, d, elems, root, maxCode) && |e| == |d|
    requires Overfull(bl, maxLength, 0, total)
    requires Reassigning(order, f, e, elems, maxCode, maxLength, bl, q, 0, bl[0])
    ensures GoodLengths(f, e, bl, elems, maxCode, maxLength)
  {
    StillLeaves(order, f, d, e, elems, root, maxCode, maxLength);
    ReassignEnd(order, f, e, elems, root, maxCode, maxLength, bl, q);
    GoodSpace(f, e, bl, elems, maxCode, maxLength);
  }

  lemma GoodSpace(f: seq<ush>, d: seq<ush>, bl: seq<nat>, elems: nat, maxCode: nat, maxLength: nat)
    requires maxCode < elems <= |d| && forall i :: 0 <= i < elems ==> LengthOk(f, d, maxLength, i)
    requires Histogram(bl, d, maxCode)
    ensures Space(d[..maxCode + 1]) == BlSpace(bl)
  {
    BoundedCodes(f, d, elems, maxCode, maxLength);
    HistogramSpace(bl, d[..maxCode + 1]);
  }

  lemma MeasuredIsGood(f: seq<ush>, d: seq<ush>, bl: seq<nat>, elems: nat, maxCode: nat, maxLength: nat)
    requires Measured(bl, f, d, elems, maxCode, maxLength, 0)
    ensures GoodLengths(f, d, bl, elems, maxCode, maxLength)
  {
    GoodSpace(f, d, bl, elems, maxCode, maxLength);
  }

  /** The repair can start from the measured lengths. */
  lemma RepairStart(order: seq<ush>, f: seq<ush>, d: seq<ush>, bl: seq<nat>, elems: nat, root: nat, maxCode: nat,
                    maxLength: nat, half: nat, total: nat)
    requires LeavesAre(order, f, d, elems, root, maxCode)
    requires Measured(bl, f, d, elems, maxCode, maxLength, half)
    requires 3 <= elems <= Pow2(maxLength) && total == Sum(bl) && half > 0
    ensures LeavesUsed(order, f, maxCode)
    ensures Overfull(bl, maxLength, half, total)
    ensures LeafNum(order, d, 0, maxCode) == total
  {
    LeavesAreUsed(order, f, d, elems, root, maxCode);
    LeafTotalCount(order, f, d, elems, root, maxCode, maxLength, bl);
    MeasuredIsOverfull(bl, f, d, elems, maxCode, maxLength, half, total);
  }

  lemma AllRarer(order: seq<ush>, f: seq<ush>, d: seq<ush>, e: seq<ush>, elems: nat, root: nat, maxCode: nat, maxLength: nat,
                 bl: seq<nat>, q: nat)
    requires LeavesAre(order, f, d, elems, root, maxCode) && |e| == |d| && |bl| == 16 && Falling(order, f)
    requires Reassigning(order, f, e, elems, maxCode, maxLength, bl, q, 0, bl[0]) && Falls(order, e, q, maxCode, 0) && bl[0] == 0
    ensures RarerNoShorter(f, e, elems)
  {
    hide LeafNum, Tally, Want, Falls, Falling, RarerNoShorter;
    AboveAll(bl, 0);
    StillLeaves(order, f, d, e, elems, root, maxCode, maxLength);
    FallsForAll(order, f, e, elems, root, maxCode, q);
  }

  /** Makes lengths that came out too large fit. */
  method Limit(heap: array<ush>, heapMax: nat, fc: array<ush>, dl: array<ush>, blCount: array<nat>,
               maxCode: nat, maxLength: nat, overflow: int, opt0: nat,
               ghost order: seq<ush>, ghost elems: nat, ghost root: nat, ghost half: nat, ghost xs: seq<nat>, ghost base: nat)
    returns (opt: nat)
    requires heap != dl && fc != dl && heapMax <= heap.Length && order == heap[heapMax..] && blCount.Length == 16
    requires LeavesAre(order, fc[..], dl[..], elems, root, maxCode)
    requires Measured(blCount[..], fc[..], dl[..], elems, maxCode, maxLength, half)
    requires overflow == 2 * half && half > 0 && 3 <= elems <= Pow2(maxLength) && Falling(order, fc[..])
    requires Priced(opt0, base, fc[..], dl[..], xs, maxCode + 1)
    modifies dl, blCount
    ensures GoodLengths(fc[..], dl[..], blCount[..], elems, maxCode, maxLength) && blCount[maxLength] > 0
    ensures 2 <= maxLength && blCount[..] == Repaired(old(blCount[..]), maxLength, half)
    ensures RarerNoShorter(fc[..], dl[..], elems)
    ensures Priced(opt, base, fc[..], dl[..], xs, maxCode + 1)
  {
    ghost var f, d := fc[..], dl[..];
    ghost var total := SumOf(blCount[..]);
    RepairStart(order, f, d, blCount[..], elems, root, maxCode, maxLength, half, total);
    RepairCounts(blCount, maxLength, overflow, half, total);
    ReassignStart(order, f, d, elems, maxCode, maxLength, blCount[..], total);
    opt := ReassignAll(heap, heapMax, fc, dl, blCount, maxCode, maxLength, opt0, order, elems, root + 1, xs, base);
    ghost var q: nat :| Reassigning(order, f, dl[..], elems, maxCode, maxLength, blCount[..], q, 0, blCount[0])
                        && Falls(order, dl[..], q, maxCode, 0);
    AllRarer(order, f, d, dl[..], elems, root, maxCode, maxLength, blCount[..], q);
    RepairedIsGood(order, f, d, dl[..], elems, root, maxCode, maxLength, blCount[..], q, total);
  }

  lemma SumOf(s: seq<nat>) returns (total: nat)
    ensures total == Sum(s)
  {
    SumNat(s);
    total := Sum(s);
  }

  /** The costs that a tree's lengths are counted with. */
  ghost function CostsOf(desc: TreeDesc, maxCode: int, f: seq<ush>): Tariff
    reads if desc.stat == null then {} else {desc.stat.dl}
  {
    Tariff(maxCode, f, Extras(desc), StaticLens(desc), desc.stat != null)
  }

  /** The static block length has grown by what the codes cost there. */
  ghost predicate StaticPriced(sta: nat, sta0: nat, f: seq<ush>, slens: seq<ush>, xs: seq<nat>, n: nat, isStatic: bool) {
    && sta < 0x1_0000_0000
    && (isStatic ==> n <= |f| && n <= |slens| && n <= |xs| && sta == U32(sta0 + TotalBits(f, slens, xs, n)))
    && (!isStatic ==> sta == sta0)
  }

  /** The lengths cost what Huffman's construction costs. */
  ghost predicate Cheapest(f: seq<ush>, d: seq<ush>, n: nat, w0: multiset<nat>) {
    && n <= |f| && n <= |d|
    && TotalBits(f, d, NoExtra(n), n) == HuffmanCost(w0)
  }

  /** The lengths d agree with the depths of t. */
  ghost predicate AsDeep(t: HuffmanTree, f: seq<ush>, d: seq<ush>, elems: nat) {
    elems <= |t.depths| && elems <= |d| && elems <= |f|
    && forall i :: 0 <= i < elems && f[i] != 0 ==> d[i] == t.depths[i]
  }

  ghost predicate AllShorter(d: seq<ush>, elems: nat, maxLength: nat) {
    elems <= |d| && forall i :: 0 <= i < elems ==> d[i] < maxLength
  }

  /** The lengths d for the first n symbols come from the Huffman tree t: they are its depths exactly if none of these
      is greater than maxLength, and this is so if no length reaches maxLength. In any case no symbol has a greater
      length than a rarer one, and the lengths occur as often as the repair makes them. */
  ghost predicate FromTree(t: HuffmanTree, f: seq<ush>, d: seq<ush>, elems: nat, n: nat, maxLength: nat, w0: multiset<nat>) {
    && TreeFor(t, f, elems, w0) && n <= elems <= |t.depths|
    && TotalBits(f, t.depths, NoExtra(n), n) == HuffmanCost(w0)
    && (AsDeep(t, f, d, elems) <==> NoDeeper(t, f, elems, maxLength))
    && (AllShorter(d, elems, maxLength) ==> NoDeeper(t, f, elems, maxLength))
    && RarerNoShorter(f, d, elems) && Redistributed(t, f, d, elems, n, maxLength)
  }

  /** There are as many codes of each length as the repair leaves of the depths, cut at maxLength. */
  ghost predicate Redistributed(t: HuffmanTree, f: seq<ush>, d: seq<ush>, elems: nat, n: nat, maxLength: nat) {
    exists cut, bl, half :: RedistributedFrom(t, f, d, elems, n, maxLength, cut, bl, half)
  }

  ghost predicate RedistributedFrom(t: HuffmanTree, f: seq<ush>, d: seq<ush>, elems: nat, n: nat, maxLength: nat,
                                    cut: seq<ush>, bl: seq<nat>, half: nat) {
    && n > 0 && CutOff(t, f, cut, elems, maxLength) && Measured(bl, f, cut, elems, n - 1, maxLength, half)
    && (half == 0 ==> Histogram(bl, d, n - 1))
    && (half > 0 ==> maxLength >= 2 && Histogram(Repaired(bl, maxLength, half), d, n - 1))
  }

  ghost predicate FromSomeTree(f: seq<ush>, d: seq<ush>, elems: nat, n: nat, maxLength: nat, w0: multiset<nat>) {
    exists t :: FromTree(t, f, d, elems, n, maxLength, w0)
  }

  /** Depths cost what Huffman's construction costs. */
  lemma DeepIsCheapest(t: HuffmanTree, f: seq<ush>, d: seq<ush>, elems: nat, n: nat, maxLength: nat, w0: multiset<nat>)
    requires FromTree(t, f, d, elems, n, maxLength, w0) && AsDeep(t, f, d, elems)
    ensures Cheapest(f, d, n, w0)
  {
    hide TreeFor, NoDeeper;
    TotalBitsLens(f, t.depths, d, NoExtra(n), n);
  }

  lemma {:induction false} TotalBitsLens(f: seq<nat>, d: seq<nat>, e: seq<nat>, xs: seq<nat>, n: nat)
    requires n <= |f| && n <= |d| && n <= |e| && n <= |xs|
    requires forall i :: 0 <= i < n && f[i] != 0 ==> d[i] == e[i]
    ensures TotalBits(f, d, xs, n) == TotalBits(f, e, xs, n)
  {
    if n > 0 {
      TotalBitsLens(f, d, e, xs, n - 1);
      if f[n - 1] == 0 {
        ZeroTimes(d[n - 1] + xs[n - 1]);
        ZeroTimes(e[n - 1] + xs[n - 1]);
      }
    }
  }

  /** The tree whose depths the first pass has cut off, in half pairs. */
  ghost predicate GaugedBy(t: HuffmanTree, f: seq<ush>, d: seq<ush>, elems: nat, n: nat, maxLength: nat, w0: multiset<nat>, half: nat) {
    && TreeFor(t, f, elems, w0) && n <= elems <= |t.depths|
    && TotalBits(f, t.depths, NoExtra(n), n) == HuffmanCost(w0)
    && CutOff(t, f, d, elems, maxLength)
    && (half == 0 <==> NoDeeper(t, f, elems, maxLength))
  }

  ghost predicate GaugedBySome(f: seq<ush>, d: seq<ush>, elems: nat, n: nat, maxLength: nat, w0: multiset<nat>, half: nat) {
    exists t :: GaugedBy(t, f, d, elems, n, maxLength, w0, half)
  }

  /** All that the first pass has achieved. */
  ghost predicate Gauged(order: seq<ush>, f: seq<ush>, d: seq<ush>, elems: nat, root: nat, maxLength: nat,
                         w0: multiset<nat>, c: Counters, c0: Counters, k: Tariff, half: nat) {
    && k.maxCode >= 0 && LeavesAre(order, f, d, elems, root, k.maxCode)
    && Measured(c.blCount, f, d, elems, k.maxCode, maxLength, half)
    && Priced(c.opt, c0.opt, f, d, k.xs, k.maxCode + 1)
    && StaticPriced(c.sta, c0.sta, f, k.slens, k.xs, k.maxCode + 1, k.isStatic)
    && GaugedBySome(f, d, elems, k.maxCode + 1, maxLength, w0, half)
    && Falling(order, f)
  }

  lemma GaugedFrom(order: seq<ush>, f: seq<ush>, d: seq<ush>, elems: nat, root: nat, maxLength: nat,
                   w0: multiset<nat>, c: Counters, c0: Counters, k: Tariff, half: nat, t: HuffmanTree)
    requires k.maxCode >= 0 && LeavesAre(order, f, d, elems, root, k.maxCode)
    requires Measured(c.blCount, f, d, elems, k.maxCode, maxLength, half)
    requires Priced(c.opt, c0.opt, f, d, k.xs, k.maxCode + 1)
    requires StaticPriced(c.sta, c0.sta, f, k.slens, k.xs, k.maxCode + 1, k.isStatic)
    requires GaugedBy(t, f, d, elems, k.maxCode + 1, maxLength, w0, half) && Falling(order, f)
    ensures Gauged(order, f, d, elems, root, maxLength, w0, c, c0, k, half)
  {
  }

  lemma EndPriced(order: seq<ush>, f: seq<ush>, d: seq<ush>, elems: nat, root: nat, maxLength: nat, maxCode: nat,
                  c: Counters, c0: Counters, k: Tariff, bs: seq<nat>, overs: seq<int>)
    requires PassEnd(order, f, d, elems, root, maxLength, maxCode, c, c0, k, bs, overs)
    ensures Priced(c.opt, c0.opt, f, d, k.xs, maxCode + 1)
    ensures StaticPriced(c.sta, c0.sta, f, k.slens, k.xs, maxCode + 1, k.isStatic)
  {
    EndTotals(order, f, d, elems, root, maxLength, maxCode, c, c0, k, bs, overs);
  }

  lemma AtPassEnd(order: seq<ush>, f: seq<ush>, d0: seq<ush>, d: seq<ush>, elems: nat, node: nat, root: nat,
                  w0: multiset<nat>, maxLength: nat, maxCode: nat,
                  c: Counters, c0: Counters, k: Tariff, bs: seq<nat>, overs: seq<int>)
    requires FullTree(order, f, d0, elems, node, w0) && root == node - 1
    requires InPass(order, d, elems, root, maxLength, |order|, c, c0, k, bs, overs)
    requires |d| == |f| && k.f == f && k.maxCode == maxCode && CostsFit(k, elems)
    requires 1 <= maxLength <= 15 && maxCode < elems && forall i :: maxCode < i < elems ==> f[i] == 0
    ensures PassEnd(order, f, d, elems, root, maxLength, maxCode, c, c0, k, bs, overs)
  {
    PassLeaves(order, f, d0, d, elems, node, w0, maxCode);
  }

  lemma EndTree(order: seq<ush>, f: seq<ush>, d0: seq<ush>, d: seq<ush>, elems: nat, node: nat, root: nat,
                w0: multiset<nat>, maxLength: nat, maxCode: nat, overs: seq<int>, half: nat)
    returns (t: HuffmanTree)
    requires FullTree(order, f, d0, elems, node, w0) && root == node - 1
    requires LeavesAre(order, f, d, elems, root, maxCode) && AllPassed(order, d, elems, root, maxLength)
    requires Overs(overs, d, root, maxLength) && |overs| == |order| - 1 && Sum(overs) == 2 * half
    ensures GaugedBy(t, f, d, elems, maxCode + 1, maxLength, w0, half)
  {
    hide FullTree, AllPassed, Overs, Sum, NoDeeper, CutOff, TotalBits, HuffmanCost;
    t := TreeForNow(order, f, d0, d, elems, node, root, w0, maxCode);
    TreeCost(t, order, f, d, elems, root, maxCode, w0);
    TotalBitsExtras(f, t.depths, NoExtra(elems), NoExtra(maxCode + 1), maxCode + 1);
    EndDepths(t, order, f, d, elems, root, w0, maxLength, maxCode, overs);
  }

  lemma EndPass(order: seq<ush>, f: seq<ush>, d: seq<ush>, elems: nat, root: nat, maxLength: nat, maxCode: nat,
                c: Counters, c0: Counters, k: Tariff, bs: seq<nat>, overs: seq<int>)
    requires PassEnd(order, f, d, elems, root, maxLength, maxCode, c, c0, k, bs, overs)
    ensures LeavesAre(order, f, d, elems, root, maxCode) && AllPassed(order, d, elems, root, maxLength)
    ensures Overs(overs, d, root, maxLength) && |overs| == |order| - 1
  {
    hide LeavesAre, AllPassed, Overs, Unused;
  }

  lemma FullTreeFalls(order: seq<ush>, f: seq<ush>, d: seq<ush>, elems: nat, node: nat, w0: multiset<nat>)
    requires FullTree(order, f, d, elems, node, w0)
    ensures Falling(order, f)
  {
    hide HuffmanCost, Sum, Paired, AllNodes, Falling;
  }

  lemma AfterAll(order: seq<ush>, f: seq<ush>, d0: seq<ush>, d: seq<ush>, elems: nat, node: nat, root: nat,
                 w0: multiset<nat>, maxLength: nat, maxCode: nat,
                 c: Counters, c0: Counters, k: Tariff, bs: seq<nat>, overs: seq<int>)
    returns (half: nat)
    requires Ripe(order, f, d0, elems, node, w0, maxCode) && root == node - 1
    requires InPass(order, d, elems, root, maxLength, |order|, c, c0, k, bs, overs)
    requires |d| == |f| && k.f == f && k.maxCode == maxCode && CostsFit(k, elems) && 1 <= maxLength <= 15
    ensures Sum(overs) == 2 * half
    ensures Gauged(order, f, d, elems, root, maxLength, w0, c, c0, k, half)
  {
    hide FullTree, InPass, LeavesAre, Measured, Priced, StaticPriced, GaugedBy, Gauged, Unused, Falling;
    FullTreeFalls(order, f, d0, elems, node, w0);
    AtPassEnd(order, f, d0, d, elems, node, root, w0, maxLength, maxCode, c, c0, k, bs, overs);
    EndPass(order, f, d, elems, root, maxLength, maxCode, c, c0, k, bs, overs);
    half := EndMeasured(order, f, d, elems, root, maxLength, maxCode, c, c0, k, bs, overs);
    EndPriced(order, f, d, elems, root, maxLength, maxCode, c, c0, k, bs, overs);
    var t := EndTree(order, f, d0, d, elems, node, root, w0, maxLength, maxCode, overs, half);
    GaugedFrom(order, f, d, elems, root, maxLength, w0, c, c0, k, half, t);
  }

  lemma {:induction false} TotalBitsExtras(f: seq<nat>, d: seq<nat>, xs: seq<nat>, ys: seq<nat>, n: nat)
    requires n <= |f| && n <= |d| && n <= |xs| && n <= |ys|
    requires forall i :: 0 <= i < n ==> xs[i] == ys[i]
    ensures TotalBits(f, d, xs, n) == TotalBits(f, d, ys, n)
  {
    if n > 0 { TotalBitsExtras(f, d, xs, ys, n - 1); }
  }

  /** The root has length 0, and the pass can start. */
  method StartAtRoot(heap: array<ush>, heapMax: nat, fc: array<ush>, dl: array<ush>, elems: nat, maxLength: nat,
                     ghost node: nat, ghost root: nat, ghost w0: multiset<nat>, ghost c0: Counters, ghost k: Tariff)
    requires heap != fc && heap != dl && fc != dl && heapMax < heap.Length
    requires FullTree(heap[heapMax..], fc[..], dl[..], elems, node, w0) && root == node - 1
    requires Unused(fc[..], dl[..], elems) && k.f == fc[..]
    requires |c0.blCount| == 16 && forall b :: 0 <= b < 16 ==> c0.blCount[b] == 0
    requires c0.opt < 0x1_0000_0000 && c0.sta < 0x1_0000_0000
    modifies dl
    ensures InPass(heap[heapMax..], dl[..], elems, root, maxLength, 1, c0, c0, k, [], [])
  {
    hide InPass, Unused, Passed, AllNodes, Paired, Sum, HuffmanCost, Falling;
    ghost var order, f, d0 := heap[heapMax..], fc[..], dl[..];
    assert heap[heapMax] == order[0];
    dl[heap[heapMax]] := 0;
    InPassStart(order, f, d0, dl[..], elems, node, root, maxLength, w0, c0, k);
  }

  /** A finished tree of desc, nothing of which has a length yet. */
  ghost predicate Ripe(order: seq<ush>, f: seq<ush>, d: seq<ush>, elems: nat, node: nat, w0: multiset<nat>, maxCode: int) {
    && FullTree(order, f, d, elems, node, w0)
    && Unused(f, d, elems)
    && 0 <= maxCode < elems && forall i :: maxCode < i < elems ==> f[i] == 0
  }

  /** The first pass, from clear counters: natural lengths, cut at the greatest. */
  method Measure(heap: array<ush>, heapMax: nat, fc: array<ush>, dl: array<ush>, blCount: array<nat>, desc: TreeDesc,
                 maxCode: int, opt0: nat, sta0: nat, ghost node: nat, ghost root: nat, ghost w0: multiset<nat>,
                 ghost k: Tariff, ghost c0: Counters)
    returns (overflow: int, opt: nat, sta: nat, ghost half: nat)
    requires desc.Valid() && fc == desc.dyn.fc && dl == desc.dyn.dl && blCount.Length == 16
    requires heap != fc && heap != dl && (desc.stat != null ==> desc.stat.dl != heap)
    requires heapMax < heap.Length && opt0 < 0x1_0000_0000 && sta0 < 0x1_0000_0000
    requires Ripe(heap[heapMax..], fc[..], dl[..], desc.elems, node, w0, maxCode) && root == node - 1
    requires k == CostsOf(desc, maxCode, fc[..])
    requires c0 == Counters(blCount[..], opt0, sta0) && forall b :: 0 <= b < 16 ==> blCount[b] == 0
    modifies dl, blCount
    ensures overflow == 2 * half
    ensures Gauged(heap[heapMax..], fc[..], dl[..], desc.elems, root, desc.maxLength, w0,
                   Counters(blCount[..], opt, sta), c0, k, half)
  {
    hide FullTree, Unused, InPass, Gauged, LeavesAre;
    ghost var order, f, d0 := heap[heapMax..], fc[..], dl[..];
    StartAtRoot(heap, heapMax, fc, dl, desc.elems, desc.maxLength, node, root, w0, c0, k);
    ghost var bs, overs;
    overflow, opt, sta, bs, overs := FirstPass(heap, heapMax, fc, dl, blCount, desc, maxCode, opt0, sta0, root, k, c0.blCount);
    ghost var c := Counters(blCount[..], opt, sta);
    half := AfterAll(order, f, d0, dl[..], desc.elems, node, root, w0, desc.maxLength, maxCode, c, c0, k, bs, overs);
  }

  /** What gen_bitlen achieves: right lengths, which come from a Huffman tree, and the exact price of the codes. */
  ghost predicate Lengthy(f: seq<ush>, d: seq<ush>, bl: seq<nat>, elems: nat, maxLength: nat, w0: multiset<nat>,
                          opt: nat, opt0: nat, sta: nat, sta0: nat, k: Tariff) {
    && k.maxCode >= 0
    && GoodLengths(f, d, bl, elems, k.maxCode, maxLength)
    && Priced(opt, opt0, f, d, k.xs, k.maxCode + 1)
    && StaticPriced(sta, sta0, f, k.slens, k.xs, k.maxCode + 1, k.isStatic)
    && FromSomeTree(f, d, elems, k.maxCode + 1, maxLength, w0)
  }

  lemma UncutFromTree(t: HuffmanTree, f: seq<ush>, d: seq<ush>, bl: seq<nat>, elems: nat, n: nat, maxLength: nat, w0: multiset<nat>)
    requires GaugedBy(t, f, d, elems, n, maxLength, w0, 0) && n > 0 && Measured(bl, f, d, elems, n - 1, maxLength, 0)
    ensures FromTree(t, f, d, elems, n, maxLength, w0)
  {
    hide TreeFor, TotalBits, HuffmanCost, Measured, Histogram;
    RarerIsDeeper(t, f, elems, w0);
    MeasuredIsHistogram(bl, f, d, elems, n - 1, maxLength, 0);
    assert RedistributedFrom(t, f, d, elems, n, maxLength, d, bl, 0);
  }

  lemma MeasuredIsHistogram(bl: seq<nat>, f: seq<ush>, d: seq<ush>, elems: nat, maxCode: nat, maxLength: nat, half: nat)
    requires Measured(bl, f, d, elems, maxCode, maxLength, half)
    ensures Histogram(bl, d, maxCode)
  {
    hide Histogram, BlSpace;
  }

  lemma GaugedIsLengthy(order: seq<ush>, f: seq<ush>, d: seq<ush>, elems: nat, root: nat, maxLength: nat,
                        w0: multiset<nat>, c: Counters, c0: Counters, k: Tariff)
    requires Gauged(order, f, d, elems, root, maxLength, w0, c, c0, k, 0)
    ensures Lengthy(f, d, c.blCount, elems, maxLength, w0, c.opt, c0.opt, c.sta, c0.sta, k)
  {
    hide GaugedBy, FromTree, Measured, GoodLengths, Falling, StaticPriced, Priced, LeavesAre;
    MeasuredIsGood(f, d, c.blCount, elems, k.maxCode, maxLength);
    var t :| GaugedBy(t, f, d, elems, k.maxCode + 1, maxLength, w0, 0);
    UncutFromTree(t, f, d, c.blCount, elems, k.maxCode + 1, maxLength, w0);
  }

  /** A counted length occurs. */
  lemma {:induction false} CountedOccurs(lens: seq<nat>, b: nat)
    requires Count(lens, b) > 0
    ensures exists i :: 0 <= i < |lens| && lens[i] == b
  {
    if forall i :: 0 <= i < |lens| ==> lens[i] != b { CountNone(lens, b); }
  }

  /** If the first pass has cut something, some symbol lies too deep, and the repair leaves some code at the greatest
      length. */
  lemma LimitedFromTree(t: HuffmanTree, f: seq<ush>, d: seq<ush>, e: seq<ush>, bl: seq<nat>, bl': seq<nat>, elems: nat, maxCode: nat,
                        maxLength: nat, w0: multiset<nat>, half: nat)
    requires GaugedBy(t, f, d, elems, maxCode + 1, maxLength, w0, half) && half > 0
    requires Measured(bl, f, d, elems, maxCode, maxLength, half) && 2 <= maxLength && bl' == Repaired(bl, maxLength, half)
    requires GoodLengths(f, e, bl', elems, maxCode, maxLength) && bl'[maxLength] > 0 && RarerNoShorter(f, e, elems)
    ensures FromTree(t, f, e, elems, maxCode + 1, maxLength, w0)
  {
    hide TreeFor, TotalBits, HuffmanCost, Space, Count, Repaired, Measured, RarerNoShorter;
    SomeAtTop(f, e, bl', elems, maxCode, maxLength);
    var i :| 0 <= i < elems && f[i] != 0 && t.depths[i] > maxLength;
    assert LengthOk(f, e, maxLength, i);
    assert RedistributedFrom(t, f, e, elems, maxCode + 1, maxLength, d, bl, half);
  }

  lemma SomeAtTop(f: seq<ush>, e: seq<ush>, bl: seq<nat>, elems: nat, maxCode: nat, maxLength: nat)
    requires GoodLengths(f, e, bl, elems, maxCode, maxLength) && bl[maxLength] > 0
    ensures !AllShorter(e, elems, maxLength)
  {
    hide Space, Count;
    var lens := e[..maxCode + 1];
    assert bl[maxLength] == Count(lens, maxLength);
    CountedOccurs(lens, maxLength);
    var j :| 0 <= j < |lens| && lens[j] == maxLength;
    assert e[j] == maxLength;
  }

  lemma LimitedIsLengthy(order: seq<ush>, f: seq<ush>, d: seq<ush>, e: seq<ush>, bl: seq<nat>, elems: nat, root: nat,
                         maxLength: nat, w0: multiset<nat>, c: Counters, c0: Counters, k: Tariff, half: nat, opt: nat)
    requires Gauged(order, f, d, elems, root, maxLength, w0, c, c0, k, half) && half > 0
    requires GoodLengths(f, e, bl, elems, k.maxCode, maxLength) && bl[maxLength] > 0 && RarerNoShorter(f, e, elems)
    requires 2 <= maxLength <= 15 && |c.blCount| == 16 && bl == Repaired(c.blCount, maxLength, half)
    requires Priced(opt, c0.opt, f, e, k.xs, k.maxCode + 1)
    ensures Lengthy(f, e, bl, elems, maxLength, w0, opt, c0.opt, c.sta, c0.sta, k)
  {
    hide GaugedBy, FromTree, Measured, GoodLengths, Falling, StaticPriced, Priced, LeavesAre, Repaired, RarerNoShorter;
    var t :| GaugedBy(t, f, d, elems, k.maxCode + 1, maxLength, w0, half);
    LimitedFromTree(t, f, d, e, c.blCount, bl, elems, k.maxCode, maxLength, w0, half);
  }

  /** Makes lengths that came out too large fit, if there are any. */
  method Adjust(heap: array<ush>, heapMax: nat, fc: array<ush>, dl: array<ush>, blCount: array<nat>,
                elems: nat, maxCode: int, maxLength: nat, overflow: int, opt0: nat,
                ghost root: nat, ghost w0: multiset<nat>, ghost half: nat, ghost c: Counters, ghost c0: Counters, ghost k: Tariff)
    returns (opt: nat)
    requires heap != dl && fc != dl && heapMax <= heap.Length && blCount.Length == 16
    requires maxCode == k.maxCode && 3 <= elems <= Pow2(maxLength) && overflow == 2 * half
    requires c.blCount == blCount[..] && c.opt == opt0
    requires Gauged(heap[heapMax..], fc[..], dl[..], elems, root, maxLength, w0, c, c0, k, half)
    modifies dl, blCount
    ensures Lengthy(fc[..], dl[..], blCount[..], elems, maxLength, w0, opt, c0.opt, c.sta, c0.sta, k)
  {
    hide FromSomeTree, GaugedBySome, StaticPriced, Measured, GoodLengths, LeavesAre, Falling, RarerNoShorter, Repaired,
      Priced, Lengthy;
    ghost var order, d := heap[heapMax..], dl[..];
    opt := opt0;
    if overflow == 0 {
      GaugedIsLengthy(order, fc[..], d, elems, root, maxLength, w0, c, c0, k);
    } else {
      opt := Limit(heap, heapMax, fc, dl, blCount, maxCode, maxLength, overflow, opt, order, elems, root, half, k.xs, c0.opt);
      LimitedIsLengthy(order, fc[..], d, dl[..], blCount[..], elems, root, maxLength, w0, c, c0, k, half, opt);
    }
  }

  method GenBitlen(heap: array<ush>, heapMax: nat, fc: array<ush>, dl: array<ush>, blCount: array<nat>, desc: TreeDesc,
                   maxCode: int, opt0: nat, sta0: nat, ghost node: nat, ghost w0: multiset<nat>, ghost k: Tariff)
    returns (opt: nat, sta: nat)
    requires desc.Valid() && desc.Sized() && fc == desc.dyn.fc && dl == desc.dyn.dl && blCount.Length == 16
    requires heap != fc && heap != dl && (desc.stat != null ==> desc.stat.dl != heap)
    requires heapMax < heap.Length && opt0 < 0x1_0000_0000 && sta0 < 0x1_0000_0000
    requires Ripe(heap[heapMax..], fc[..], dl[..], desc.elems, node, w0, maxCode)
    requires k == CostsOf(desc, maxCode, fc[..])
    modifies dl, blCount
    ensures Lengthy(fc[..], dl[..], blCount[..], desc.elems, desc.maxLength, w0, opt, opt0, sta, sta0, k)
  {
    ClearCounts(blCount);
    ghost var c0 := Counters(blCount[..], opt0, sta0);
    ghost var root := node - 1;
    var overflow;
    ghost var half;
    overflow, opt, sta, half := Measure(heap, heapMax, fc, dl, blCount, desc, maxCode, opt0, sta0, node, root, w0, k, c0);
    ghost var c := Counters(blCount[..], opt, sta);
    opt := Adjust(heap, heapMax, fc, dl, blCount, desc.elems, maxCode, desc.maxLength, overflow, opt,
                  root, w0, half, c, c0, k);
  }
}
