/** build_tree as a whole: one Huffman tree, its lengths, its codes and its cost. */
module TreeBuilder {
  import opened Bits
  import opened Sums
  import opened Rfc1951
  import opened PrefixCodes
  import opened Huffman
  import opened Heaps
  import opened Trees
  import opened InitialHeap
  import opened TreeBuilding
  import opened TreeGrowth
  import opened TreeLoop
  import opened TreeShape
  import opened BitLengths
  import opened FirstPasses
  import opened TreeLengths
  import opened CodeSpace
  import opened AfterPass
  import opened Repair
  import opened Reassign
  import opened CodeLengths
  import opened CanonicalCodes
  import opened ForcedCodes

  /** The frequencies of the codes that occur, in order. */
  function UsedFreqs(f: seq<ush>, elems: nat): seq<nat>
    requires elems <= |f| && elems <= 0x10000
  {
    Freqs(UsedIds(f, elems), f)
  }

  lemma {:induction false} UsedFreqsSum(f: seq<ush>, n: nat)
    requires n <= |f| && n <= 0x10000
    ensures Sum(UsedFreqs(f, n)) == Sum(f[..n])
  {
    if n > 0 {
      UsedFreqsSum(f, n - 1);
      UsedFreqsStep(f, n - 1, n);
    }
  }

  lemma UsedFreqsStep(f: seq<ush>, n: nat, next: nat)
    requires next == n + 1 && next <= |f| && next <= 0x10000
    ensures Sum(f[..next]) == Sum(f[..n]) + f[n]
    ensures Sum(UsedFreqs(f, next)) == Sum(UsedFreqs(f, n)) + f[n]
  {
    hide Sum;
    OneMoreFreq(f, n, next);
    SumSnoc(f[..n], f[n]);
    var ids := UsedIds(f, n);
    if f[n] != 0 {
      FreqsSnoc(f, ids, n);
      SumSnoc(Freqs(ids, f), f[n]);
    } else {
      assert UsedIds(f, next) == ids;
    }
  }

  lemma OneMoreFreq(f: seq<ush>, n: nat, next: nat)
    requires next == n + 1 && next <= |f|
    ensures f[..next] == f[..n] + [f[n]]
  {
  }

  lemma FreqsSnoc(f: seq<ush>, ids: seq<ush>, i: nat)
    requires i < |f| && i < 0x10000
    ensures Freqs(ids + [i], f) == Freqs(ids, f) + [f[i]]
  {
  }

  lemma ListedEntries(heap: seq<ush>, len: nat, f: seq<ush>, elems: nat)
    requires ListsUsed(heap, len, f, elems)
    ensures Entries(heap, len, elems)
  {
    UsedIdsBound(f, elems);
    forall i | 1 <= i <= len
      ensures heap[i] < elems
    {
      assert Live(heap, len)[i - 1] == heap[i];
      assert heap[i] in multiset(UsedIds(f, elems));
      assert heap[i] in UsedIds(f, elems);
    }
  }

  lemma ListedWeights(s: TreeState, elems: nat)
    requires ListsUsed(s.heap, s.heapLen, s.fc, elems)
    ensures HeapWeights(s) == multiset(UsedFreqs(s.fc, elems))
    ensures Weight(s) == Sum(s.fc[..elems])
  {
    FreqsPermute(Live(s.heap, s.heapLen), UsedIds(s.fc, elems), s.fc);
    UsedFreqsSum(s.fc, elems);
  }

  lemma StillListed(h: seq<ush>, k: seq<ush>, len: nat, f: seq<ush>, elems: nat)
    requires ListsUsed(h, len, f, elems) && |k| == |h| && Rearranged(h, k, len, 1)
    ensures ListsUsed(k, len, f, elems)
  {
  }

  lemma ReadyToGrow(s: TreeState, elems: nat)
    requires Sizes(s, elems) && 2 <= s.heapLen <= elems && s.heapMax == HEAP_SIZE
    requires ListsUsed(s.heap, s.heapLen, s.fc, elems)
    requires Entries(s.heap, s.heapLen, |s.fc|)
    requires HeapFrom(s.heap, s.heapLen, s.fc, s.depth, 1)
    requires Sum(s.fc[..elems]) < 0x10000
    ensures Grown(s, elems, elems, multiset(UsedFreqs(s.fc, elems)))
  {
    ListedEntries(s.heap, s.heapLen, s.fc, elems);
    ListedWeights(s, elems);
    GrowthStart(s, elems, HeapWeights(s));
  }

  /** The same frequencies below elems, so the same codes occur. */
  lemma SameUsed(f: seq<ush>, g: seq<ush>, elems: nat)
    requires elems <= |f| && elems <= |g| && elems <= 0x10000 && f[..elems] == g[..elems]
    ensures UsedIds(f, elems) == UsedIds(g, elems)
    ensures MaxUsed(f, elems) == MaxUsed(g, elems)
    ensures UsedFreqs(f, elems) == UsedFreqs(g, elems)
  {
    forall i | 0 <= i < elems
      ensures f[i] == g[i]
    {
      assert f[..elems][i] == g[..elems][i];
    }
    UsedIdsSame(f, g, elems);
    MaxUsedSame(f, g, elems);
    UsedIdsBound(f, elems);
  }

  lemma RipeTree(order: seq<ush>, f: seq<ush>, d: seq<ush>, elems: nat, node: nat, w0: multiset<nat>, maxCode: int)
    requires FullTree(order, f, d, elems, node, w0) && Unused(f, d, elems)
    requires maxCode == MaxUsed(f, elems) && elems <= 0x10000 && |UsedIds(f, elems)| > 0
    ensures Ripe(order, f, d, elems, node, w0, maxCode)
  {
    MaxUsedIs(f, elems);
    if maxCode == -1 {
      NoneUsed(f, elems);
    }
  }

  lemma {:induction false} NoneUsed(f: seq<ush>, n: nat)
    requires n <= |f| && n <= 0x10000 && forall i :: 0 <= i < n ==> f[i] == 0
    ensures |UsedIds(f, n)| == 0
  {
    if n > 0 { NoneUsed(f, n - 1); }
  }

  /** From the list of codes to the finished tree. */
  method GrowTree(heap: array<ush>, heapLen: nat, depth: array<byte>, fc: array<ush>, dl: array<ush>, elems: nat,
                  maxCode: int, ghost w0: multiset<nat>)
    returns (heapMax: nat, ghost node: nat)
    requires heap != fc && heap != dl && fc != dl
    requires heap.Length == depth.Length == HEAP_SIZE && 3 <= elems <= L_CODES
    requires fc.Length == dl.Length == 2 * elems + 1 && 2 <= heapLen <= elems
    requires ListsUsed(heap[..], heapLen, fc[..], elems)
    requires Unused(fc[..], dl[..], elems)
    requires Sum(fc[..elems]) < 0x10000 && maxCode == MaxUsed(fc[..], elems)
    requires w0 == multiset(UsedFreqs(fc[..], elems))
    modifies heap, depth, fc, dl
    ensures 1 <= heapMax < heap.Length
    ensures Ripe(heap[heapMax..], fc[..], dl[..], elems, node, w0, maxCode)
    ensures fc[..elems] == old(fc[..elems])
  {
    hide UsedFreqs, Live, Sum, ListsUsed, Unused, Ripe;
    ghost var h, f, d := heap[..], fc[..], dl[..];
    assert fc[..elems] == f[..elems];
    ListedEntries(h, heapLen, f, elems);
    Heapify(heap, heapLen, fc, depth);
    StillListed(h, heap[..], heapLen, f, elems);
    ghost var s := TreeState(heap[..], heapLen, HEAP_SIZE, depth[..], [], 0, 0, f, d, maxCode);
    ReadyToGrow(s, elems);
    heapMax, node := CombineAll(heap, heapLen, HEAP_SIZE, depth, fc, dl, elems, s, w0);
    assert fc[..][..elems] == f[..elems];
    SameUsed(f, fc[..], elems);
    TwoListed(h, heapLen, f, elems);
    RipeTree(heap[heapMax..], fc[..], dl[..], elems, node, w0, maxCode);
  }

  lemma TwoListed(heap: seq<ush>, len: nat, f: seq<ush>, elems: nat)
    requires ListsUsed(heap, len, f, elems)
    ensures |UsedIds(f, elems)| == len
  {
    assert |multiset(Live(heap, len))| == |multiset(UsedIds(f, elems))|;
  }

  // ----- what a finished tree is

  /** Lengths d and codes for the frequencies f: a complete code of exactly the symbols that occur. */
  ghost predicate TreeOk(f: seq<ush>, codes: seq<ush>, d: seq<ush>, elems: nat, maxCode: int, maxLength: nat) {
    && 0 <= maxCode < elems <= |f| && elems <= |d| && maxLength <= 15
    && (forall i :: 0 <= i < elems ==> LengthOk(f, d, maxLength, i))
    && Complete(d[..maxCode + 1])
    && CodesUpTo(codes, d[..maxCode + 1], maxCode + 1)
  }

  /** Both block lengths have grown by exactly what f costs. */
  ghost predicate BothPriced(opt: nat, opt0: nat, sta: nat, sta0: nat, f: seq<ush>, d: seq<ush>, n: nat, k: Tariff) {
    && Priced(opt, opt0, f, d, k.xs, n)
    && StaticPriced(sta, sta0, f, k.slens, k.xs, n, k.isStatic)
  }

  lemma GoodIsOk(f: seq<ush>, g: seq<ush>, codes: seq<ush>, d: seq<ush>, bl: seq<nat>, elems: nat, maxCode: int, maxLength: nat)
    requires maxCode >= 0 && GoodLengths(f, d, bl, elems, maxCode, maxLength)
    requires elems <= |g| && f[..elems] == g[..elems]
    requires CodesUpTo(codes, d[..maxCode + 1], maxCode + 1)
    ensures TreeOk(g, codes, d, elems, maxCode, maxLength)
  {
    BoundedCodes(f, d, elems, maxCode, maxLength);
    forall i | 0 <= i < elems
      ensures LengthOk(g, d, maxLength, i)
    {
      assert LengthOk(f, d, maxLength, i);
      assert f[..elems][i] == g[..elems][i];
    }
  }

  lemma {:induction false} TotalBitsFreqs(f: seq<ush>, g: seq<ush>, vs: seq<nat>, xs: seq<nat>, n: nat)
    requires n <= |f| && n <= |g| && n <= |vs| && n <= |xs|
    requires forall i :: 0 <= i < n ==> f[i] == g[i]
    ensures TotalBits(f, vs, xs, n) == TotalBits(g, vs, xs, n)
  {
    if n > 0 { TotalBitsFreqs(f, g, vs, xs, n - 1); }
  }

  lemma SameFreqs(f: seq<ush>, g: seq<ush>, elems: nat, n: nat)
    requires elems <= |f| && elems <= |g| && f[..elems] == g[..elems] && n <= elems
    ensures forall i :: 0 <= i < n ==> f[i] == g[i]
  {
    forall i | 0 <= i < n
      ensures f[i] == g[i]
    {
      assert f[..elems][i] == g[..elems][i];
    }
  }

  lemma SamePrices(opt: nat, opt0: nat, sta: nat, sta0: nat, f: seq<ush>, g: seq<ush>, d: seq<ush>, elems: nat, n: nat, k: Tariff)
    requires elems <= |f| && elems <= |g| && f[..elems] == g[..elems] && n <= elems
    requires BothPriced(opt, opt0, sta, sta0, f, d, n, k)
    ensures BothPriced(opt, opt0, sta, sta0, g, d, n, k)
  {
    SameFreqs(f, g, elems, n);
    TotalBitsFreqs(f, g, d, k.xs, n);
    if k.isStatic { TotalBitsFreqs(f, g, k.slens, k.xs, n); }
  }

  lemma SameRedistribution(t: HuffmanTree, f: seq<ush>, g: seq<ush>, d: seq<ush>, elems: nat, n: nat, maxLength: nat)
    requires elems <= |f| && elems <= |g| && (forall i :: 0 <= i < elems ==> f[i] == g[i])
    requires Redistributed(t, f, d, elems, n, maxLength)
    ensures Redistributed(t, g, d, elems, n, maxLength)
  {
    hide Histogram, BlSpace, Repaired;
    var cut, bl, half :| RedistributedFrom(t, f, d, elems, n, maxLength, cut, bl, half);
    forall i | 0 <= i < elems
      ensures LengthOk(g, cut, maxLength, i)
    {
      assert LengthOk(f, cut, maxLength, i);
    }
    assert RedistributedFrom(t, g, d, elems, n, maxLength, cut, bl, half);
  }

  /** Only the frequencies below elems matter to where the lengths come from. */
  lemma SameTree(f: seq<ush>, g: seq<ush>, d: seq<ush>, elems: nat, n: nat, maxLength: nat, w0: multiset<nat>)
    requires elems <= |f| && elems <= |g| && f[..elems] == g[..elems] && n <= elems
    requires FromSomeTree(f, d, elems, n, maxLength, w0)
    ensures FromSomeTree(g, d, elems, n, maxLength, w0)
  {
    hide HuffmanCost, Uncut, Sons, Sum, NoHeavier, Redistributed;
    var t :| FromTree(t, f, d, elems, n, maxLength, w0);
    SameFreqs(f, g, elems, elems);
    TotalBitsFreqs(f, g, t.depths, NoExtra(n), n);
    SameRedistribution(t, f, g, d, elems, n, maxLength);
    assert FromTree(t, g, d, elems, n, maxLength, w0);
  }

  /** The tree of the frequencies f, as its builder leaves it. */
  ghost predicate Finished(f: seq<ush>, codes: seq<ush>, d: seq<ush>, elems: nat, maxLength: nat, w0: multiset<nat>,
                           opt: nat, opt0: nat, sta: nat, sta0: nat, k: Tariff) {
    && TreeOk(f, codes, d, elems, k.maxCode, maxLength)
    && BothPriced(opt, opt0, sta, sta0, f, d, k.maxCode + 1, k)
    && FromSomeTree(f, d, elems, k.maxCode + 1, maxLength, w0)
  }

  lemma GoodMax(f: seq<ush>, d: seq<ush>, bl: seq<nat>, elems: nat, maxCode: nat, maxLength: nat)
    requires GoodLengths(f, d, bl, elems, maxCode, maxLength)
    ensures maxCode < elems <= |d|
  {
  }

  lemma FinishedNow(f: seq<ush>, g: seq<ush>, codes: seq<ush>, d: seq<ush>, bl: seq<nat>, elems: nat, maxLength: nat,
                    w0: multiset<nat>, opt: nat, opt0: nat, sta: nat, sta0: nat, k: Tariff)
    requires elems <= |f| && elems <= |g| && f[..elems] == g[..elems] && 0 <= k.maxCode < |d|
    requires CodesUpTo(codes, d[..k.maxCode + 1], k.maxCode + 1)
    requires Lengthy(f, d, bl, elems, maxLength, w0, opt, opt0, sta, sta0, k)
    ensures Finished(g, codes, d, elems, maxLength, w0, opt, opt0, sta, sta0, k)
  {
    hide FromSomeTree, GoodLengths, TreeOk, BothPriced, CodesUpTo;
    GoodMax(f, d, bl, elems, k.maxCode, maxLength);
    GoodIsOk(f, g, codes, d, bl, elems, k.maxCode, maxLength);
    SamePrices(opt, opt0, sta, sta0, f, g, d, elems, k.maxCode + 1, k);
    SameTree(f, g, d, elems, k.maxCode + 1, maxLength, w0);
  }

  lemma LensBounded(f: seq<ush>, d: seq<ush>, bl: seq<nat>, elems: nat, maxCode: nat, maxLength: nat)
    requires GoodLengths(f, d, bl, elems, maxCode, maxLength)
    ensures Bounded(d[..maxCode + 1])
  {
    BoundedCodes(f, d, elems, maxCode, maxLength);
  }

  /** Codes for the lengths of a tree. */
  method CodeTree(fc: array<ush>, dl: array<ush>, blCount: array<nat>, maxCode: nat, elems: nat, maxLength: nat,
                  ghost w0: multiset<nat>, ghost opt: nat, ghost opt0: nat, ghost sta: nat, ghost sta0: nat,
                  ghost k: Tariff, ghost g: seq<ush>)
    requires fc != dl && blCount.Length == 16 && maxCode == k.maxCode
    requires Lengthy(fc[..], dl[..], blCount[..], elems, maxLength, w0, opt, opt0, sta, sta0, k)
    requires elems <= |g| && g[..elems] == fc[..][..elems]
    modifies fc
    ensures Finished(g, fc[..], dl[..], elems, maxLength, w0, opt, opt0, sta, sta0, k)
  {
    hide FromSomeTree, Finished, CodesUpTo;
    ghost var f, d := fc[..], dl[..];
    ghost var lens := d[..maxCode + 1];
    LensBounded(f, d, blCount[..], elems, maxCode, maxLength);
    assert lens == dl[..maxCode + 1];
    GenCodes(fc, dl, maxCode, blCount, lens);
    FinishedNow(f, g, fc[..], d, blCount[..], elems, maxLength, w0, opt, opt0, sta, sta0, k);
  }

  /** Lengths and codes for the finished tree. */
  method FinishTree(heap: array<ush>, heapMax: nat, fc: array<ush>, dl: array<ush>, blCount: array<nat>, desc: TreeDesc,
                    maxCode: int, opt0: nat, sta0: nat, ghost node: nat, ghost w0: multiset<nat>, ghost k: Tariff,
                    ghost g: seq<ush>)
    returns (opt: nat, sta: nat)
    requires desc.Valid() && desc.Sized() && fc == desc.dyn.fc && dl == desc.dyn.dl && blCount.Length == 16
    requires heap != fc && heap != dl && (desc.stat != null ==> desc.stat.dl != heap)
    requires heapMax < heap.Length && opt0 < 0x1_0000_0000 && sta0 < 0x1_0000_0000
    requires Ripe(heap[heapMax..], fc[..], dl[..], desc.elems, node, w0, maxCode)
    requires k == CostsOf(desc, maxCode, fc[..])
    requires desc.elems <= |g| && g[..desc.elems] == fc[..][..desc.elems]
    modifies fc, dl, blCount
    ensures Finished(g, fc[..], dl[..], desc.elems, desc.maxLength, w0, opt, opt0, sta, sta0, k)
  {
    opt, sta := GenBitlen(heap, heapMax, fc, dl, blCount, desc, maxCode, opt0, sta0, node, w0, k);
    CodeTree(fc, dl, blCount, maxCode, desc.elems, desc.maxLength, w0, opt, opt0, sta, sta0, k, g);
  }

  // ----- the codes that are made up change nothing in the prices

  /** f is f0 with a few codes made up, at most two and only where fewer than two occurred. */
  ghost predicate MadeUp(f0: seq<ush>, f: seq<ush>, made: seq<int>, elems: nat) {
    && elems <= 0x10000 && Forcing(f0, f, made, elems)
    && (Sum(made) != 0 ==> |UsedIds(f, elems)| <= 2)
  }

  lemma MadeOneBit(f0: seq<ush>, f: seq<ush>, made: seq<int>, d: seq<ush>, elems: nat, maxCode: int, maxLength: nat, codes: seq<ush>)
    requires MadeUp(f0, f, made, elems) && TreeOk(f, codes, d, elems, maxCode, maxLength)
    requires forall i :: maxCode < i < elems ==> f[i] == 0
    ensures forall i :: 0 <= i < |made| ==> made[i] == 0 || d[i] == 1
  {
    if Sum(made) == 0 {
      NoneMade(made);
    } else {
      UsedBelow(f, maxCode + 1, elems);
      forall i | 0 <= i < |made| && made[i] != 0
        ensures d[i] == 1
      {
        OneBitEach(f, d, maxLength, maxCode + 1, i);
      }
    }
  }

  lemma {:induction false} UsedBelow(f: seq<ush>, n: nat, elems: nat)
    requires n <= elems <= |f| && elems <= 0x10000 && forall i :: n <= i < elems ==> f[i] == 0
    ensures UsedIds(f, n) == UsedIds(f, elems)
    decreases elems - n
  {
    if n < elems { UsedBelow(f, n, elems - 1); }
  }

  lemma {:induction false} NoneMade(made: seq<int>)
    requires Sum(made) == 0 && forall i :: 0 <= i < |made| ==> made[i] == 0 || made[i] == 1
    ensures forall i :: 0 <= i < |made| ==> made[i] == 0
  {
    OnesAdd(made);
  }

  lemma {:induction false} OnesAdd(made: seq<int>)
    requires forall i :: 0 <= i < |made| ==> made[i] == 0 || made[i] == 1
    ensures Sum(made) >= 0
    ensures Sum(made) == 0 ==> forall i :: 0 <= i < |made| ==> made[i] == 0
  {
    if made != [] { OnesAdd(made[..|made| - 1]); }
  }

  /** No extra bits on any made-up code. */
  ghost predicate NoneExtra(made: seq<int>, xs: seq<nat>) {
    |made| <= |xs| && forall i :: 0 <= i < |made| && made[i] != 0 ==> xs[i] == 0
  }

  lemma MadeTerms(f0: seq<ush>, f: seq<ush>, made: seq<int>, d: seq<ush>, elems: nat, maxCode: int, maxLength: nat, codes: seq<ush>)
    requires MadeUp(f0, f, made, elems) && TreeOk(f, codes, d, elems, maxCode, maxLength)
    requires forall i :: maxCode < i < elems ==> f[i] == 0
    ensures |made| <= |d| && Sum(StaticTerms(made, d)) == Sum(made)
  {
    MadeOneBit(f0, f, made, d, elems, maxCode, maxLength, codes);
    OneBitTerms(made, d);
  }

  lemma PricedWithout(f0: seq<ush>, f: seq<ush>, made: seq<int>, codes: seq<ush>, d: seq<ush>, elems: nat, maxLength: nat,
                      opt: nat, opt1: nat, opt0: nat, xs: seq<nat>, maxCode: int)
    requires MadeUp(f0, f, made, elems) && TreeOk(f, codes, d, elems, maxCode, maxLength)
    requires forall i :: maxCode < i < elems ==> f[i] == 0
    requires NoneExtra(made, xs)
    requires Discounted(opt1, opt0, Sum(made)) && Priced(opt, opt1, f, d, xs, maxCode + 1)
    ensures Priced(opt, opt0, f0, d, xs, maxCode + 1)
  {
    hide TotalBits, U32, Priced, Complete, CodesUpTo, LengthOk, StaticTerms, Sum, Discounted, UsedIds;
    PricedParts(opt, opt1, f, d, xs, maxCode + 1);
    MadeTerms(f0, f, made, d, elems, maxCode, maxLength, codes);
    ForcedCancels(opt1, opt0, opt, Sum(made), f0, f, made, d, xs, elems, maxCode + 1);
    PricedFrom(opt, opt0, f0, d, xs, maxCode + 1);
  }

  lemma PricedParts(opt: nat, opt0: nat, f: seq<ush>, d: seq<ush>, xs: seq<nat>, n: nat)
    requires Priced(opt, opt0, f, d, xs, n)
    ensures n <= |f| && n <= |d| && n <= |xs| && opt < 0x1_0000_0000 && opt == U32(opt0 + TotalBits(f, d, xs, n))
  {
    hide TotalBits, U32;
  }

  lemma PricedFrom(opt: nat, opt0: nat, f: seq<ush>, d: seq<ush>, xs: seq<nat>, n: nat)
    requires n <= |f| && n <= |d| && n <= |xs| && opt < 0x1_0000_0000 && opt == U32(opt0 + TotalBits(f, d, xs, n))
    ensures Priced(opt, opt0, f, d, xs, n)
  {
    hide TotalBits, U32;
  }

  lemma StaticWithout(f0: seq<ush>, f: seq<ush>, made: seq<int>, elems: nat,
                      sta: nat, sta1: nat, sta0: nat, slens: seq<ush>, xs: seq<nat>, maxCode: int, isStatic: bool)
    requires MadeUp(f0, f, made, elems) && 0 <= maxCode < elems && elems <= |xs|
    requires forall i :: maxCode < i < elems ==> f[i] == 0
    requires NoneExtra(made, xs) && (isStatic ==> elems <= |slens|)
    requires isStatic ==> Discounted(sta1, sta0, Sum(StaticTerms(made, slens)))
    requires !isStatic ==> sta1 == sta0
    requires StaticPriced(sta, sta1, f, slens, xs, maxCode + 1, isStatic)
    ensures StaticPriced(sta, sta0, f0, slens, xs, maxCode + 1, isStatic)
  {
    if isStatic {
      ForcedCancels(sta1, sta0, sta, Sum(StaticTerms(made, slens)), f0, f, made, slens, xs, elems, maxCode + 1);
    }
  }

  // ----- the whole of build_tree

  /** build_tree's result for the frequencies f0: it counts with f, which is f0 with two codes at least. */
  ghost predicate Built(f0: seq<ush>, f: seq<ush>, codes: seq<ush>, d: seq<ush>, elems: nat, maxLength: nat,
                        opt: nat, opt0: nat, sta: nat, sta0: nat, k: Tariff) {
    && TreeOk(f, codes, d, elems, k.maxCode, maxLength)
    && (exists made :: MadeUp(f0, f, made, elems)) && WhichMade(f0, f, elems)
    && k.maxCode == MaxUsed(f, elems)
    && BothPriced(opt, opt0, sta, sta0, f0, d, k.maxCode + 1, k)
    && FromSomeTree(f, d, elems, k.maxCode + 1, maxLength, multiset(UsedFreqs(f, elems)))
  }

  /** lens are the lengths that build_tree gives for the frequencies f0: up to the greatest code, or all. */
  ghost predicate HuffmanCoded(f0: seq<ush>, lens: seq<nat>, elems: nat, maxLength: nat) {
    exists f, codes, d :: HuffmanWith(f0, f, codes, d, lens, elems, maxLength)
  }

  ghost predicate HuffmanWith(f0: seq<ush>, f: seq<ush>, codes: seq<ush>, d: seq<ush>, lens: seq<nat>, elems: nat, maxLength: nat) {
    && elems <= |f| && elems <= 0x10000
    && (exists made :: MadeUp(f0, f, made, elems)) && WhichMade(f0, f, elems)
    && TreeOk(f, codes, d, elems, MaxUsed(f, elems), maxLength)
    && MaxUsed(f, elems) < |lens| <= |d| && (|lens| == MaxUsed(f, elems) + 1 || |lens| == elems) && lens == d[..|lens|]
    && FromSomeTree(f, d, elems, MaxUsed(f, elems) + 1, maxLength, multiset(UsedFreqs(f, elems)))
  }

  lemma BuiltIsHuffman(f0: seq<ush>, f: seq<ush>, codes: seq<ush>, d: seq<ush>, elems: nat, maxLength: nat,
                       opt: nat, opt0: nat, sta: nat, sta0: nat, k: Tariff, lens: seq<nat>)
    requires Built(f0, f, codes, d, elems, maxLength, opt, opt0, sta, sta0, k)
    requires k.maxCode < |lens| <= |d| && (|lens| == k.maxCode + 1 || |lens| == elems) && lens == d[..|lens|]
    ensures HuffmanCoded(f0, lens, elems, maxLength)
  {
    hide FromSomeTree, TreeOk, BothPriced, UsedFreqs, MaxUsed;
    assert exists made :: MadeUp(f0, f, made, elems);
    assert HuffmanWith(f0, f, codes, d, lens, elems, maxLength);
  }

  /** Ready for the main loop of desc, in s; it started with the frequencies f0. */
  ghost predicate Prepared(s: TreeState, f0: seq<ush>, made: seq<int>, elems: nat, opt0: nat, sta0: nat,
                           slens: seq<ush>, isStatic: bool) {
    && elems <= 0x10000 && 2 <= s.heapLen <= elems <= |s.fc|
    && Listed(s, elems) && Unused(s.fc, s.dl, elems)
    && Sum(s.fc[..elems]) < 0x10000
    && MadeUp(f0, s.fc, made, elems) && WhichMade(f0, s.fc, elems)
    && (isStatic ==> elems <= |slens|)
    && Discounts(s.optLen, opt0, s.staticLen, sta0, made, slens, isStatic)
    && s.optLen < 0x1_0000_0000 && s.staticLen < 0x1_0000_0000
  }

  lemma PreparedNow(s: TreeState, t: TreeState, made: seq<int>, elems: nat, slens: seq<ush>, isStatic: bool)
    requires elems <= 0x10000 && Forced(s, t, made, elems, slens, isStatic) && Listed(t, elems) && WhichMade(s.fc, t.fc, elems)
    requires 2 <= t.heapLen <= elems && Sum(s.fc[..elems]) + 2 < 0x10000
    requires Unused(s.fc, s.dl, elems)
    requires s.optLen < 0x1_0000_0000 && s.staticLen < 0x1_0000_0000
    ensures Prepared(t, s.fc, made, elems, s.optLen, s.staticLen, slens, isStatic)
  {
    TwoListed(t.heap, t.heapLen, t.fc, elems);
    assert made[..elems] == made;
    FewForced(s.fc, t.fc, made, elems, elems);
  }

  /** The codes that occur are in the heap. */
  method Collect(g: TreeSpace, desc: TreeDesc)
    requires g.Valid() && desc.Valid() && g.Apart(desc)
    modifies g`heapLen, g`heapMax, g.heap, g.depth, desc.dyn.dl, desc`maxCode
    ensures g.heapLen <= desc.elems
    ensures Listed(State(g, desc), desc.elems)
    ensures Unused(desc.dyn.fc[..], desc.dyn.dl[..], desc.elems)
  {
    CollectUsed(g, desc);
    assert ListsUsed(g.heap[..], g.heapLen, desc.dyn.fc[..], desc.elems);
  }

  /** The codes that occur, two at least, are in the heap. */
  method Prepare(g: TreeSpace, desc: TreeDesc) returns (ghost made: seq<int>)
    requires g.Valid() && desc.Valid() && g.Apart(desc) && g.Words()
    requires Sum(desc.dyn.fc[..][..desc.elems]) + 2 < 0x10000
    modifies g`heapLen, g`heapMax, g`optLen, g`staticLen, g.heap, g.depth, desc.dyn.fc, desc.dyn.dl, desc`maxCode
    ensures Prepared(State(g, desc), old(desc.dyn.fc[..]), made, desc.elems, old(g.optLen), old(g.staticLen),
                     StaticLens(desc), desc.stat != null)
    ensures StaticLens(desc) == old(StaticLens(desc))
  {
    Collect(g, desc);
    ghost var s := State(g, desc);
    made := ForceTwo(g, desc);
    ghost var t := State(g, desc);
    PreparedNow(s, t, made, desc.elems, StaticLens(desc), desc.stat != null);
  }

  lemma BothWithout(s: TreeState, f0: seq<ush>, made: seq<int>, elems: nat, maxLength: nat, opt0: nat, sta0: nat, slens: seq<ush>,
                    isStatic: bool, codes: seq<ush>, d: seq<ush>, opt: nat, sta: nat, k: Tariff)
    requires Prepared(s, f0, made, elems, opt0, sta0, slens, isStatic)
    requires k.slens == slens && k.isStatic == isStatic && k.maxCode == s.maxCode
    requires NoneExtra(made, k.xs) && elems <= |k.xs|
    requires TreeOk(s.fc, codes, d, elems, k.maxCode, maxLength)
    requires BothPriced(opt, s.optLen, sta, s.staticLen, s.fc, d, k.maxCode + 1, k)
    ensures BothPriced(opt, opt0, sta, sta0, f0, d, k.maxCode + 1, k)
  {
    hide Sum, NoneExtra, Complete, StaticPriced, Priced, Unused;
    MaxUsedIs(s.fc, elems);
    PricedWithout(f0, s.fc, made, codes, d, elems, maxLength, opt, s.optLen, opt0, k.xs, k.maxCode);
    StaticWithout(f0, s.fc, made, elems, sta, s.staticLen, sta0, slens, k.xs, k.maxCode, isStatic);
  }

  lemma BuiltNow(s: TreeState, f0: seq<ush>, made: seq<int>, elems: nat, maxLength: nat, opt0: nat, sta0: nat, slens: seq<ush>,
                 isStatic: bool, codes: seq<ush>, d: seq<ush>, w0: multiset<nat>, opt: nat, sta: nat, k: Tariff)
    requires Prepared(s, f0, made, elems, opt0, sta0, slens, isStatic)
    requires k.slens == slens && k.isStatic == isStatic && k.maxCode == s.maxCode
    requires NoneExtra(made, k.xs) && elems <= |k.xs|
    requires w0 == multiset(UsedFreqs(s.fc, elems))
    requires Finished(s.fc, codes, d, elems, maxLength, w0, opt, s.optLen, sta, s.staticLen, k)
    ensures Built(f0, s.fc, codes, d, elems, maxLength, opt, opt0, sta, sta0, k)
  {
    BothWithout(s, f0, made, elems, maxLength, opt0, sta0, slens, isStatic, codes, d, opt, sta, k);
    assert MadeUp(f0, s.fc, made, elems);
  }

  lemma NoExtrasMade(f0: seq<ush>, f: seq<ush>, made: seq<int>, desc: TreeDesc)
    requires desc.Sized() && MadeUp(f0, f, made, desc.elems)
    ensures NoneExtra(made, Extras(desc))
  {
  }

  /** The tree that was prepared. */
  method BuildPrepared(heap: array<ush>, heapLen: nat, depth: array<byte>, fc: array<ush>, dl: array<ush>, blCount: array<nat>,
                       desc: TreeDesc, maxCode: int, opt1: nat, sta1: nat,
                       ghost s: TreeState, ghost f0: seq<ush>, ghost made: seq<int>, ghost opt0: nat, ghost sta0: nat)
    returns (heapMax: nat, opt: nat, sta: nat, ghost k: Tariff)
    requires desc.Valid() && desc.Sized() && fc == desc.dyn.fc && dl == desc.dyn.dl && blCount.Length == 16
    requires heap != fc && heap != dl && (desc.stat != null ==> desc.stat.dl != heap)
    requires heap.Length == depth.Length == HEAP_SIZE
    requires s.heap == heap[..] && s.heapLen == heapLen && s.fc == fc[..] && s.dl == dl[..]
    requires s.maxCode == maxCode && s.optLen == opt1 && s.staticLen == sta1
    requires Prepared(s, f0, made, desc.elems, opt0, sta0, StaticLens(desc), desc.stat != null)
    modifies heap, depth, fc, dl, blCount
    ensures k.maxCode == maxCode && k.xs == Extras(desc) && k.isStatic == (desc.stat != null)
    ensures k.slens == old(StaticLens(desc))
    ensures Built(f0, s.fc, fc[..], dl[..], desc.elems, desc.maxLength, opt, opt0, sta, sta0, k)
  {
    hide Built, Finished, Discounts;
    ghost var slens := StaticLens(desc);
    ghost var w0 := multiset(UsedFreqs(s.fc, desc.elems));
    assert fc[..desc.elems] == s.fc[..desc.elems];
    ghost var node;
    heapMax, node := GrowTree(heap, heapLen, depth, fc, dl, desc.elems, maxCode, w0);
    assert fc[..][..desc.elems] == s.fc[..desc.elems];
    k := CostsOf(desc, maxCode, fc[..]);
    opt, sta := FinishTree(heap, heapMax, fc, dl, blCount, desc, maxCode, opt1, sta1, node, w0, k, s.fc);
    NoExtrasMade(f0, s.fc, made, desc);
    BuiltNow(s, f0, made, desc.elems, desc.maxLength, opt0, sta0, slens, desc.stat != null,
             fc[..], dl[..], w0, opt, sta, k);
  }

  lemma BuiltWords(f0: seq<ush>, f: seq<ush>, codes: seq<ush>, d: seq<ush>, elems: nat, maxLength: nat,
                   opt: nat, opt0: nat, sta: nat, sta0: nat, k: Tariff)
    requires Built(f0, f, codes, d, elems, maxLength, opt, opt0, sta, sta0, k)
    ensures opt < 0x1_0000_0000 && sta < 0x1_0000_0000
  {
    hide TreeOk, FromSomeTree, TotalBits;
  }

  /** From the frequencies in the tree, lengths that come from a Huffman tree and canonical codes for them. */
  method BuildTree(g: TreeSpace, desc: TreeDesc) returns (ghost f: seq<ush>, ghost k: Tariff)
    requires g.Valid() && desc.Valid() && desc.Sized() && g.Apart(desc) && g.Words()
    requires Sum(desc.dyn.fc[..][..desc.elems]) + 2 < 0x10000
    modifies g, g.heap, g.depth, g.blCount, desc.dyn.fc, desc.dyn.dl, desc`maxCode
    ensures g.Words()
    ensures k.maxCode == desc.maxCode && k.xs == Extras(desc) && k.isStatic == (desc.stat != null)
    ensures k.slens == old(StaticLens(desc))
    ensures Built(old(desc.dyn.fc[..]), f, desc.dyn.fc[..], desc.dyn.dl[..], desc.elems, desc.maxLength,
                  g.optLen, old(g.optLen), g.staticLen, old(g.staticLen), k)
  {
    hide Built, Listed, Unused, MadeUp, Discounts;
    ghost var f0, opt0, sta0 := desc.dyn.fc[..], g.optLen, g.staticLen;
    ghost var made := Prepare(g, desc);
    ghost var s := State(g, desc);
    f := s.fc;
    var heapMax, opt, sta;
    heapMax, opt, sta, k := BuildPrepared(g.heap, g.heapLen, g.depth, desc.dyn.fc, desc.dyn.dl, g.blCount, desc,
                                               desc.maxCode, g.optLen, g.staticLen, s, f0, made, opt0, sta0);
    BuiltWords(f0, f, desc.dyn.fc[..], desc.dyn.dl[..], desc.elems, desc.maxLength, opt, opt0, sta, sta0, k);
    g.heapLen, g.heapMax, g.optLen, g.staticLen := 1, heapMax, opt, sta;
  }
}