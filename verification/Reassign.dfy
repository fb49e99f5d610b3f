/** The last part of gen_bitlen: new lengths for all leaves, longest ones to the least frequent. */
module Reassign {
  import opened Bits
  import opened Sums
  import opened Rfc1951
  import opened Heaps
  import opened TreeGrowth
  import opened TreeShape
  import opened TreeLengths
  import opened AfterPass

  /** The leaves from position q of the order on that have b bits. */
  function Tally(order: seq<ush>, d: seq<ush>, q: nat, maxCode: nat, b: nat): nat
    requires q <= |order|
    decreases |order| - q
  {
    if q == |order| then 0
    else (if IsLeaf(order, d, q, maxCode) && d[order[q]] == b then 1 else 0) + Tally(order, d, q + 1, maxCode, b)
  }

  predicate IsLeaf(order: seq<ush>, d: seq<ush>, q: nat, maxCode: nat)
    requires q < |order|
  {
    order[q] <= maxCode && order[q] < |d|
  }

  /** All leaves from position q on. */
  function LeafNum(order: seq<ush>, d: seq<ush>, q: nat, maxCode: nat): nat
    requires q <= |order|
    decreases |order| - q
  {
    if q == |order| then 0
    else (if IsLeaf(order, d, q, maxCode) then 1 else 0) + LeafNum(order, d, q + 1, maxCode)
  }

  lemma {:induction false} TallySame(order: seq<ush>, d: seq<ush>, e: seq<ush>, q: nat, maxCode: nat, b: nat)
    requires q <= |order| && |d| == |e|
    requires forall p :: q <= p < |order| && order[p] < |d| ==> d[order[p]] == e[order[p]]
    ensures Tally(order, d, q, maxCode, b) == Tally(order, e, q, maxCode, b)
    decreases |order| - q
  {
    if q < |order| { TallySame(order, d, e, q + 1, maxCode, b); }
  }

  lemma {:induction false} LeafNumSame(order: seq<ush>, d: seq<ush>, e: seq<ush>, q: nat, maxCode: nat)
    requires q <= |order| && |d| == |e|
    ensures LeafNum(order, d, q, maxCode) == LeafNum(order, e, q, maxCode)
    decreases |order| - q
  {
    if q < |order| { LeafNumSame(order, d, e, q + 1, maxCode); }
  }

  function Tallies(order: seq<ush>, d: seq<ush>, q: nat, maxCode: nat): (r: seq<nat>)
    requires q <= |order|
    ensures |r| == 16 && forall b :: 0 <= b < 16 ==> r[b] == Tally(order, d, q, maxCode, b)
  {
    seq(16, b requires 0 <= b < 16 => Tally(order, d, q, maxCode, b))
  }

  /** Each leaf has one length. */
  lemma {:induction false} TalliesSum(order: seq<ush>, d: seq<ush>, q: nat, maxCode: nat)
    requires q <= |order|
    requires forall i :: 0 <= i <= maxCode && i < |d| ==> d[i] < 16
    ensures Sum(Tallies(order, d, q, maxCode)) == LeafNum(order, d, q, maxCode)
    decreases |order| - q
  {
    if q == |order| {
      SumZero(Tallies(order, d, q, maxCode));
    } else {
      TalliesSum(order, d, q + 1, maxCode);
      var t := Tallies(order, d, q + 1, maxCode);
      if IsLeaf(order, d, q, maxCode) {
        var b := d[order[q]];
        assert Tallies(order, d, q, maxCode) == t[b := t[b] + 1];
        SumUpdate(t, b, t[b] + 1);
      } else {
        assert Tallies(order, d, q, maxCode) == t;
      }
    }
  }

  /** Where there are no more leaves, nothing more is counted. */
  lemma {:induction false} NoLeavesBefore(order: seq<ush>, d: seq<ush>, p: nat, q: nat, maxCode: nat, b: nat)
    requires p <= q <= |order| && LeafNum(order, d, p, maxCode) == LeafNum(order, d, q, maxCode)
    ensures Tally(order, d, p, maxCode, b) == Tally(order, d, q, maxCode, b)
    decreases q - p
  {
    if p < q {
      LeafNumMono(order, d, p + 1, q, maxCode);
      NoLeavesBefore(order, d, p + 1, q, maxCode, b);
    }
  }

  lemma {:induction false} LeafNumMono(order: seq<ush>, d: seq<ush>, p: nat, q: nat, maxCode: nat)
    requires p <= q <= |order|
    ensures LeafNum(order, d, p, maxCode) >= LeafNum(order, d, q, maxCode)
    decreases q - p
  {
    if p < q { LeafNumMono(order, d, p + 1, q, maxCode); }
  }

  lemma {:induction false} TallyIsSum(order: seq<ush>, d: seq<ush>, q: nat, maxCode: nat, size: nat, b: nat)
    requires q <= |order| && maxCode < size <= |d| && Indices(order, size)
    ensures Tally(order, d, q, maxCode, b) == Sum(Pick(CountTerms(d, maxCode + 1, size, b), order[q..]))
    decreases |order| - q
  {
    var g := CountTerms(d, maxCode + 1, size, b);
    if q < |order| {
      TallyIsSum(order, d, q + 1, maxCode, size, b);
      assert Pick(g, order[q..]) == [g[order[q]]] + Pick(g, order[q + 1..]);
      SumConcat([g[order[q]]], Pick(g, order[q + 1..]));
      SumOne(g[order[q]]);
    }
  }

  lemma SumOne(a: int)
    ensures Sum([a]) == a
  {
    SumSnoc([], a);
    assert [] + [a] == [a];
  }

  lemma TallyIsCount(order: seq<ush>, f: seq<ush>, d: seq<ush>, elems: nat, root: nat, maxCode: nat, b: nat)
    requires LeavesAre(order, f, d, elems, root, maxCode) && b >= 1
    ensures Tally(order, d, 0, maxCode, b) == Count(d[..maxCode + 1], b)
  {
    TallyIsSum(order, d, 0, maxCode, root + 1, b);
    assert order[0..] == order;
    PickHead(CountTerms(d, maxCode + 1, root + 1, b), order);
    SonsAsCounts(order, f, d, elems, root, maxCode, b);
  }

  // ----- the cost of changing one length

  lemma {:induction false} TotalBitsUpdate(f: seq<nat>, d: seq<ush>, xs: seq<nat>, n: nat, m: nat, v: ush)
    requires n <= |f| && n <= |d| && n <= |xs| && m < n
    ensures TotalBits(f, d[m := v], xs, n) == TotalBits(f, d, xs, n) + f[m] * (v - d[m])
  {
    if m == n - 1 {
      TotalBitsSame(f, d, d[m := v], xs, n - 1);
      ChangeTerm(f[m], d[m], v, xs[m]);
    } else {
      TotalBitsUpdate(f, d, xs, n - 1, m, v);
    }
  }

  lemma {:induction false} TotalBitsSame(f: seq<nat>, d: seq<nat>, e: seq<nat>, xs: seq<nat>, n: nat)
    requires n <= |f| && n <= |d| && n <= |e| && n <= |xs|
    requires forall i :: 0 <= i < n ==> d[i] == e[i]
    ensures TotalBits(f, d, xs, n) == TotalBits(f, e, xs, n)
  {
    if n > 0 { TotalBitsSame(f, d, e, xs, n - 1); }
  }

  lemma ChangeTerm(f: int, a: int, v: int, x: int)
    ensures f * (v + x) == f * (a + x) + f * (v - a)
  {
  }

  // ----- the loop

  /** How many codes have been given b bits when n codes of `bits` bits are still to be given. */
  function Want(bl: seq<nat>, bits: nat, n: nat, b: nat): int
    requires |bl| == 16 && bits < 16 && b < 16
  {
    if b > bits then bl[b] else if b == bits then bl[bits] - n else 0
  }

  function Above(bl: seq<nat>, b: nat): int
    requires b < |bl|
  {
    Sum(bl[b + 1..])
  }

  lemma AboveStep(bl: seq<nat>, b: nat, c: nat)
    requires 1 <= b < |bl| && c == b - 1
    ensures Above(bl, c) == bl[b] + Above(bl, b)
  {
    assert bl[c + 1..] == [bl[b]] + bl[b + 1..];
    SumConcat([bl[b]], bl[b + 1..]);
    SumOne(bl[b]);
  }

  lemma {:induction false} AboveAll(bl: seq<nat>, b: nat)
    requires b < |bl|
    ensures Above(bl, b) + bl[b] <= Sum(bl)
    ensures b == 0 ==> Above(bl, b) + bl[b] == Sum(bl)
  {
    if b == 0 {
      assert bl == [bl[0]] + bl[1..];
      SumConcat([bl[0]], bl[1..]);
      SumOne(bl[0]);
    } else {
      AboveAll(bl, b - 1);
      AboveStep(bl, b, b - 1);
    }
  }

  ghost predicate Reassigning(order: seq<ush>, f: seq<ush>, d: seq<ush>, elems: nat, maxCode: nat, maxLength: nat,
                              bl: seq<nat>, q: nat, bits: nat, n: nat) {
    && q <= |order| && |bl| == 16 && bits < 16 && n <= bl[bits]
    && maxCode < elems <= |d|
    && (forall b :: 1 <= b < 16 ==> Tally(order, d, q, maxCode, b) == Want(bl, bits, n, b))
    && LeafNum(order, d, q, maxCode) == Above(bl, bits) + bl[bits] - n
    && LeafNum(order, d, 0, maxCode) == Sum(bl)
    && (forall i :: 0 <= i < elems ==> LengthOk(f, d, maxLength, i))
  }

  lemma SkipNode(order: seq<ush>, f: seq<ush>, d: seq<ush>, elems: nat, maxCode: nat, maxLength: nat,
                 bl: seq<nat>, q: nat, p: nat, bits: nat, n: nat)
    requires Reassigning(order, f, d, elems, maxCode, maxLength, bl, q, bits, n)
    requires p + 1 == q && order[p] > maxCode
    ensures Reassigning(order, f, d, elems, maxCode, maxLength, bl, p, bits, n)
  {
  }

  lemma TallyAfter(order: seq<ush>, d: seq<ush>, p: nat, q: nat, size: nat, maxCode: nat, bits: ush, b: nat)
    requires p + 1 == q <= |order| && Indices(order, size) && order[p] <= maxCode < |d|
    ensures Tally(order, d[order[p] := bits], p, maxCode, b)
         == Tally(order, d, q, maxCode, b) + (if b == bits then 1 else 0)
  {
    TallySame(order, d, d[order[p] := bits], q, maxCode, b);
  }

  lemma GiveLength(order: seq<ush>, f: seq<ush>, d: seq<ush>, elems: nat, size: nat, maxCode: nat, maxLength: nat,
                   bl: seq<nat>, q: nat, p: nat, bits: nat, n: nat, fewer: nat)
    requires Reassigning(order, f, d, elems, maxCode, maxLength, bl, q, bits, n)
    requires p + 1 == q && n == fewer + 1 && 1 <= bits <= maxLength <= 15 && Indices(order, size)
    requires order[p] <= maxCode && order[p] < |f| && f[order[p]] != 0
    ensures Reassigning(order, f, d[order[p] := bits], elems, maxCode, maxLength, bl, p, bits, fewer)
  {
    var e := d[order[p] := bits];
    forall b | 1 <= b < 16
      ensures Tally(order, e, p, maxCode, b) == Want(bl, bits, fewer, b)
    {
      TallyAfter(order, d, p, q, size, maxCode, bits, b);
    }
    LeafNumSame(order, d, e, q, maxCode);
    LeafNumSame(order, d, e, 0, maxCode);
    forall i | 0 <= i < elems
      ensures LengthOk(f, e, maxLength, i)
    {
      assert LengthOk(f, d, maxLength, i);
    }
  }

  lemma NextLength(order: seq<ush>, f: seq<ush>, d: seq<ush>, elems: nat, maxCode: nat, maxLength: nat,
                   bl: seq<nat>, q: nat, bits: nat, less: nat)
    requires Reassigning(order, f, d, elems, maxCode, maxLength, bl, q, bits, 0) && bits == less + 1
    ensures Reassigning(order, f, d, elems, maxCode, maxLength, bl, q, less, bl[less])
  {
    AboveStep(bl, bits, less);
  }

  lemma NodesLeft(order: seq<ush>, f: seq<ush>, d: seq<ush>, elems: nat, maxCode: nat, maxLength: nat,
                  bl: seq<nat>, q: nat, bits: nat, n: nat)
    requires Reassigning(order, f, d, elems, maxCode, maxLength, bl, q, bits, n) && n > 0
    ensures q > 0
  {
    AboveAll(bl, bits);
  }

  /** From position q on, leaves get no shorter towards the beginning, and none is shorter than bits. */
  ghost predicate Falls(order: seq<ush>, d: seq<ush>, q: nat, maxCode: nat, bits: nat) {
    && (forall i, j :: 0 <= q <= i < j < |order| && IsLeaf(order, d, i, maxCode) && IsLeaf(order, d, j, maxCode) ==>
          d[order[i]] <= d[order[j]])
    && (forall i :: 0 <= q <= i < |order| && IsLeaf(order, d, i, maxCode) ==> bits <= d[order[i]])
  }

  lemma FallsSkip(order: seq<ush>, d: seq<ush>, q: nat, p: nat, maxCode: nat, bits: nat)
    requires Falls(order, d, q, maxCode, bits) && p + 1 == q <= |order| && order[p] > maxCode
    ensures Falls(order, d, p, maxCode, bits)
  {
  }

  lemma FallsGive(order: seq<ush>, d: seq<ush>, q: nat, p: nat, maxCode: nat, bits: ush, size: nat)
    requires Falls(order, d, q, maxCode, bits) && p + 1 == q <= |order| && Indices(order, size) && order[p] < |d|
    ensures Falls(order, d[order[p] := bits], p, maxCode, bits)
  {
    var e := d[order[p] := bits];
    forall i | p < i < |order| && IsLeaf(order, e, i, maxCode)
      ensures bits <= e[order[i]] == d[order[i]] && IsLeaf(order, d, i, maxCode)
    {
    }
  }

  lemma FallsLess(order: seq<ush>, d: seq<ush>, q: nat, maxCode: nat, bits: nat, less: nat)
    requires Falls(order, d, q, maxCode, bits) && less <= bits
    ensures Falls(order, d, q, maxCode, less)
  {
  }

  /** Where there are no leaves before q, symbols that are rarer have no shorter lengths. */
  lemma FallsForAll(order: seq<ush>, f: seq<ush>, d: seq<ush>, elems: nat, root: nat, maxCode: nat, q: nat)
    requires LeavesAre(order, f, d, elems, root, maxCode) && Falling(order, f)
    requires q <= |order| && LeafNum(order, d, 0, maxCode) == LeafNum(order, d, q, maxCode)
    requires Falls(order, d, q, maxCode, 0)
    ensures RarerNoShorter(f, d, elems)
  {
    forall i, j | 0 <= i < elems && 0 <= j < elems && 0 < f[i] < f[j]
      ensures d[j] <= d[i]
    {
      var x := LeafAt(order, f, d, elems, root, maxCode, q, i);
      var y := LeafAt(order, f, d, elems, root, maxCode, q, j);
      assert y < x;
    }
  }

  lemma LeafAt(order: seq<ush>, f: seq<ush>, d: seq<ush>, elems: nat, root: nat, maxCode: nat, q: nat, i: nat) returns (x: nat)
    requires LeavesAre(order, f, d, elems, root, maxCode) && i < elems && f[i] != 0
    requires q <= |order| && LeafNum(order, d, 0, maxCode) == LeafNum(order, d, q, maxCode)
    ensures q <= x < |order| && order[x] == i && IsLeaf(order, d, x, maxCode)
  {
    hide LeafNum;
    assert i in order;
    x :| 0 <= x < |order| && order[x] == i;
    if x < q { LeafBefore(order, d, 0, x, q, maxCode); }
  }

  lemma LeafBefore(order: seq<ush>, d: seq<ush>, p: nat, x: nat, q: nat, maxCode: nat)
    requires p <= x < q <= |order| && IsLeaf(order, d, x, maxCode)
    ensures LeafNum(order, d, p, maxCode) > LeafNum(order, d, q, maxCode)
  {
    LeafNumMono(order, d, p, x, maxCode);
    LeafNumMono(order, d, x + 1, q, maxCode);
  }

  /** The length and the block length that depends on it. */
  method SetLength(dl: array<ush>, fc: array<ush>, m: nat, bits: nat, opt: nat) returns (opt': nat)
    requires fc != dl && m < dl.Length && m < fc.Length && bits < 16 && opt < 0x1_0000_0000
    modifies dl
    ensures dl[..] == old(dl[..])[m := bits]
    ensures opt' == U32(opt + fc[m] * (bits - old(dl[m])))
  {
    opt' := opt;
    if dl[m] != bits {
      opt' := U32(opt + (bits - dl[m]) * fc[m]);
      Swapped(bits - dl[m], fc[m]);
      dl[m] := bits;
    } else {
      assert bits - dl[m] == 0;
    }
  }

  lemma Swapped(a: int, b: int)
    ensures a * b == b * a
  {
  }

  /** The block length follows the lengths. */
  ghost predicate Priced(opt: nat, opt0: nat, f: seq<ush>, d: seq<ush>, xs: seq<nat>, n: nat) {
    && n <= |f| && n <= |d| && n <= |xs| && opt < 0x1_0000_0000
    && opt == U32(opt0 + TotalBits(f, d, xs, n))
  }

  lemma Repriced(opt: nat, opt0: nat, f: seq<ush>, d: seq<ush>, xs: seq<nat>, n: nat, m: nat, bits: ush, opt': nat)
    requires Priced(opt, opt0, f, d, xs, n) && m < n
    requires opt' == U32(opt + f[m] * (bits - d[m]))
    ensures Priced(opt', opt0, f, d[m := bits], xs, n)
  {
    TotalBitsUpdate(f, d, xs, n, m, bits);
    U32Twice(opt0 + TotalBits(f, d, xs, n), f[m] * (bits - d[m]));
  }

  /** Gives `bits` bits to the next n leaves, from the least frequent on. */
  method GiveLengths(heap: array<ush>, heapMax: nat, h0: nat, fc: array<ush>, dl: array<ush>, maxCode: nat,
                     bits: nat, n0: nat, opt0: nat,
                     ghost order: seq<ush>, ghost elems: nat, ghost size: nat, ghost maxLength: nat,
                     ghost bl: seq<nat>, ghost xs: seq<nat>, ghost base: nat)
    returns (h: nat, opt: nat)
    requires heap != dl && fc != dl && heapMax <= h0 <= heap.Length && order == heap[heapMax..]
    requires Indices(order, size) && 1 <= bits <= maxLength <= 15 && elems <= dl.Length <= fc.Length
    requires LeavesUsed(order, fc[..], maxCode)
    requires Reassigning(order, fc[..], dl[..], elems, maxCode, maxLength, bl, h0 - heapMax, bits, n0)
    requires Falls(order, dl[..], h0 - heapMax, maxCode, bits)
    requires Priced(opt0, base, fc[..], dl[..], xs, maxCode + 1)
    modifies dl
    ensures heapMax <= h <= heap.Length
    ensures Reassigning(order, fc[..], dl[..], elems, maxCode, maxLength, bl, h - heapMax, bits, 0)
    ensures Falls(order, dl[..], h - heapMax, maxCode, bits)
    ensures Priced(opt, base, fc[..], dl[..], xs, maxCode + 1)
  {
    hide Falls, LeafNum, Indices, Sum, TotalBits, U32;
    h, opt := h0, opt0;
    var n := n0;
    ghost var f := fc[..];
    ghost var q := h - heapMax;
    while n != 0
      invariant heapMax <= h <= heap.Length && q == h - heapMax
      invariant heap[heapMax..] == order && fc[..] == f
      invariant Reassigning(order, f, dl[..], elems, maxCode, maxLength, bl, q, bits, n)
      invariant Falls(order, dl[..], q, maxCode, bits)
      invariant Priced(opt, base, f, dl[..], xs, maxCode + 1)
      decreases h
    {
      ghost var d, was := dl[..], q;
      NodesLeft(order, f, d, elems, maxCode, maxLength, bl, q, bits, n);
      h, q := h - 1, q - 1;
      var m := heap[h];
      assert m == order[q];
      if m > maxCode {
        SkipNode(order, f, d, elems, maxCode, maxLength, bl, was, q, bits, n);
        FallsSkip(order, d, was, q, maxCode, bits);
        continue;
      }
      ghost var o, c := opt, n;
      opt := SetLength(dl, fc, m, bits, opt);
      Repriced(o, base, f, d, xs, maxCode + 1, m, bits, opt);
      n := n - 1;
      GiveLength(order, f, d, elems, size, maxCode, maxLength, bl, was, q, bits, c, n);
      FallsGive(order, d, was, q, maxCode, bits, size);
    }
  }

  ghost predicate LeavesUsed(order: seq<ush>, f: seq<ush>, maxCode: nat) {
    forall p :: 0 <= p < |order| && order[p] <= maxCode ==> order[p] < |f| && f[order[p]] != 0
  }

  /** All leaves get new lengths, the greatest first, from the least frequent leaf on; the block length follows. */
  method ReassignAll(heap: array<ush>, heapMax: nat, fc: array<ush>, dl: array<ush>, blCount: array<nat>,
                     maxCode: nat, maxLength: nat, opt0: nat,
                     ghost order: seq<ush>, ghost elems: nat, ghost size: nat, ghost xs: seq<nat>, ghost base: nat)
    returns (opt: nat)
    requires heap != dl && fc != dl && heapMax <= heap.Length && order == heap[heapMax..] && blCount.Length == 16
    requires Indices(order, size) && 1 <= maxLength <= 15 && elems <= dl.Length <= fc.Length
    requires LeavesUsed(order, fc[..], maxCode)
    requires Reassigning(order, fc[..], dl[..], elems, maxCode, maxLength, blCount[..], |order|, maxLength, blCount[maxLength])
    requires Priced(opt0, base, fc[..], dl[..], xs, maxCode + 1)
    modifies dl
    ensures exists q: nat :: Reassigning(order, fc[..], dl[..], elems, maxCode, maxLength, blCount[..], q, 0, blCount[0])
                             && Falls(order, dl[..], q, maxCode, 0)
    ensures Priced(opt, base, fc[..], dl[..], xs, maxCode + 1)
  {
    hide Reassigning;
    opt := opt0;
    var h := heap.Length;
    var bits := maxLength;
    ghost var bl, f := blCount[..], fc[..];
    while bits != 0
      invariant heapMax <= h <= heap.Length && 0 <= bits <= maxLength
      invariant heap[heapMax..] == order && fc[..] == f && blCount[..] == bl
      invariant Reassigning(order, f, dl[..], elems, maxCode, maxLength, bl, h - heapMax, bits, bl[bits])
      invariant Falls(order, dl[..], h - heapMax, maxCode, bits)
      invariant Priced(opt, base, f, dl[..], xs, maxCode + 1)
    {
      h, opt := GiveLengths(heap, heapMax, h, fc, dl, maxCode, bits, blCount[bits], opt,
                            order, elems, size, maxLength, bl, xs, base);
      ghost var was := bits;
      bits := bits - 1;
      NextLength(order, f, dl[..], elems, maxCode, maxLength, bl, h - heapMax, was, bits);
      FallsLess(order, dl[..], h - heapMax, maxCode, was, bits);
    }
  }
}
