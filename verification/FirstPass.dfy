/** gen_bitlen's first pass as the loop that it is. */
module FirstPasses {
  import opened Bits
  import opened Sums
  import opened Heaps
  import opened Trees
  import opened TreeBuilding
  import opened TreeLoop
  import opened TreeShape
  import opened BitLengths

  /** Sets the length of one node from its father's; tells whether it was cut. */
  method LengthOf(dl: array<ush>, n: nat, maxLength: nat) returns (bits: nat, cut: bool)
    requires n < dl.Length && dl[n] < dl.Length && 1 <= maxLength <= 15
    modifies dl
    ensures bits == Min(old(Plus(dl[dl[n]], 1)), maxLength)
    ensures cut <==> old(Plus(dl[dl[n]], 1)) > maxLength
    ensures dl[..] == old(dl[..])[n := bits]
  {
    bits := Plus(dl[dl[n]], 1);
    cut := bits > maxLength;
    if cut { bits := maxLength; }
    dl[n] := bits;
  }

  /** Counts one leaf, as CountOne says. */
  method CountLeaf(blCount: array<nat>, desc: TreeDesc, n: ush, bits: nat, f: nat, opt: nat, sta: nat,
                   ghost k: Tariff)
    returns (opt': nat, sta': nat)
    requires desc.Valid() && blCount.Length == 16 && bits < 16
    requires n <= k.maxCode < desc.elems
    requires n < |k.f| && f == k.f[n] && k.xs == Extras(desc) && k.slens == StaticLens(desc)
    requires k.isStatic == (desc.stat != null)
    modifies blCount
    ensures Counters(blCount[..], opt', sta') == CountOne(Counters(old(blCount[..]), opt, sta), k, n, bits)
  {
    blCount[bits] := blCount[bits] + 1;
    var xbits := 0;
    if n >= desc.extraBase {
      xbits := desc.Extra(n);
    }
    opt' := U32(opt + f * (bits + xbits));
    sta' := sta;
    if desc.stat != null {
      sta' := U32(sta + f * (desc.stat.dl[n] + xbits));
    }
  }

  /** The extra bits of all codes. */
  ghost function Extras(desc: TreeDesc): (r: seq<nat>)
    ensures |r| == desc.elems && forall i :: 0 <= i < |r| ==> r[i] == desc.Extra(i)
  {
    seq(desc.elems, i requires 0 <= i < desc.elems => desc.Extra(i))
  }

  /** overs[q] is 1 if the (q+1)st node of the order was cut. */
  ghost predicate Overs(overs: seq<int>, d: seq<ush>, root: nat, maxLength: nat) {
    forall q :: 0 <= q < |overs| ==> OverAt(overs, d, root, maxLength, q)
  }

  ghost predicate OverAt(overs: seq<int>, d: seq<ush>, root: nat, maxLength: nat, q: nat)
    requires q < |overs|
  {
    && 0 <= Dad(root, q + 1) < |d|
    && overs[q] == if Plus(d[Dad(root, q + 1)], 1) > maxLength then 1 else 0
  }

  lemma OversStep(overs: seq<int>, order: seq<ush>, d: seq<ush>, elems: nat, root: nat, maxLength: nat,
                  p: nat, bits: ush, cut: bool)
    requires Overs(overs, d, root, maxLength) && |overs| == p - 1
    requires Shape(order, elems, root) && root < |d| && 1 <= p < |order|
    requires order[p] < |d| && 0 <= Dad(root, p) < |d|
    requires cut <==> Plus(d[Dad(root, p)], 1) > maxLength
    ensures Overs(overs + [if cut then 1 else 0], d[order[p] := bits], root, maxLength)
  {
    var o', d' := overs + [if cut then 1 else 0], d[order[p] := bits];
    forall q | 0 <= q < p
      ensures OverAt(o', d', root, maxLength, q)
    {
      DadsAhead(order, elems, root, p, q + 1);
      if q < p - 1 { assert OverAt(overs, d, root, maxLength, q); }
    }
  }

  /** bs lists the lengths of the nodes after the root. */
  ghost predicate Listing(bs: seq<nat>, order: seq<ush>, d: seq<ush>) {
    && |bs| < |order|
    && forall q :: 0 <= q < |bs| ==> ListAt(bs, order, d, q)
  }

  ghost predicate ListAt(bs: seq<nat>, order: seq<ush>, d: seq<ush>, q: nat)
    requires q < |bs| < |order|
  {
    order[q + 1] < |d| && d[order[q + 1]] == bs[q]
  }

  lemma ListingStep(bs: seq<nat>, order: seq<ush>, d: seq<ush>, elems: nat, root: nat, p: nat, bits: ush)
    requires Listing(bs, order, d) && |bs| == p - 1 && 1 <= p < |order|
    requires Shape(order, elems, root) && order[p] < |d|
    ensures Listing(bs + [bits], order, d[order[p] := bits])
  {
    var b', d' := bs + [bits], d[order[p] := bits];
    forall q | 0 <= q < p
      ensures ListAt(b', order, d', q)
    {
      if q < p - 1 {
        assert ListAt(bs, order, d, q);
        assert order[q + 1] != order[p];
      }
    }
  }

  ghost predicate UsedOnly(order: seq<ush>, f: seq<ush>, elems: nat) {
    elems <= |f| && forall q :: 0 <= q < |order| && order[q] < elems ==> f[order[q]] != 0
  }

  /** All that the pass keeps, before position p. */
  ghost predicate InPass(order: seq<ush>, d: seq<ush>, elems: nat, root: nat, maxLength: nat, p: nat,
                         c: Counters, c0: Counters, k: Tariff, bs: seq<nat>, overs: seq<int>) {
    && Passed(order, d, elems, root, maxLength, p)
    && Unused(k.f, d, elems) && UsedOnly(order, k.f, elems)
    && |bs| == |overs| == p - 1
    && Listing(bs, order, d)
    && Overs(overs, d, root, maxLength)
    && Counted(c, c0, k, order[1..p], bs)
    && c.opt < 0x1_0000_0000 && c.sta < 0x1_0000_0000
  }

  ghost predicate CostsFit(k: Tariff, elems: nat) {
    && k.maxCode < elems <= |k.f| && elems <= |k.xs| && (k.isStatic ==> elems <= |k.slens|)
  }

  lemma InPassStep(order: seq<ush>, d: seq<ush>, elems: nat, root: nat, maxLength: nat, p: nat, next: nat,
                   c: Counters, c0: Counters, k: Tariff, bs: seq<nat>, overs: seq<int>, bits: nat, cut: bool)
    requires InPass(order, d, elems, root, maxLength, p, c, c0, k, bs, overs) && p < |order| && next == p + 1
    requires maxLength <= 15 && CostsFit(k, elems)
    requires 0 <= Dad(root, p) < |d| && order[p] < |d|
    requires bits == Min(Plus(d[Dad(root, p)], 1), maxLength)
    requires cut <==> Plus(d[Dad(root, p)], 1) > maxLength
    ensures InPass(order, d[order[p] := bits], elems, root, maxLength, next,
                   CountOne(c, k, order[p], bits), c0, k, bs + [bits], overs + [if cut then 1 else 0])
  {
    hide Counted;
    PassStep(order, d, elems, root, maxLength, p, next, bits);
    ListingStep(bs, order, d, elems, root, p, bits);
    OversStep(overs, order, d, elems, root, maxLength, p, bits, cut);
    CountedStep(c, c0, k, order[1..p], bs, order[p], bits);
    assert order[1..next] == order[1..p] + [order[p]];
  }

  /** One turn of the pass on the arrays. */
  method PassOne(dl: array<ush>, blCount: array<nat>, desc: TreeDesc, n: ush, f: nat, maxCode: int, opt: nat, sta: nat,
                 ghost k: Tariff)
    returns (opt': nat, sta': nat, cut: bool, ghost bits: nat)
    requires desc.Valid() && blCount.Length == 16 && dl == desc.dyn.dl
    requires n < dl.Length && dl[n] < dl.Length
    requires maxCode == k.maxCode && CostsFit(k, desc.elems)
    requires n <= k.maxCode ==> f == k.f[n]
    requires k.xs == Extras(desc) && k.slens == StaticLens(desc) && k.isStatic == (desc.stat != null)
    modifies dl, blCount
    ensures bits == Min(old(Plus(dl[dl[n]], 1)), desc.maxLength)
    ensures cut <==> old(Plus(dl[dl[n]], 1)) > desc.maxLength
    ensures dl[..] == old(dl[..])[n := bits]
    ensures Counters(blCount[..], opt', sta') == CountOne(Counters(old(blCount[..]), opt, sta), k, n, bits)
  {
    var b;
    b, cut := LengthOf(dl, n, desc.maxLength);
    bits := b;
    opt', sta' := opt, sta;
    if n <= maxCode {
      opt', sta' := CountLeaf(blCount, desc, n, b, f, opt, sta, k);
    }
  }

  /** Lengths for all nodes from the root down; counts leaves, costs and cut nodes. */
  method FirstPass(heap: array<ush>, heapMax: nat, fc: array<ush>, dl: array<ush>, blCount: array<nat>, desc: TreeDesc,
                   maxCode: int, opt0: nat, sta0: nat, ghost root: nat, ghost k: Tariff, ghost bl0: seq<nat>)
    returns (overflow: int, opt: nat, sta: nat, ghost bs: seq<nat>, ghost overs: seq<int>)
    requires desc.Valid() && fc == desc.dyn.fc && dl == desc.dyn.dl && blCount.Length == 16
    requires heap != fc && heap != dl && (desc.stat != null ==> desc.stat.dl != heap)
    requires heapMax < heap.Length
    requires InPass(heap[heapMax..], dl[..], desc.elems, root, desc.maxLength, 1,
                    Counters(blCount[..], opt0, sta0), Counters(bl0, opt0, sta0), k, [], [])
    requires maxCode == k.maxCode && CostsFit(k, desc.elems) && k.f == fc[..]
    requires k.xs == Extras(desc) && k.slens == StaticLens(desc) && k.isStatic == (desc.stat != null)
    modifies dl, blCount
    ensures InPass(heap[heapMax..], dl[..], desc.elems, root, desc.maxLength, heap.Length - heapMax,
                   Counters(blCount[..], opt, sta), Counters(bl0, opt0, sta0), k, bs, overs)
    ensures overflow == Sum(overs)
  {
    ghost var order := heap[heapMax..];
    ghost var c0 := Counters(bl0, opt0, sta0);
    overflow, opt, sta, bs, overs := 0, opt0, sta0, [], [];
    var h := heapMax + 1;
    ghost var p := 1;
    while h < heap.Length
      invariant h == heapMax + p && 1 <= p <= |order|
      invariant heap[heapMax..] == order && fc[..] == k.f && StaticLens(desc) == k.slens
      invariant InPass(order, dl[..], desc.elems, root, desc.maxLength, p, Counters(blCount[..], opt, sta), c0, k, bs, overs)
      invariant overflow == Sum(overs)
    {
      ghost var d, c := dl[..], Counters(blCount[..], opt, sta);
      var n := heap[h];
      NodeAt(heap[..], heapMax, order, d, desc.elems, root, desc.maxLength, p, h);
      var cut;
      ghost var bits;
      opt, sta, cut, bits := PassOne(dl, blCount, desc, n, fc[n], maxCode, opt, sta, k);
      if cut { overflow := overflow + 1; }
      ghost var q := p;
      h, p := h + 1, p + 1;
      InPassStep(order, d, desc.elems, root, desc.maxLength, q, p, c, c0, k, bs, overs, bits, cut);
      SumSnoc(overs, if cut then 1 else 0);
      bs, overs := bs + [bits], overs + [if cut then 1 else 0];
    }
  }

  lemma NodeAt(heap: seq<ush>, heapMax: nat, order: seq<ush>, d: seq<ush>, elems: nat, root: nat, maxLength: nat, p: nat, h: nat)
    requires heapMax < |heap| && order == heap[heapMax..] && h == heapMax + p && p < |order|
    requires Passed(order, d, elems, root, maxLength, p)
    ensures heap[h] == order[p] && heap[h] < |d|
    ensures 0 <= Dad(root, p) <= root && d[heap[h]] == Dad(root, p)
  {
    assert StillDad(order, d, root, p);
    DadInRange(order, elems, root, p);
  }
}
