/** gen_bitlen, first pass: lengths from fathers, cut at the greatest length. */
module BitLengths {
  import opened Bits
  import opened Sums
  import opened Huffman
  import opened Heaps
  import opened TreeBuilding
  import opened TreeGrowth
  import opened TreeLoop
  import opened TreeShape

  // ----- from the finished main loop to the shape of a tree

  lemma CountsDistinct(s: seq<ush>, p: nat, q: nat)
    requires p < q < |s| && s[p] == s[q]
    ensures multiset(s)[s[p]] >= 2
  {
    assert s == s[..p] + [s[p]] + s[p + 1..q] + [s[q]] + s[q + 1..];
  }

  lemma CountsMember(s: seq<ush>, x: ush)
    requires multiset(s)[x] >= 1
    ensures x in s
  {
    assert x in multiset(s);
  }

  lemma DadOfSon(order: seq<ush>, f: seq<ush>, d: seq<ush>, elems: nat, node: nat, p: nat)
    requires |order| > 0 && Paired(order[1..], f, d, elems, node) && 1 <= p < |order|
    ensures order[p] < |d| && order[p] < Dad(node - 1, p) && d[order[p]] == Dad(node - 1, p)
  {
    assert Son(order[1..], d, node, p - 1);
    assert order[1..][p - 1] == order[p];
  }

  lemma FullTreeShape(order: seq<ush>, f: seq<ush>, d: seq<ush>, elems: nat, node: nat, w0: multiset<nat>)
    requires FullTree(order, f, d, elems, node, w0)
    ensures Shape(order, elems, node - 1)
  {
    hide HuffmanCost, Sum, AllNodes, Freqs, Paired;
    forall p | 0 <= p < |order|
      ensures order[p] < node
    {
      if p > 0 { DadOfSon(order, f, d, elems, node, p); }
    }
    forall p, q | 0 <= p < q < |order|
      ensures order[p] != order[q]
    {
      AllNodesCount(f, elems, node, order[p]);
      if order[p] == order[q] { CountsDistinct(order, p, q); }
    }
    forall p | 1 <= p < |order|
      ensures order[p] < Dad(node - 1, p)
    {
      DadOfSon(order, f, d, elems, node, p);
    }
    forall x | elems <= x <= node - 1
      ensures x in order
    {
      InnerInOrder(order, f, d, elems, node, w0, x);
    }
  }

  lemma InnerInOrder(order: seq<ush>, f: seq<ush>, d: seq<ush>, elems: nat, node: nat, w0: multiset<nat>, x: ush)
    requires FullTree(order, f, d, elems, node, w0) && elems <= x < node
    ensures x in order
  {
    AllNodesCount(f, elems, node, x);
    CountsMember(order, x);
  }

  lemma LeafInOrder(order: seq<ush>, f: seq<ush>, d: seq<ush>, elems: nat, node: nat, w0: multiset<nat>, x: ush)
    requires FullTree(order, f, d, elems, node, w0) && x < elems
    ensures x in order <==> f[x] != 0
  {
    AllNodesCount(f, elems, node, x);
    if f[x] != 0 { CountsMember(order, x); }
    else { assert x !in multiset(order); }
  }

  // ----- the state of the pass before position p

  ghost predicate Lengthened(order: seq<ush>, d: seq<ush>, root: nat, maxLength: nat, q: nat)
    requires q < |order|
  {
    && order[q] < |d| && 0 <= Dad(root, q) < |d|
    && d[order[q]] == Min(Plus(d[Dad(root, q)], 1), maxLength)
  }

  ghost predicate StillDad(order: seq<ush>, d: seq<ush>, root: nat, q: nat)
    requires q < |order|
  {
    order[q] < |d| && d[order[q]] == Dad(root, q)
  }

  ghost predicate Passed(order: seq<ush>, d: seq<ush>, elems: nat, root: nat, maxLength: nat, p: nat) {
    && Shape(order, elems, root) && root < |d| && 1 <= p <= |order|
    && d[root] == 0
    && (forall q :: 1 <= q < p ==> Lengthened(order, d, root, maxLength, q))
    && (forall q :: p <= q < |order| ==> StillDad(order, d, root, q))
  }

  lemma DadsAhead(order: seq<ush>, elems: nat, root: nat, p: nat, q: nat)
    requires Shape(order, elems, root) && 1 <= q <= p < |order|
    ensures order[p] < Dad(root, p) <= Dad(root, q)
  {
  }

  lemma DadInRange(order: seq<ush>, elems: nat, root: nat, p: nat)
    requires Shape(order, elems, root) && 1 <= p < |order|
    ensures elems <= Dad(root, p) <= root
  {
  }

  lemma PassStep(order: seq<ush>, d: seq<ush>, elems: nat, root: nat, maxLength: nat, p: nat, next: nat, bits: ush)
    requires Passed(order, d, elems, root, maxLength, p) && p < |order| && next == p + 1
    requires 0 <= Dad(root, p) < |d| && bits == Min(Plus(d[Dad(root, p)], 1), maxLength)
    requires order[p] < |d|
    ensures Passed(order, d[order[p] := bits], elems, root, maxLength, next)
  {
    var d' := d[order[p] := bits];
    DadsAhead(order, elems, root, p, p);
    forall q | 1 <= q < next
      ensures Lengthened(order, d', root, maxLength, q)
    {
      DadsAhead(order, elems, root, p, q);
      if q < p {
        assert Lengthened(order, d, root, maxLength, q);
        assert order[q] != order[p];
      }
    }
    forall q | next <= q < |order|
      ensures StillDad(order, d', root, q)
    {
      assert StillDad(order, d, root, q);
      assert order[q] != order[p];
    }
    DadsAhead(order, elems, root, p, 1);
  }

  // ----- what the pass counts

  /** How many leaves of the list have b bits. */
  function LeafCount(ids: seq<ush>, bs: seq<nat>, maxCode: int, b: nat): nat
    requires |ids| == |bs|
  {
    if ids == [] then 0
    else
      var n := |ids| - 1;
      LeafCount(ids[..n], bs[..n], maxCode, b) + (if ids[n] <= maxCode && bs[n] == b then 1 else 0)
  }

  /** What one leaf adds to a block length when it is sent with v bits and x extra bits. */
  function LeafTerm(id: nat, v: nat, maxCode: int, f: seq<ush>, xs: seq<nat>): nat {
    if id <= maxCode && id < |f| && id < |xs| then f[id] * (v + xs[id]) else 0
  }

  function LeafTotal(ids: seq<ush>, vs: seq<nat>, maxCode: int, f: seq<ush>, xs: seq<nat>): nat
    requires |ids| == |vs|
  {
    if ids == [] then 0
    else
      var n := |ids| - 1;
      LeafTotal(ids[..n], vs[..n], maxCode, f, xs) + LeafTerm(ids[n], vs[n], maxCode, f, xs)
  }

  function StaticOf(ids: seq<ush>, slens: seq<ush>): (r: seq<nat>)
    ensures |r| == |ids|
    ensures forall i :: 0 <= i < |ids| ==> r[i] == if ids[i] < |slens| then slens[ids[i]] else 0
  {
    seq(|ids|, i requires 0 <= i < |ids| => if ids[i] < |slens| then slens[ids[i]] else 0)
  }

  lemma LeafCountSnoc(ids: seq<ush>, bs: seq<nat>, maxCode: int, b: nat, id: ush, v: nat)
    requires |ids| == |bs|
    ensures LeafCount(ids + [id], bs + [v], maxCode, b)
         == LeafCount(ids, bs, maxCode, b) + (if id <= maxCode && v == b then 1 else 0)
  {
    assert (ids + [id])[..|ids|] == ids && (bs + [v])[..|ids|] == bs;
  }

  lemma LeafTotalSnoc(ids: seq<ush>, vs: seq<nat>, maxCode: int, f: seq<ush>, xs: seq<nat>, id: ush, v: nat)
    requires |ids| == |vs|
    ensures LeafTotal(ids + [id], vs + [v], maxCode, f, xs)
         == LeafTotal(ids, vs, maxCode, f, xs) + LeafTerm(id, v, maxCode, f, xs)
  {
    assert (ids + [id])[..|ids|] == ids && (vs + [v])[..|ids|] == vs;
  }

  /** The counters after the nodes ids with bs bits. */
  datatype Counters = Counters(blCount: seq<nat>, opt: nat, sta: nat)

  /** What does not change during the pass. */
  datatype Tariff = Tariff(maxCode: int, f: seq<ush>, xs: seq<nat>, slens: seq<ush>, isStatic: bool)

  ghost predicate Counted(c: Counters, c0: Counters, k: Tariff, ids: seq<ush>, bs: seq<nat>) {
    && |ids| == |bs| && |c.blCount| == 16
    && (forall b :: 0 <= b < 16 ==> c.blCount[b] == LeafCount(ids, bs, k.maxCode, b))
    && c.opt == U32(c0.opt + LeafTotal(ids, bs, k.maxCode, k.f, k.xs))
    && (k.isStatic ==> c.sta == U32(c0.sta + LeafTotal(ids, StaticOf(ids, k.slens), k.maxCode, k.f, k.xs)))
    && (!k.isStatic ==> c.sta == c0.sta)
  }

  /** One node's contribution. */
  function CountOne(c: Counters, k: Tariff, id: ush, bits: nat): Counters
    requires |c.blCount| == 16 && bits < 16
    requires id <= k.maxCode ==> id < |k.f| && id < |k.xs| && (k.isStatic ==> id < |k.slens|)
  {
    if id > k.maxCode then c
    else Counters(
      c.blCount[bits := c.blCount[bits] + 1],
      U32(c.opt + k.f[id] * (bits + k.xs[id])),
      if k.isStatic then U32(c.sta + k.f[id] * (k.slens[id] + k.xs[id])) else c.sta)
  }

  lemma CountedStep(c: Counters, c0: Counters, k: Tariff, ids: seq<ush>, bs: seq<nat>, id: ush, bits: nat)
    requires Counted(c, c0, k, ids, bs) && bits < 16
    requires id <= k.maxCode ==> id < |k.f| && id < |k.xs| && (k.isStatic ==> id < |k.slens|)
    requires c.opt < 0x1_0000_0000 && c.sta < 0x1_0000_0000
    ensures Counted(CountOne(c, k, id, bits), c0, k, ids + [id], bs + [bits])
  {
    hide LeafCount, U32, StaticOf, LeafTotal;
    CountedBits(c, c0, k, ids, bs, id, bits);
    LeafTotalSnoc(ids, bs, k.maxCode, k.f, k.xs, id, bits);
    CountedTotal(c.opt, c0.opt, LeafTotal(ids, bs, k.maxCode, k.f, k.xs), LeafTerm(id, bits, k.maxCode, k.f, k.xs));
    if k.isStatic {
      var v := if id < |k.slens| then k.slens[id] else 0;
      assert StaticOf(ids + [id], k.slens) == StaticOf(ids, k.slens) + [v];
      LeafTotalSnoc(ids, StaticOf(ids, k.slens), k.maxCode, k.f, k.xs, id, v);
      CountedTotal(c.sta, c0.sta, LeafTotal(ids, StaticOf(ids, k.slens), k.maxCode, k.f, k.xs),
                   LeafTerm(id, v, k.maxCode, k.f, k.xs));
    }
  }

  lemma CountedBits(c: Counters, c0: Counters, k: Tariff, ids: seq<ush>, bs: seq<nat>, id: ush, bits: nat)
    requires Counted(c, c0, k, ids, bs) && bits < 16
    requires id <= k.maxCode ==> id < |k.f| && id < |k.xs| && (k.isStatic ==> id < |k.slens|)
    ensures var h := CountOne(c, k, id, bits).blCount;
            |h| == 16 && forall b :: 0 <= b < 16 ==> h[b] == LeafCount(ids + [id], bs + [bits], k.maxCode, b)
  {
    forall b | 0 <= b < 16
      ensures CountOne(c, k, id, bits).blCount[b] == LeafCount(ids + [id], bs + [bits], k.maxCode, b)
    {
      LeafCountSnoc(ids, bs, k.maxCode, b, id, bits);
    }
  }

  lemma CountedTotal(now: nat, was: nat, sum: nat, more: nat)
    requires now == U32(was + sum)
    ensures U32(now + more) == U32(was + (sum + more))
  {
    U32Twice(was + sum, more);
  }
}
