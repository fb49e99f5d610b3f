/** flush_block: builds the trees of a block, chooses its cheapest form and sends it. */
module FlushBlocks {
  import opened Bits
  import opened Sums
  import opened Rfc1951
  import opened Heaps
  import opened Trees
  import opened BitLengths
  import opened FirstPasses
  import opened TreeLengths
  import opened Reassign
  import opened CodeLengths
  import opened TreeBuilder
  import opened RunLengths
  import opened Tokens
  import opened TokenPrices
  import opened TokenBuffers
  import opened BlockTrees

  /** The extra bits that the literal tree's descriptor names. */
  function LengthExtras(): (r: seq<nat>)
    ensures |r| == 29 && forall c :: 0 <= c < 29 ==> r[c] == LengthExtra(c)
  {
    seq(29, c requires 0 <= c < 29 => LengthExtra(c))
  }

  function DistanceExtras(): (r: seq<nat>)
    ensures |r| == 30 && forall c :: 0 <= c < 30 ==> r[c] == DistExtra(c)
  {
    seq(30, c requires 0 <= c < 30 => DistExtra(c))
  }

  predicate LitDesc(desc: TreeDesc) {
    && desc.Valid() && desc.stat != null && desc.elems == 286 && desc.maxLength == 15
    && desc.extraBase == 257 && desc.extraBits == LengthExtras()
  }

  predicate DistDesc(desc: TreeDesc) {
    && desc.Valid() && desc.stat != null && desc.elems == 30 && desc.maxLength == 15
    && desc.extraBase == 0 && desc.extraBits == DistanceExtras()
  }

  lemma Pow2Of15()
    ensures Pow2(15) == 0x8000
  {
    Pow2At7();
    Pow2At8();
    Pow2Add(7, 8);
  }

  lemma LitDescSized(desc: TreeDesc)
    requires LitDesc(desc)
    ensures desc.Sized() && LitExtras(Extras(desc))
  {
    hide LengthExtra;
    Pow2Of15();
    ExtraBounds();
  }

  lemma DistDescSized(desc: TreeDesc)
    requires DistDesc(desc)
    ensures desc.Sized() && DistExtras(Extras(desc))
  {
    hide DistExtra;
    Pow2Of15();
    ExtraBounds();
    assert DistExtra(0) == 0 && DistExtra(1) == 0 && DistExtra(2) == 0 by { NearDistances(); }
  }

  lemma NearDistances()
    ensures DistExtra(0) == 0 && DistExtra(1) == 0 && DistExtra(2) == 0
  {
  }

  // ----- sums of frequencies

  lemma {:induction false} LitCountsSum(ts: seq<Token>, n: nat)
    ensures Sum(LitCounts(ts, n)) <= |ts|
  {
    hide LitSym;
    if ts == [] {
      SumZero(LitCounts(ts, n));
    } else {
      var rest, t := ts[..|ts| - 1], ts[|ts| - 1];
      LitCountsSum(rest, n);
      assert ts == rest + [t];
      var c := LitCounts(rest, n);
      if LitSym(t) < n {
        LitCountsSnoc(rest, t, n);
        SumUpdate(c, LitSym(t), c[LitSym(t)] + 1);
      } else {
        assert LitCounts(ts, n) == c;
      }
    }
  }

  lemma {:induction false} DistCountsSum(ts: seq<Token>, n: nat)
    ensures Sum(DistCounts(ts, n)) <= |ts|
  {
    hide DistSym;
    if ts == [] {
      SumZero(DistCounts(ts, n));
    } else {
      var rest, t := ts[..|ts| - 1], ts[|ts| - 1];
      DistCountsSum(rest, n);
      assert ts == rest + [t];
      var c := DistCounts(rest, n);
      if t.Match? && DistSym(t.dist) < n {
        DistCountsSnoc(rest, t, n);
        SumUpdate(c, DistSym(t.dist), c[DistSym(t.dist)] + 1);
      } else {
        assert DistCounts(ts, n) == c;
      }
    }
  }

  lemma LitFreqsSum(f: seq<ush>, ts: seq<Token>)
    requires LitFreqs(f, ts) && |ts| < LIT_BUFSIZE
    ensures Sum(f[..286]) + 2 < 0x10000
  {
    hide LitCount;
    var c := LitCounts(ts, 286);
    LitCountsSum(ts, 286);
    assert f[..286] == c[256 := c[256] + 1];
    SumUpdate(c, 256, c[256] + 1);
  }

  lemma DistFreqsSum(f: seq<ush>, ts: seq<Token>)
    requires DistFreqs(f, ts) && |ts| < LIT_BUFSIZE
    ensures Sum(f[..30]) + 2 < 0x10000
  {
    hide DistCount;
    DistCountsSum(ts, 30);
    assert f[..30] == DistCounts(ts, 30);
  }

  // ----- one tree of a block

  /** The tree is ready, and both block lengths have grown by its symbols' price. */
  ghost predicate TreeGrown(codes: seq<ush>, d: seq<ush>, lens: seq<nat>, maxCode: int, f0: seq<ush>, slens: seq<nat>, xs: seq<nat>,
                        opt: nat, opt0: nat, sta: nat, sta0: nat) {
    && TreeReady(codes, d, lens) && maxCode + 1 == |lens|
    && |lens| <= |f0| && |lens| <= |xs| && |lens| <= |slens|
    && opt < 0x1_0000_0000 && sta < 0x1_0000_0000
    && opt == U32(opt0 + TotalBits(f0, lens, xs, |lens|))
    && sta == U32(sta0 + TotalBits(f0, slens, xs, |lens|))
  }

  lemma GrownNow(f0: seq<ush>, f: seq<ush>, codes: seq<ush>, d: seq<ush>, elems: nat, opt: nat, opt0: nat, sta: nat, sta0: nat,
                 k: Tariff, lens: seq<nat>, slens: seq<nat>)
    requires Built(f0, f, codes, d, elems, 15, opt, opt0, sta, sta0, k) && k.isStatic
    requires 0 <= k.maxCode < |d| && lens == d[..k.maxCode + 1]
    requires elems <= |slens| && elems <= |k.slens| && forall i :: 0 <= i < elems ==> slens[i] == k.slens[i]
    ensures TreeGrown(codes, d, lens, k.maxCode, f0, slens, k.xs, opt, opt0, sta, sta0)
  {
    hide FromSomeTree, TreeOk, TotalBits, TreeReady;
    BuiltIsReady(f0, f, codes, d, elems, 15, opt, opt0, sta, sta0, k, lens);
    var n := k.maxCode + 1;
    TotalBitsSame(f0, d, lens, k.xs, n);
    TotalBitsSame(f0, k.slens, slens, k.xs, n);
  }

  lemma BuiltMax(f0: seq<ush>, f: seq<ush>, codes: seq<ush>, d: seq<ush>, elems: nat, opt: nat, opt0: nat, sta: nat, sta0: nat,
                 k: Tariff)
    requires Built(f0, f, codes, d, elems, 15, opt, opt0, sta, sta0, k)
    ensures 0 <= k.maxCode < elems <= |d|
  {
    hide FromSomeTree, BothPriced, Complete;
  }

  method BuildLitTree(g: TreeSpace, desc: TreeDesc, ghost ts: seq<Token>) returns (ghost llens: seq<nat>, ghost xs: seq<nat>)
    requires g.Valid() && LitDesc(desc) && g.Apart(desc) && g.Words()
    requires LitFreqs(desc.dyn.fc[..], ts) && |ts| < LIT_BUFSIZE
    requires desc.stat.dl[..] == FixedLens()
    modifies g, g.heap, g.depth, g.blCount, desc.dyn.fc, desc.dyn.dl, desc`maxCode
    ensures LitCodes(llens, ts) && LitExtras(xs) && |xs| == 286
    ensures HuffmanCoded(old(desc.dyn.fc[..]), llens, 286, 15)
    ensures TreeGrown(desc.dyn.fc[..], desc.dyn.dl[..], llens, desc.maxCode, old(desc.dyn.fc[..]), FixedLens(), xs,
                  g.optLen, old(g.optLen), g.staticLen, old(g.staticLen))
  {
    hide Built, LitFreqs, LitCodes, TreeGrown, FixedLens, HuffmanCoded;
    ghost var f0, opt0, sta0 := desc.dyn.fc[..], g.optLen, g.staticLen;
    LitDescSized(desc);
    LitFreqsSum(f0, ts);
    ghost var f, k := BuildTree(g, desc);
    xs := k.xs;
    BuiltMax(f0, f, desc.dyn.fc[..], desc.dyn.dl[..], 286, g.optLen, opt0, g.staticLen, sta0, k);
    llens := desc.dyn.dl[..][..k.maxCode + 1];
    BuiltIsHuffman(f0, f, desc.dyn.fc[..], desc.dyn.dl[..], 286, 15, g.optLen, opt0, g.staticLen, sta0, k, llens);
    LitBuilt(f0, f, desc.dyn.fc[..], desc.dyn.dl[..], g.optLen, opt0, g.staticLen, sta0, k, ts, llens);
    GrownNow(f0, f, desc.dyn.fc[..], desc.dyn.dl[..], 286, g.optLen, opt0, g.staticLen, sta0, k, llens, FixedLens());
  }

  method BuildDistTree(g: TreeSpace, desc: TreeDesc, ghost ts: seq<Token>) returns (ghost dlens: seq<nat>, ghost xs: seq<nat>)
    requires g.Valid() && DistDesc(desc) && g.Apart(desc) && g.Words()
    requires DistFreqs(desc.dyn.fc[..], ts) && |ts| < LIT_BUFSIZE
    requires desc.stat.dl.Length == 30 && forall i :: 0 <= i < 30 ==> desc.stat.dl[i] == 5
    modifies g, g.heap, g.depth, g.blCount, desc.dyn.fc, desc.dyn.dl, desc`maxCode
    ensures DistCodes(dlens, ts) && DistExtras(xs) && |xs| == 30
    ensures HuffmanCoded(old(desc.dyn.fc[..]), dlens, 30, 15)
    ensures TreeGrown(desc.dyn.fc[..], desc.dyn.dl[..], dlens, desc.maxCode, old(desc.dyn.fc[..]), FixedDistLens(), xs,
                  g.optLen, old(g.optLen), g.staticLen, old(g.staticLen))
  {
    hide Built, DistFreqs, DistCodes, TreeGrown, HuffmanCoded;
    ghost var f0, opt0, sta0 := desc.dyn.fc[..], g.optLen, g.staticLen;
    DistDescSized(desc);
    DistFreqsSum(f0, ts);
    ghost var f, k := BuildTree(g, desc);
    xs := k.xs;
    BuiltMax(f0, f, desc.dyn.fc[..], desc.dyn.dl[..], 30, g.optLen, opt0, g.staticLen, sta0, k);
    dlens := desc.dyn.dl[..][..k.maxCode + 1];
    BuiltIsHuffman(f0, f, desc.dyn.fc[..], desc.dyn.dl[..], 30, 15, g.optLen, opt0, g.staticLen, sta0, k, dlens);
    DistBuilt(f0, f, desc.dyn.fc[..], desc.dyn.dl[..], g.optLen, opt0, g.staticLen, sta0, k, ts, dlens);
    GrownNow(f0, f, desc.dyn.fc[..], desc.dyn.dl[..], 30, g.optLen, opt0, g.staticLen, sta0, k, dlens, FixedDistLens());
  }
}
