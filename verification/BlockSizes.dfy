/** opt_len and static_len are the exact numbers of bits that the two forms of a block take. */
module BlockSizes {
  import opened Bits
  import opened Rfc1951
  import opened Heaps
  import opened TreeLengths
  import opened RunLengths
  import opened TreeHeaders
  import opened TreeScans
  import opened DynamicHeaders
  import opened BlTrees
  import opened Tokens
  import opened TokenPrices
  import opened TokenBuffers
  import opened BlockTrees
  import opened FlushBlocks

  lemma {:induction false} ItemsSize(clens: seq<nat>, items: seq<Item>)
    requires Sendable(clens, items) && Short(clens)
    ensures |ItemsBits(clens, items)| <= 14 * |items|
    decreases items
  {
    hide CodeOf;
    if items != [] {
      var rest := items[1..];
      ItemsSize(clens, rest);
      assert ItemOk(items[0]);
    }
  }

  lemma HeaderBound(llens: seq<nat>, dlens: seq<nat>, clens: seq<nat>, n: nat)
    requires Announceable(llens, dlens, clens, n)
    ensures |HeaderBits(llens, dlens, clens, n)| <= 5000
  {
    hide Sendable, Items, Space, Short, NoneFrom, HeaderBits, RunAt;
    HeaderSize(llens, dlens, clens, n);
    CompleteLens(llens);
    CompleteLens(dlens);
    FewItems(llens, |llens|);
    FewItems(dlens, |dlens|);
    ItemsSize(clens, Items(llens));
    ItemsSize(clens, Items(dlens));
    ItemsAre(llens);
    ItemsAre(dlens);
  }

  lemma ItemsAre(lens: seq<nat>)
    requires |lens| > 0
    ensures Items(lens) == RunAt(lens, |lens|).items
  {
  }

  /** Both trees are built. */
  ghost predicate Priced2(llens: seq<nat>, dlens: seq<nat>, ts: seq<Token>, opt: nat, sta: nat) {
    && LitCodes(llens, ts) && DistCodes(dlens, ts) && TokensOk(ts)
    && CanSendAll(llens, dlens, ts) && Fits(ts, |llens|, |dlens|)
    && CanSendAll(FixedLens(), FixedDistLens(), ts)
    && opt == U32(|BodyBits(llens, dlens, ts)|)
    && sta == U32(|BodyBits(FixedLens(), FixedDistLens(), ts)|)
  }

  lemma BothPricedNow(lc: seq<ush>, ld: seq<ush>, llens: seq<nat>, lmax: int, lf: seq<ush>, lxs: seq<nat>,
                      dc: seq<ush>, dd: seq<ush>, dlens: seq<nat>, dmax: int, df: seq<ush>, dxs: seq<nat>,
                      ts: seq<Token>, opt: nat, opt1: nat, sta: nat, sta1: nat)
    requires LitCodes(llens, ts) && DistCodes(dlens, ts) && TokensOk(ts)
    requires LitExtras(lxs) && |lxs| == 286 && DistExtras(dxs) && |dxs| == 30
    requires LitFreqs(lf, ts) && DistFreqs(df, ts)
    requires TreeGrown(lc, ld, llens, lmax, lf, FixedLens(), lxs, opt1, 0, sta1, 0)
    requires TreeGrown(dc, dd, dlens, dmax, df, FixedDistLens(), dxs, opt, opt1, sta, sta1)
    ensures Priced2(llens, dlens, ts, opt, sta)
  {
    hide TotalBits, LitCodes, DistCodes, LitExtras, DistExtras, LitFreqs, DistFreqs, TreeReady, BodyBits, Fits,
      CanSendAll, FixedLens, FixedDistLens, LitCoded, DistCoded;
    var n, m := |llens|, |dlens|;
    Bounds(llens, dlens, ts);
    BothServe(llens, dlens, ts);
    FixedServe(ts);
    BodyPrice(llens, dlens, ts, n, m, lf, df, lxs, dxs);
    BodyPrice(FixedLens(), FixedDistLens(), ts, n, m, lf, df, lxs, dxs);
    U32Twice(TotalBits(lf, llens, lxs, n), TotalBits(df, dlens, dxs, m));
    U32Twice(TotalBits(lf, FixedLens(), lxs, n), TotalBits(df, FixedDistLens(), dxs, m));
  }

  lemma Bounds(llens: seq<nat>, dlens: seq<nat>, ts: seq<Token>)
    requires LitCodes(llens, ts) && DistCodes(dlens, ts)
    ensures 257 <= |llens| <= 286 && 1 <= |dlens| <= 30 && llens[256] > 0
  {
  }

  /** The block's sizes are exact: nothing has been lost to 32-bit arithmetic. */
  ghost predicate Exact(llens: seq<nat>, dlens: seq<nat>, clens: seq<nat>, n: nat, ts: seq<Token>, opt: nat, sta: nat) {
    && Announceable(llens, dlens, clens, n)
    && CanSendAll(llens, dlens, ts) && CanSendAll(FixedLens(), FixedDistLens(), ts)
    && opt == |HeaderBits(llens, dlens, clens, n)| + |BodyBits(llens, dlens, ts)|
    && sta == |BodyBits(FixedLens(), FixedDistLens(), ts)|
  }

  lemma ExactNow(llens: seq<nat>, dlens: seq<nat>, clens: seq<nat>, n: nat, ts: seq<Token>, opt: nat, opt2: nat, sta: nat)
    requires Priced2(llens, dlens, ts, opt2, sta) && |ts| < LIT_BUFSIZE
    requires HeaderReady(llens, dlens, clens, n, opt, opt2)
    ensures Exact(llens, dlens, clens, n, ts, opt, sta)
    ensures opt <= 400_000 && sta <= 31 * 8191 + 7
  {
    hide HeaderBits, BodyBits, LitCodes, DistCodes, Fits, CanSendAll, Shaped, Short, NoneFrom, Space, FixedLens,
      FixedDistLens;
    HeaderBound(llens, dlens, clens, n);
    CompleteLens(llens);
    CompleteLens(dlens);
    BodySize(llens, dlens, ts);
    FixedBodySize(ts);
    SmallWord(|BodyBits(llens, dlens, ts)|);
    SmallWord(|BodyBits(FixedLens(), FixedDistLens(), ts)|);
    SmallWord(opt2 + |HeaderBits(llens, dlens, clens, n)|);
  }

  lemma SmallWord(a: nat)
    ensures a < 0x1_0000_0000 ==> U32(a) == a
  {
  }
}
