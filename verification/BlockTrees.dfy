/** What the trees of a block are good for: codes for its tokens, and its exact sizes. */
module BlockTrees {
  import opened Bits
  import opened Rfc1951
  import opened PrefixCodes
  import opened Heaps
  import opened InitialHeap
  import opened BitLengths
  import opened TreeLengths
  import opened AfterPass
  import opened CodeLengths
  import opened CanonicalCodes
  import opened TreeBuilder
  import opened TreeHeaders
  import opened TreeScans
  import opened BlTrees
  import opened Tokens
  import opened TokenPrices

  /** The frequencies of a block's literal and length symbols: the end-of-block code is sent once. */
  ghost predicate LitFreqs(f: seq<ush>, ts: seq<Token>) {
    |f| >= 286 && forall s :: 0 <= s < 286 ==> f[s] == LitCount(ts, s) + (if s == 256 then 1 else 0)
  }

  ghost predicate DistFreqs(f: seq<ush>, ts: seq<Token>) {
    |f| >= 30 && forall s :: 0 <= s < 30 ==> f[s] == DistCount(ts, s)
  }

  lemma {:induction false} LitCountPositive(ts: seq<Token>, i: nat)
    requires i < |ts|
    ensures LitCount(ts, LitSym(ts[i])) > 0
  {
    hide LitSym;
    if i < |ts| - 1 { LitCountPositive(ts[..|ts| - 1], i); }
  }

  lemma {:induction false} DistCountPositive(ts: seq<Token>, i: nat)
    requires i < |ts| && ts[i].Match?
    ensures DistCount(ts, DistSym(ts[i].dist)) > 0
  {
    hide DistSym;
    if i < |ts| - 1 { DistCountPositive(ts[..|ts| - 1], i); }
  }

  /** Whatever occurs has a code. */
  lemma UsedHasCode(f0: seq<ush>, f: seq<ush>, codes: seq<ush>, d: seq<ush>, elems: nat, maxLength: nat,
                    opt: nat, opt0: nat, sta: nat, sta0: nat, k: Tariff, s: nat)
    requires Built(f0, f, codes, d, elems, maxLength, opt, opt0, sta, sta0, k)
    requires s < elems && s < |f0| && f0[s] != 0
    ensures s <= k.maxCode && d[s] > 0
  {
    hide FromSomeTree, CodesUpTo, Complete, BothPriced;
    var made :| MadeUp(f0, f, made, elems);
    MaxUsedIs(f, elems);
    assert LengthOk(f, d, maxLength, s);
  }

  /** A finished tree, as far as sending goes. */
  ghost predicate TreeReady(codes: seq<ush>, d: seq<ush>, lens: seq<nat>) {
    && 0 < |lens| <= |d| && lens == d[..|lens|] && |lens| <= |codes|
    && Complete(lens) && Codebook(codes, d, lens)
  }

  lemma BuiltIsReady(f0: seq<ush>, f: seq<ush>, codes: seq<ush>, d: seq<ush>, elems: nat, maxLength: nat,
                     opt: nat, opt0: nat, sta: nat, sta0: nat, k: Tariff, lens: seq<nat>)
    requires Built(f0, f, codes, d, elems, maxLength, opt, opt0, sta, sta0, k)
    requires k.maxCode >= 0 && k.maxCode < |d| && lens == d[..k.maxCode + 1]
    ensures TreeReady(codes, d, lens) && |lens| == k.maxCode + 1 <= elems
  {
    hide FromSomeTree, BothPriced, Complete;
    TreeBook(f, codes, d, elems, k.maxCode, maxLength);
    assert Entry(codes, d, lens, k.maxCode);
  }

  /** The literal tree has codes for all tokens and for the end of the block. */
  ghost predicate LitCodes(llens: seq<nat>, ts: seq<Token>) {
    && 257 <= |llens| <= 286 && llens[256] > 0
    && forall i :: 0 <= i < |ts| ==> LitCoded(llens, ts[i])
  }

  ghost predicate LitCoded(llens: seq<nat>, t: Token) {
    LitSym(t) < |llens| && llens[LitSym(t)] > 0
  }

  ghost predicate DistCodes(dlens: seq<nat>, ts: seq<Token>) {
    && 1 <= |dlens| <= 30
    && forall i :: 0 <= i < |ts| ==> DistCoded(dlens, ts[i])
  }

  ghost predicate DistCoded(dlens: seq<nat>, t: Token) {
    t.Match? ==> DistSym(t.dist) < |dlens| && dlens[DistSym(t.dist)] > 0
  }

  lemma LitBuilt(f0: seq<ush>, f: seq<ush>, codes: seq<ush>, d: seq<ush>,
                 opt: nat, opt0: nat, sta: nat, sta0: nat, k: Tariff, ts: seq<Token>, llens: seq<nat>)
    requires Built(f0, f, codes, d, 286, 15, opt, opt0, sta, sta0, k) && LitFreqs(f0, ts)
    requires 0 <= k.maxCode < |d| && llens == d[..k.maxCode + 1] && |llens| <= 286
    ensures LitCodes(llens, ts)
  {
    hide Built, LitCount, LitSym;
    UsedHasCode(f0, f, codes, d, 286, 15, opt, opt0, sta, sta0, k, 256);
    forall i | 0 <= i < |ts|
      ensures LitCoded(llens, ts[i])
    {
      var s := LitSym(ts[i]);
      LitSymBound(ts[i]);
      LitCountPositive(ts, i);
      UsedHasCode(f0, f, codes, d, 286, 15, opt, opt0, sta, sta0, k, s);
    }
  }

  lemma LitSymBound(t: Token)
    ensures LitSym(t) < 286
  {
    hide LenSym;
  }

  lemma DistBuilt(f0: seq<ush>, f: seq<ush>, codes: seq<ush>, d: seq<ush>,
                  opt: nat, opt0: nat, sta: nat, sta0: nat, k: Tariff, ts: seq<Token>, dlens: seq<nat>)
    requires Built(f0, f, codes, d, 30, 15, opt, opt0, sta, sta0, k) && DistFreqs(f0, ts)
    requires 0 <= k.maxCode < |d| && dlens == d[..k.maxCode + 1] && |dlens| <= 30
    ensures DistCodes(dlens, ts)
  {
    hide Built, DistCount, DistSym;
    forall i | 0 <= i < |ts|
      ensures DistCoded(dlens, ts[i])
    {
      if ts[i].Match? {
        DistCountPositive(ts, i);
        UsedHasCode(f0, f, codes, d, 30, 15, opt, opt0, sta, sta0, k, DistSym(ts[i].dist));
      }
    }
  }

  /** Both trees serve the block. */
  lemma BothServe(llens: seq<nat>, dlens: seq<nat>, ts: seq<Token>)
    requires LitCodes(llens, ts) && DistCodes(dlens, ts) && TokensOk(ts)
    ensures CanSendAll(llens, dlens, ts) && Fits(ts, |llens|, |dlens|)
  {
    hide LenSym, DistSym;
    forall i | 0 <= i < |ts|
      ensures CanSend(llens, dlens, ts[i]) && FitsOne(ts[i], |llens|, |dlens|)
    {
      assert LitCoded(llens, ts[i]) && DistCoded(dlens, ts[i]);
    }
  }

  lemma FixedServe(ts: seq<Token>)
    requires TokensOk(ts)
    ensures CanSendAll(FixedLens(), FixedDistLens(), ts)
  {
    hide LenSym, DistSym;
    forall i | 0 <= i < |ts|
      ensures CanSend(FixedLens(), FixedDistLens(), ts[i])
    {
    }
  }

  // ----- sizes

  /** The end-of-block code adds its own length to the price of the tokens. */
  lemma BodyPrice(llens: seq<nat>, dlens: seq<nat>, ts: seq<Token>, n: nat, m: nat, f: seq<ush>, g: seq<ush>,
                  lxs: seq<nat>, dxs: seq<nat>)
    requires CanSendAll(llens, dlens, ts) && Fits(ts, n, m) && LitFreqs(f, ts) && DistFreqs(g, ts)
    requires 256 < n <= 286 && n <= |llens| && n <= |lxs| && LitExtras(lxs)
    requires m <= 30 && m <= |dlens| && m <= |dxs| && DistExtras(dxs)
    ensures |BodyBits(llens, dlens, ts)| == TotalBits(f, llens, lxs, n) + TotalBits(g, dlens, dxs, m)
  {
    hide TotalBits, LitCount, DistCount, CanSend, FitsOne, LengthExtra, DistExtra, CodeOf, TokensBits, LsbBits,
      DistExtras, CanSendAll, CodeBits;
    TokensPrice(llens, dlens, ts, n, m, lxs, dxs);
    var c := LitCounts(ts, n);
    TotalBitsOneMore(c, llens, lxs, n, 256);
    TotalBitsSameFreqs(c[256 := c[256] + 1], f, llens, lxs, n);
    TotalBitsSameFreqs(DistCounts(ts, m), g, dlens, dxs, m);
  }

  /** One token takes at most 48 bits, and 31 with the fixed codes. */
  lemma TokenSize(llens: seq<nat>, dlens: seq<nat>, t: Token)
    requires CanSend(llens, dlens, t) && Bounded(llens) && Bounded(dlens)
    ensures |TokenBits(llens, dlens, t)| <= 48
  {
    hide LenSym, DistSym, LenRest, DistRest;
    ExtraBounds();
  }

  lemma ExtraBounds()
    ensures forall c :: 0 <= c < 29 ==> LengthExtra(c) <= 5
    ensures forall c :: 0 <= c < 30 ==> DistExtra(c) <= 13
  {
  }

  lemma FixedTokenSize(t: Token)
    requires CanSend(FixedLens(), FixedDistLens(), t)
    ensures |TokenBits(FixedLens(), FixedDistLens(), t)| <= 31
  {
    hide LenSym, DistSym, LenRest, DistRest;
    ExtraBounds();
  }

  lemma {:induction false} TokensSize(llens: seq<nat>, dlens: seq<nat>, ts: seq<Token>)
    requires CanSendAll(llens, dlens, ts) && Bounded(llens) && Bounded(dlens)
    ensures |TokensBits(llens, dlens, ts)| <= 48 * |ts|
  {
    hide TokenBits, CanSend;
    if ts != [] {
      TokensSize(llens, dlens, ts[..|ts| - 1]);
      TokenSize(llens, dlens, ts[|ts| - 1]);
    }
  }

  lemma {:induction false} FixedTokensSize(ts: seq<Token>)
    requires CanSendAll(FixedLens(), FixedDistLens(), ts)
    ensures |TokensBits(FixedLens(), FixedDistLens(), ts)| <= 31 * |ts|
  {
    hide TokenBits, CanSend, FixedLens, FixedDistLens;
    if ts != [] {
      FixedTokensSize(ts[..|ts| - 1]);
      FixedTokenSize(ts[|ts| - 1]);
    }
  }

  lemma BodySize(llens: seq<nat>, dlens: seq<nat>, ts: seq<Token>)
    requires CanSendAll(llens, dlens, ts) && Bounded(llens) && Bounded(dlens)
    ensures |BodyBits(llens, dlens, ts)| <= 48 * |ts| + 15
  {
    hide CanSend, CodeOf;
    TokensSize(llens, dlens, ts);
  }

  lemma FixedBodySize(ts: seq<Token>)
    requires CanSendAll(FixedLens(), FixedDistLens(), ts)
    ensures |BodyBits(FixedLens(), FixedDistLens(), ts)| <= 31 * |ts| + 7
  {
    hide CanSend, CodeOf;
    FixedTokensSize(ts);
    assert FixedLens()[256] == 7;
  }
}
