/** How often each symbol occurs in a block, and that its bits are what those frequencies add up to. */
module TokenPrices {
  import opened Bits
  import opened Rfc1951
  import opened TreeLengths
  import opened TreeHeaders
  import opened Tokens

  function LitSym(t: Token): nat {
    match t
    case Literal(b) => b
    case Match(l, _) => LenSym(l) + 257
  }

  /** How many tokens are sent with the literal or length code s. */
  function LitCount(ts: seq<Token>, s: nat): nat {
    if ts == [] then 0
    else LitCount(ts[..|ts| - 1], s) + (if LitSym(ts[|ts| - 1]) == s then 1 else 0)
  }

  /** How many are sent with the distance code s. */
  function DistCount(ts: seq<Token>, s: nat): nat {
    if ts == [] then 0
    else
      var t := ts[|ts| - 1];
      DistCount(ts[..|ts| - 1], s) + (if t.Match? && DistSym(t.dist) == s then 1 else 0)
  }

  lemma LitCountSnoc(ts: seq<Token>, t: Token, s: nat)
    ensures LitCount(ts + [t], s) == LitCount(ts, s) + (if LitSym(t) == s then 1 else 0)
  {
    assert (ts + [t])[..|ts|] == ts;
  }

  lemma DistCountSnoc(ts: seq<Token>, t: Token, s: nat)
    ensures DistCount(ts + [t], s) == DistCount(ts, s) + (if t.Match? && DistSym(t.dist) == s then 1 else 0)
  {
    assert (ts + [t])[..|ts|] == ts;
  }

  function LitCounts(ts: seq<Token>, n: nat): (r: seq<nat>)
    ensures |r| == n && forall s :: 0 <= s < n ==> r[s] == LitCount(ts, s)
  {
    seq(n, s requires 0 <= s < n => LitCount(ts, s))
  }

  function DistCounts(ts: seq<Token>, n: nat): (r: seq<nat>)
    ensures |r| == n && forall s :: 0 <= s < n ==> r[s] == DistCount(ts, s)
  {
    seq(n, s requires 0 <= s < n => DistCount(ts, s))
  }

  /** The extra bits after each literal or length symbol. */
  function LitExtra(s: nat): nat {
    if 257 <= s < 286 then LengthExtra(s - 257) else 0
  }

  predicate LitExtras(xs: seq<nat>) {
    forall s :: 0 <= s < |xs| ==> xs[s] == LitExtra(s)
  }

  predicate DistExtras(xs: seq<nat>) {
    |xs| <= 30 && forall s :: 0 <= s < |xs| ==> xs[s] == DistExtra(s)
  }

  /** The alphabets of n literal and m distance symbols suffice. */
  predicate Fits(ts: seq<Token>, n: nat, m: nat) {
    forall i :: 0 <= i < |ts| ==> FitsOne(ts[i], n, m)
  }

  predicate FitsOne(t: Token, n: nat, m: nat) {
    LitSym(t) < n && (t.Match? ==> DistSym(t.dist) < m)
  }

  lemma LitCountsSnoc(ts: seq<Token>, t: Token, n: nat)
    requires LitSym(t) < n
    ensures LitCounts(ts + [t], n) == LitCounts(ts, n)[LitSym(t) := LitCounts(ts, n)[LitSym(t)] + 1]
  {
    hide LitSym, LitCount;
    forall s | 0 <= s < n
      ensures LitCount(ts + [t], s) == LitCount(ts, s) + (if LitSym(t) == s then 1 else 0)
    {
      LitCountSnoc(ts, t, s);
    }
  }

  lemma DistCountsSnoc(ts: seq<Token>, t: Token, n: nat)
    requires t.Match? ==> DistSym(t.dist) < n
    ensures t.Literal? ==> DistCounts(ts + [t], n) == DistCounts(ts, n)
    ensures t.Match? ==>
              DistCounts(ts + [t], n) == DistCounts(ts, n)[DistSym(t.dist) := DistCounts(ts, n)[DistSym(t.dist)] + 1]
  {
    hide DistSym, DistCount;
    forall s | 0 <= s < n
      ensures DistCount(ts + [t], s) == DistCount(ts, s) + (if t.Match? && DistSym(t.dist) == s then 1 else 0)
    {
      DistCountSnoc(ts, t, s);
    }
  }

  /** What the distance of a token takes. */
  function DistPart(dlens: seq<nat>, dxs: seq<nat>, t: Token): nat
    requires t.Match? ==> DistSym(t.dist) < |dlens| && DistSym(t.dist) < |dxs|
  {
    if t.Match? then dlens[DistSym(t.dist)] + dxs[DistSym(t.dist)] else 0
  }

  lemma TokenParts(llens: seq<nat>, dlens: seq<nat>, t: Token, n: nat, m: nat, lxs: seq<nat>, dxs: seq<nat>)
    requires CanSend(llens, dlens, t) && FitsOne(t, n, m)
    requires n <= |llens| && n <= |lxs| && LitExtras(lxs)
    requires m <= |dlens| && m <= |dxs| && DistExtras(dxs)
    ensures |TokenBits(llens, dlens, t)| == llens[LitSym(t)] + lxs[LitSym(t)] + DistPart(dlens, dxs, t)
  {
    hide LenSym, DistSym, LengthExtra, DistExtra, LengthBase, DistBase, LenRest, DistRest, LsbBits, CodeBits;
    LitSymIs(t);
  }

  lemma LitSymIs(t: Token)
    ensures t.Literal? ==> LitSym(t) == t.b && LitExtra(LitSym(t)) == 0
    ensures t.Match? ==> LitSym(t) == LenSym(t.lc) + 257 && LitExtra(LitSym(t)) == LengthExtra(LenSym(t.lc))
  {
    hide LenSym, LengthExtra;
  }

  lemma LitMore(ts: seq<Token>, t: Token, lens: seq<nat>, xs: seq<nat>, n: nat)
    requires LitSym(t) < n <= |lens| && n <= |xs|
    ensures TotalBits(LitCounts(ts + [t], n), lens, xs, n)
         == TotalBits(LitCounts(ts, n), lens, xs, n) + lens[LitSym(t)] + xs[LitSym(t)]
  {
    hide LitSym, TotalBits, LitCounts;
    LitCountsSnoc(ts, t, n);
    TotalBitsOneMore(LitCounts(ts, n), lens, xs, n, LitSym(t));
  }

  lemma DistMore(ts: seq<Token>, t: Token, lens: seq<nat>, xs: seq<nat>, m: nat)
    requires (t.Match? ==> DistSym(t.dist) < m) && m <= |lens| && m <= |xs|
    ensures TotalBits(DistCounts(ts + [t], m), lens, xs, m) == TotalBits(DistCounts(ts, m), lens, xs, m) + DistPart(lens, xs, t)
  {
    hide DistSym, TotalBits, DistCounts;
    DistCountsSnoc(ts, t, m);
    if t.Match? {
      TotalBitsOneMore(DistCounts(ts, m), lens, xs, m, DistSym(t.dist));
    }
  }

  /** What one more token adds. */
  lemma TokenPrice(llens: seq<nat>, dlens: seq<nat>, ts: seq<Token>, t: Token, n: nat, m: nat, lxs: seq<nat>, dxs: seq<nat>)
    requires CanSend(llens, dlens, t) && FitsOne(t, n, m)
    requires n <= |llens| && n <= |lxs| && LitExtras(lxs)
    requires m <= |dlens| && m <= |dxs| && DistExtras(dxs)
    ensures TotalBits(LitCounts(ts + [t], n), llens, lxs, n) + TotalBits(DistCounts(ts + [t], m), dlens, dxs, m)
         == TotalBits(LitCounts(ts, n), llens, lxs, n) + TotalBits(DistCounts(ts, m), dlens, dxs, m)
            + |TokenBits(llens, dlens, t)|
  {
    hide LitSym, DistSym, TotalBits, LitCounts, DistCounts, DistPart, CanSend, TokenBits, LitExtras, DistExtras;
    TokenParts(llens, dlens, t, n, m, lxs, dxs);
    LitMore(ts, t, llens, lxs, n);
    DistMore(ts, t, dlens, dxs, m);
  }

  /** The bits of the tokens, counted symbol by symbol. */
  lemma {:induction false} TokensPrice(llens: seq<nat>, dlens: seq<nat>, ts: seq<Token>, n: nat, m: nat,
                                       lxs: seq<nat>, dxs: seq<nat>)
    requires CanSendAll(llens, dlens, ts) && Fits(ts, n, m)
    requires n <= |llens| && n <= |lxs| && LitExtras(lxs)
    requires m <= |dlens| && m <= |dxs| && DistExtras(dxs)
    ensures |TokensBits(llens, dlens, ts)|
         == TotalBits(LitCounts(ts, n), llens, lxs, n) + TotalBits(DistCounts(ts, m), dlens, dxs, m)
  {
    hide TotalBits, TokenBits, CanSend, FitsOne;
    if ts == [] {
      NoBitsForNothing(LitCounts(ts, n), llens, lxs, n);
      NoBitsForNothing(DistCounts(ts, m), dlens, dxs, m);
    } else {
      var rest, t := ts[..|ts| - 1], ts[|ts| - 1];
      TokensPrice(llens, dlens, rest, n, m, lxs, dxs);
      TokenPrice(llens, dlens, rest, t, n, m, lxs, dxs);
      assert ts == rest + [t];
    }
  }

  // ----- bounds

  lemma {:induction false} LitCountBound(ts: seq<Token>, s: nat)
    ensures LitCount(ts, s) <= |ts|
  {
    if ts != [] { LitCountBound(ts[..|ts| - 1], s); }
  }

  lemma {:induction false} DistCountBound(ts: seq<Token>, s: nat)
    ensures DistCount(ts, s) <= |ts|
  {
    if ts != [] { DistCountBound(ts[..|ts| - 1], s); }
  }
}
