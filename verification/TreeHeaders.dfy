/** The code lengths of a dynamic block on the wire: their bits, their decoding and their price. */
module TreeHeaders {
  import opened Optionals
  import opened Bits
  import opened Rfc1951
  import opened PrefixCodes
  import opened TreeLengths
  import opened RunLengths

  // ----- bits of items

  function ItemBits(clens: seq<nat>, i: Item): seq<bool>
    requires i.sym < |clens|
  {
    CodeBits(clens, i.sym) + LsbBits(i.extra, RepeatExtra(i.sym))
  }

  /** Each item exists and has a code. */
  predicate Sendable(clens: seq<nat>, items: seq<Item>) {
    && |clens| == 19 && ItemsOk(items)
    && forall k :: 0 <= k < |items| ==> clens[items[k].sym] > 0
  }

  function ItemsBits(clens: seq<nat>, items: seq<Item>): seq<bool>
    requires Sendable(clens, items)
  {
    if items == [] then [] else ItemBits(clens, items[0]) + ItemsBits(clens, items[1..])
  }

  lemma {:induction false} ItemsBitsAppend(clens: seq<nat>, a: seq<Item>, b: seq<Item>)
    requires Sendable(clens, a) && Sendable(clens, b)
    ensures Sendable(clens, a + b)
    ensures ItemsBits(clens, a + b) == ItemsBits(clens, a) + ItemsBits(clens, b)
    decreases a
  {
    if a == [] {
      assert a + b == b;
    } else {
      assert (a + b)[1..] == a[1..] + b;
      ItemsBitsAppend(clens, a[1..], b);
      Assoc(ItemBits(clens, a[0]), ItemsBits(clens, a[1..]), ItemsBits(clens, b));
    }
  }

  lemma {:induction false} UnrollGrows(acc: seq<nat>, items: seq<Item>)
    requires Unroll(acc, items).Some?
    ensures |acc| + |items| <= |Unroll(acc, items).value|
    decreases items
  {
    if items != [] {
      var more := Repeats(acc, items[0].sym, items[0].extra).value;
      UnrollGrows(acc + more, items[1..]);
    }
  }

  lemma ReadLsb(bits: seq<bool>, pos: nat, v: nat, n: nat)
    requires At(bits, pos, LsbBits(v, n)) && v < Pow2(n)
    ensures ReadBits(bits, pos, n) == Some(v)
  {
    ValueOfLsb(v, n);
  }

  lemma DecodeLensStep(clens: seq<nat>, bits: seq<bool>, pos: nat, acc: seq<nat>, total: nat, i: Item, more: seq<nat>, next: nat)
    requires |acc| < total && i.sym < |clens| && clens[i.sym] > 0
    requires DecodeSymbol(clens, bits, pos) == Some(i.sym)
    requires ReadBits(bits, pos + clens[i.sym], RepeatExtra(i.sym)) == Some(i.extra)
    requires Repeats(acc, i.sym, i.extra) == Some(more)
    requires next == pos + |ItemBits(clens, i)|
    ensures DecodeLens(clens, bits, pos, acc, total) == DecodeLens(clens, bits, next, acc + more, total)
  {
  }

  /** The first item is read, and the others follow it. */
  lemma FirstItem(clens: seq<nat>, bits: seq<bool>, pos: nat, acc: seq<nat>, items: seq<Item>, out: seq<nat>, total: nat)
    returns (next: nat, more: seq<nat>)
    requires Sendable(clens, items) && Bounded(clens) && Space(clens) <= Pow2(MAX_BITS) && items != []
    requires At(bits, pos, ItemsBits(clens, items))
    requires Unroll(acc, items) == Some(out) && |out| == total
    ensures next + |ItemsBits(clens, items[1..])| == pos + |ItemsBits(clens, items)|
    ensures At(bits, next, ItemsBits(clens, items[1..]))
    ensures Unroll(acc + more, items[1..]) == Some(out)
    ensures DecodeLens(clens, bits, pos, acc, total) == DecodeLens(clens, bits, next, acc + more, total)
  {
    hide At, Space, Bounded, DecodeLens, CodeBits, LsbBits, DecodeSymbol, Pow2, ItemBits;
    var i, here := items[0], ItemBits(clens, items[0]);
    next := pos + |here|;
    UnrollGrows(acc, items);
    AtSplit(bits, pos, here, ItemsBits(clens, items[1..]));
    ItemDecodes(clens, bits, pos, i);
    more := Repeats(acc, i.sym, i.extra).value;
    DecodeLensStep(clens, bits, pos, acc, total, i, more, next);
  }

  /** The decoder of code lengths undoes what the items say. */
  lemma {:induction false} ItemsDecode(clens: seq<nat>, bits: seq<bool>, pos: nat, acc: seq<nat>, items: seq<Item>,
                                       out: seq<nat>, total: nat, end: nat)
    requires Sendable(clens, items) && Bounded(clens) && Space(clens) <= Pow2(MAX_BITS)
    requires At(bits, pos, ItemsBits(clens, items)) && end == pos + |ItemsBits(clens, items)|
    requires Unroll(acc, items) == Some(out) && |out| == total
    ensures DecodeLens(clens, bits, pos, acc, total) == Some((end, out))
    decreases items
  {
    if items == [] {
    } else {
      var next, more := FirstItem(clens, bits, pos, acc, items, out, total);
      ItemsDecode(clens, bits, next, acc + more, items[1..], out, total, end);
    }
  }

  /** A symbol's code and a number of n bits after it are read back. */
  lemma CodeAndExtra(lens: seq<nat>, bits: seq<bool>, pos: nat, s: nat, x: nat, n: nat)
    requires Bounded(lens) && Space(lens) <= Pow2(MAX_BITS)
    requires s < |lens| && lens[s] > 0 && x < Pow2(n)
    requires At(bits, pos, CodeBits(lens, s) + LsbBits(x, n))
    ensures DecodeSymbol(lens, bits, pos) == Some(s)
    ensures ReadBits(bits, pos + lens[s], n) == Some(x)
  {
    hide *;
    AtSplit(bits, pos, CodeBits(lens, s), LsbBits(x, n));
    SymbolDecodes(lens, bits, pos, s);
    ReadLsb(bits, pos + lens[s], x, n);
  }

  lemma ItemDecodes(clens: seq<nat>, bits: seq<bool>, pos: nat, i: Item)
    requires Bounded(clens) && Space(clens) <= Pow2(MAX_BITS)
    requires ItemOk(i) && |clens| == 19 && clens[i.sym] > 0 && At(bits, pos, ItemBits(clens, i))
    ensures DecodeSymbol(clens, bits, pos) == Some(i.sym)
    ensures ReadBits(bits, pos + clens[i.sym], RepeatExtra(i.sym)) == Some(i.extra)
  {
    hide Pow2, ReadBits, At, DecodeSymbol, Value, RepeatExtra, LsbBits, Share, Space;
    CodeAndExtra(clens, bits, pos, i.sym, i.extra, RepeatExtra(i.sym));
  }

  // ----- how often each symbol is sent, and what that costs

  function SymCount(items: seq<Item>, s: nat): nat {
    if items == [] then 0
    else SymCount(items[..|items| - 1], s) + (if items[|items| - 1].sym == s then 1 else 0)
  }

  lemma {:induction false} SymCountAppend(a: seq<Item>, b: seq<Item>, s: nat)
    ensures SymCount(a + b, s) == SymCount(a, s) + SymCount(b, s)
  {
    if b == [] {
      assert a + b == a;
    } else {
      var n := |b| - 1;
      assert (a + b)[..|a + b| - 1] == a + b[..n];
      SymCountAppend(a, b[..n], s);
    }
  }

  lemma {:induction false} SymCountBound(items: seq<Item>, s: nat)
    ensures SymCount(items, s) <= |items|
  {
    if items != [] { SymCountBound(items[..|items| - 1], s); }
  }

  function SymCounts(items: seq<Item>): (r: seq<nat>)
    ensures |r| == 19 && forall s :: 0 <= s < 19 ==> r[s] == SymCount(items, s)
  {
    seq(19, s requires 0 <= s < 19 => SymCount(items, s))
  }

  function RepeatExtras(): (r: seq<nat>)
    ensures |r| == 19 && forall s :: 0 <= s < 19 ==> r[s] == RepeatExtra(s)
  {
    seq(19, s requires 0 <= s < 19 => RepeatExtra(s))
  }

  lemma {:induction false} TotalBitsOneMore(f: seq<nat>, d: seq<nat>, xs: seq<nat>, n: nat, m: nat)
    requires n <= |f| && n <= |d| && n <= |xs| && m < n
    ensures TotalBits(f[m := f[m] + 1], d, xs, n) == TotalBits(f, d, xs, n) + d[m] + xs[m]
  {
    if m == n - 1 {
      TotalBitsSameFreqs(f, f[m := f[m] + 1], d, xs, n - 1);
      MulDistrib(f[m], 1, d[m] + xs[m]);
    } else {
      TotalBitsOneMore(f, d, xs, n - 1, m);
    }
  }

  lemma {:induction false} TotalBitsSameFreqs(f: seq<nat>, g: seq<nat>, d: seq<nat>, xs: seq<nat>, n: nat)
    requires n <= |f| && n <= |g| && n <= |d| && n <= |xs|
    requires forall i :: 0 <= i < n ==> f[i] == g[i]
    ensures TotalBits(f, d, xs, n) == TotalBits(g, d, xs, n)
  {
    if n > 0 { TotalBitsSameFreqs(f, g, d, xs, n - 1); }
  }

  lemma {:induction false} NoBitsForNothing(f: seq<nat>, d: seq<nat>, xs: seq<nat>, n: nat)
    requires n <= |f| && n <= |d| && n <= |xs|
    requires forall i :: 0 <= i < n ==> f[i] == 0
    ensures TotalBits(f, d, xs, n) == 0
  {
    if n > 0 {
      NoBitsForNothing(f, d, xs, n - 1);
      ZeroTimes(d[n - 1] + xs[n - 1]);
    }
  }

  lemma SymCountsSnoc(a: seq<Item>, i: Item)
    requires i.sym < 19
    ensures SymCounts(a + [i]) == SymCounts(a)[i.sym := SymCounts(a)[i.sym] + 1]
  {
    assert (a + [i])[..|a|] == a;
  }

  lemma OneItemBits(clens: seq<nat>, i: Item)
    requires i.sym < |clens| && Sendable(clens, [i])
    ensures ItemsBits(clens, [i]) == ItemBits(clens, i)
  {
    assert [i][1..] == [];
  }

  /** The bits of the items are what counting each symbol with its length comes to. */
  lemma {:induction false} ItemsPrice(clens: seq<nat>, items: seq<Item>)
    requires Sendable(clens, items)
    ensures |ItemsBits(clens, items)| == TotalBits(SymCounts(items), clens, RepeatExtras(), 19)
  {
    if items == [] {
      NoBitsForNothing(SymCounts(items), clens, RepeatExtras(), 19);
    } else {
      var n := |items| - 1;
      var a, i := items[..n], items[n];
      ItemsPrice(clens, a);
      assert items == a + [i];
      ItemsBitsAppend(clens, a, [i]);
      OneItemBits(clens, i);
      SymCountsSnoc(a, i);
      TotalBitsOneMore(SymCounts(a), clens, RepeatExtras(), 19, i.sym);
    }
  }

  // ----- trailing zero lengths do not matter

  lemma {:induction false} CountPadded(lens: seq<nat>, n: nat, b: nat)
    requires b >= 1
    ensures Count(lens + Copies(0, n), b) == Count(lens, b)
  {
    if n == 0 {
      assert lens + Copies(0, 0) == lens;
    } else {
      var s := lens + Copies(0, n);
      assert s[..|s| - 1] == lens + Copies(0, n - 1);
      CountPadded(lens, n - 1, b);
    }
  }

  lemma {:induction false} SpacePadded(lens: seq<nat>, n: nat)
    ensures Space(lens + Copies(0, n)) == Space(lens)
  {
    if n == 0 {
      assert lens + Copies(0, 0) == lens;
    } else {
      var s := lens + Copies(0, n);
      assert s[..|s| - 1] == lens + Copies(0, n - 1);
      SpacePadded(lens, n - 1);
    }
  }

  lemma {:induction false} FirstCodePadded(lens: seq<nat>, n: nat, b: nat)
    ensures FirstCode(lens + Copies(0, n), b) == FirstCode(lens, b)
  {
    if b > 0 {
      FirstCodePadded(lens, n, b - 1);
      if b > 1 { CountPadded(lens, n, b - 1); }
    }
  }

  lemma CodePadded(lens: seq<nat>, n: nat, i: nat)
    requires i < |lens| && lens[i] > 0
    ensures CodeBits(lens + Copies(0, n), i) == CodeBits(lens, i)
  {
    var s := lens + Copies(0, n);
    FirstCodePadded(lens, n, lens[i]);
    assert s[..i] == lens[..i];
  }

  lemma CompletePadded(lens: seq<nat>, n: nat)
    requires Complete(lens)
    ensures Complete(lens + Copies(0, n))
  {
    SpacePadded(lens, n);
  }
}
