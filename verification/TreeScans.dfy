/** scan_tree and send_tree: the same walk over a tree's lengths, once counting and once sending. */
module TreeScans {
  import opened Bits
  import opened BitWriters
  import opened Rfc1951
  import opened PrefixCodes
  import opened Heaps
  import opened CanonicalCodes
  import opened RunLengths
  import opened TreeHeaders

  // ----- counting

  /** From a to b, each item's symbol has been counted. */
  ghost predicate Tallied(a: seq<ush>, b: seq<ush>, items: seq<Item>) {
    |a| == |b| && forall s :: 0 <= s < |a| ==> b[s] == a[s] + SymCount(items, s)
  }

  lemma TalliedMore(a: seq<ush>, b: seq<ush>, c: seq<ush>, x: seq<Item>, y: seq<Item>)
    requires Tallied(a, b, x) && Tallied(b, c, y)
    ensures Tallied(a, c, x + y)
  {
    forall s | 0 <= s < |a|
      ensures c[s] == a[s] + SymCount(x + y, s)
    {
      SymCountAppend(x, y, s);
    }
  }

  lemma {:induction false} CopiesCounted(v: nat, n: nat, s: nat)
    ensures SymCount(seq(n, _ => Item(v, 0)), s) == if s == v then n else 0
  {
    if n > 0 {
      var t := seq(n, _ => Item(v, 0));
      assert t[..n - 1] == seq(n - 1, _ => Item(v, 0));
      CopiesCounted(v, n - 1, s);
    }
  }

  lemma OneCounted(i: Item, s: nat)
    ensures SymCount([i], s) == if s == i.sym then 1 else 0
  {
    assert [i][..0] == [];
  }

  lemma TwoCounted(i: Item, j: Item, s: nat)
    ensures SymCount([i, j], s) == (if s == i.sym then 1 else 0) + (if s == j.sym then 1 else 0)
  {
    assert [i, j][..1] == [i];
    OneCounted(i, s);
  }

  lemma EmitCounted(cur: nat, prev: int, count: nat, minCount: nat, s: nat)
    ensures SymCount(Emit(cur, prev, count, minCount), s) ==
            if count < minCount then (if s == cur then count else 0)
            else if cur != 0 then (if cur != prev && s == cur then 1 else 0) + (if s == 16 then 1 else 0)
            else if count <= 10 then (if s == 17 then 1 else 0)
            else (if s == 18 then 1 else 0)
  {
    var e := Emit(cur, prev, count, minCount);
    if count < minCount { CopiesCounted(cur, count, s); }
    else if cur != 0 && cur != prev { TwoCounted(e[0], e[1], s); }
    else { OneCounted(e[0], s); }
  }

  /** No 16-bit counter is full. */
  ghost predicate Roomy(f: seq<ush>, n: nat) {
    |f| >= 19 && forall s :: 0 <= s < 19 ==> f[s] + n < 0x10000
  }

  /** Counts the symbols of one run. */
  method CountRun(freq: array<ush>, cur: nat, prev: int, count: nat, minCount: nat)
    requires Roomy(freq[..], count) && count >= 1 && cur < 16
    modifies freq
    ensures Tallied(old(freq[..]), freq[..], Emit(cur, prev, count, minCount))
  {
    ghost var f := freq[..];
    if count < minCount {
      freq[cur] := Add(freq[cur], count);
    } else if cur != 0 {
      if cur != prev {
        freq[cur] := Add(freq[cur], 1);
      }
      freq[16] := Add(freq[16], 1);
    } else if count <= 10 {
      freq[17] := Add(freq[17], 1);
    } else {
      freq[18] := Add(freq[18], 1);
    }
    forall s | 0 <= s < |f|
      ensures freq[s] == f[s] + SymCount(Emit(cur, prev, count, minCount), s)
    {
      EmitCounted(cur, prev, count, minCount, s);
    }
  }

  function Add(a: ush, n: nat): (r: ush)
    requires a + n < 0x10000
    ensures r == a + n
  {
    a + n
  }

  lemma FewItems(lens: seq<nat>, n: nat)
    requires Lengths(lens) && |lens| > 0 && n <= |lens|
    ensures |RunAt(lens, n).items| + RunAt(lens, n).count <= n
  {
    RunInvariant([], lens, n);
    UnrollGrows([], RunAt(lens, n).items);
  }

  /** There is still room to count the run that ends here. */
  lemma StillRoomy(f: seq<ush>, g: seq<ush>, items: seq<Item>, count: nat, n: nat)
    requires Roomy(f, n) && Tallied(f, g, items) && |items| + count <= n
    ensures Roomy(g, count)
  {
    forall s | 0 <= s < 19
      ensures g[s] + count < 0x10000
    {
      SymCountBound(items, s);
    }
  }

  /** The walk's variables agree with the state of the specification. */
  ghost predicate Walk(lens: seq<nat>, n: nat, prev: int, next: nat, count: nat, maxCount: nat, minCount: nat, items: seq<Item>) {
    && n <= |lens| && |lens| > 0
    && RunAt(lens, n) == Run(prev, next, count, maxCount, minCount, items)
  }

  lemma WalkBounds(lens: seq<nat>, n: nat, prev: int, next: nat, count: nat, maxCount: nat, minCount: nat, items: seq<Item>)
    requires Lengths(lens) && Walk(lens, n, prev, next, count, maxCount, minCount, items)
    ensures n < |lens| ==> next == lens[n] < 16
    ensures n < |lens| ==> maxCount == MaxCount(prev, next) && minCount == MinCount(prev, next)
    ensures |items| + count <= n && count < maxCount && ItemsOk(items)
  {
    RunInvariant([], lens, n);
    FewItems(lens, n);
  }

  lemma WalkOn(lens: seq<nat>, n: nat, m: nat, prev: int, cur: nat, count: nat, more: nat, maxCount: nat, minCount: nat,
               items: seq<Item>, nextlen: nat)
    requires Walk(lens, n, prev, cur, count, maxCount, minCount, items)
    requires n < |lens| && m == n + 1 && more == count + 1 && nextlen == (if m < |lens| then lens[m] else GUARD)
    requires more < maxCount && cur == nextlen
    ensures Walk(lens, m, prev, nextlen, more, maxCount, minCount, items)
  {
  }

  lemma WalkRun(lens: seq<nat>, n: nat, m: nat, prev: int, cur: nat, count: nat, more: nat, maxCount: nat, minCount: nat,
                items: seq<Item>, nextlen: nat)
    requires Walk(lens, n, prev, cur, count, maxCount, minCount, items)
    requires n < |lens| && m == n + 1 && more == count + 1 && nextlen == (if m < |lens| then lens[m] else GUARD)
    requires !(more < maxCount && cur == nextlen)
    ensures Walk(lens, m, cur, nextlen, 0, MaxCount(cur, nextlen), MinCount(cur, nextlen),
                 items + Emit(cur, prev, more, minCount))
  {
  }

  lemma WalkEnd(lens: seq<nat>, prev: int, next: nat, count: nat, maxCount: nat, minCount: nat, items: seq<Item>)
    requires Walk(lens, |lens|, prev, next, count, maxCount, minCount, items)
    ensures items == Items(lens)
  {
  }

  lemma GuardedLen(d: seq<ush>, lens: seq<nat>, maxCode: nat, m: nat)
    requires maxCode + 1 < |d| && lens == d[..maxCode + 1] && d[maxCode + 1] == 0xffff && m <= maxCode + 1
    ensures d[m] == if m < |lens| then lens[m] else GUARD
  {
  }

  /** Adds to the frequencies of bl_tree how often each symbol occurs among the items for the lengths. */
  method ScanTree(dl: array<ush>, maxCode: nat, freq: array<ush>, ghost lens: seq<nat>)
    requires dl != freq && maxCode + 1 < dl.Length
    requires lens == dl[..maxCode + 1] && Lengths(lens)
    requires Roomy(freq[..], |lens|)
    modifies dl, freq
    ensures dl[..] == old(dl[..])[maxCode + 1 := 0xffff]
    ensures Tallied(old(freq[..]), freq[..], Items(lens))
  {
    var prevlen: int, nextlen: nat, count: nat := -1, dl[0], 0;
    var maxCount, minCount := 7, 4;
    if nextlen == 0 {
      maxCount, minCount := 138, 3;
    }
    dl[maxCode + 1] := 0xffff;
    ghost var d, f, items := dl[..], freq[..], [];
    assert lens[0] == nextlen && d[..maxCode + 1] == lens;
    var n := 0;
    while n <= maxCode
      invariant 0 <= n <= maxCode + 1 && dl[..] == d
      invariant Walk(lens, n, prevlen, nextlen, count, maxCount, minCount, items)
      invariant Tallied(f, freq[..], items)
    {
      ghost var was, before := n, count;
      WalkBounds(lens, n, prevlen, nextlen, count, maxCount, minCount, items);
      StillRoomy(f, freq[..], items, count + 1, |lens|);
      var curlen := nextlen;
      n := n + 1;
      GuardedLen(d, lens, maxCode, n);
      nextlen := dl[n];
      count := count + 1;
      if count < maxCount && curlen == nextlen {
        WalkOn(lens, was, n, prevlen, curlen, before, count, maxCount, minCount, items, nextlen);
        continue;
      }
      ghost var mid, e := freq[..], Emit(curlen, prevlen, count, minCount);
      CountRun(freq, curlen, prevlen, count, minCount);
      TalliedMore(f, mid, freq[..], items, e);
      WalkRun(lens, was, n, prevlen, curlen, before, count, maxCount, minCount, items, nextlen);
      items := items + e;
      count := 0;
      prevlen := curlen;
      maxCount, minCount := 7, 4;
      if nextlen == 0 {
        maxCount, minCount := 138, 3;
      } else if curlen == nextlen {
        maxCount, minCount := 6, 3;
      }
    }
    WalkEnd(lens, prevlen, nextlen, count, maxCount, minCount, items);
  }

  // ----- sending

  /** fc and dl hold symbol c's canonical code of lens. */
  ghost predicate Entry(fc: seq<ush>, dl: seq<ush>, lens: seq<nat>, c: nat) {
    && c < |lens| && c < |dl| && dl[c] == lens[c] <= 15
    && CodeOk(fc, lens, c)
  }

  ghost predicate Codebook(fc: seq<ush>, dl: seq<ush>, lens: seq<nat>) {
    Bounded(lens) && Book(fc, dl, lens, |lens|)
  }

  /** The first n of them are there. */
  ghost predicate Book(fc: seq<ush>, dl: seq<ush>, lens: seq<nat>, n: nat) {
    forall c :: 0 <= c < n ==> Entry(fc, dl, lens, c)
  }

  /** The macro SEND_CODE: one symbol's code, most significant bit first. */
  method SendCode(w: BitWriter, fc: array<ush>, dl: array<ush>, c: nat, ghost lens: seq<nat>)
    requires w.Valid() && Entry(fc[..], dl[..], lens, c) && lens[c] > 0
    modifies w, w.outbuf
    ensures w.Valid()
    ensures w.Stream() == old(w.Stream()) + CodeBits(lens, c)
  {
    w.SendBits(fc[c], dl[c]);
  }

  /** A symbol without extra bits. */
  lemma PlainBits(clens: seq<nat>, v: nat)
    requires v < 16 && v < |clens|
    ensures ItemBits(clens, Item(v, 0)) == CodeBits(clens, v)
  {
    assert CodeBits(clens, v) + [] == CodeBits(clens, v);
  }

  lemma {:induction false} CopiesBits(clens: seq<nat>, v: nat, n: nat)
    requires |clens| == 19 && v < 16 && clens[v] > 0
    ensures Sendable(clens, seq(n, _ => Item(v, 0)))
    ensures Sendable(clens, seq(n + 1, _ => Item(v, 0)))
    ensures ItemsBits(clens, seq(n + 1, _ => Item(v, 0)))
         == ItemsBits(clens, seq(n, _ => Item(v, 0))) + CodeBits(clens, v)
  {
    var s, one := seq(n, _ => Item(v, 0)), [Item(v, 0)];
    assert Sendable(clens, s) && Sendable(clens, one);
    assert seq(n + 1, _ => Item(v, 0)) == s + one;
    ItemsBitsAppend(clens, s, one);
    OneItemBits(clens, Item(v, 0));
    PlainBits(clens, v);
  }

  /** do SEND_CODE(curlen) while (--count) */
  method SendCopies(w: BitWriter, fc: array<ush>, dl: array<ush>, cur: nat, count0: nat, ghost clens: seq<nat>)
    requires w.Valid() && Codebook(fc[..], dl[..], clens) && |clens| == 19
    requires cur < 16 && clens[cur] > 0 && count0 >= 1
    modifies w, w.outbuf
    ensures w.Valid()
    ensures Sendable(clens, seq(count0, _ => Item(cur, 0)))
    ensures w.Stream() == old(w.Stream()) + ItemsBits(clens, seq(count0, _ => Item(cur, 0)))
  {
    ghost var start, sent := w.Stream(), 0;
    assert Entry(fc[..], dl[..], clens, cur);
    var count := count0;
    CopiesBits(clens, cur, 0);
    assert start + [] == start;
    while count != 0
      invariant 0 <= count <= count0 && sent == count0 - count
      invariant w.Valid() && Entry(fc[..], dl[..], clens, cur)
      invariant Sendable(clens, seq(sent, _ => Item(cur, 0)))
      invariant w.Stream() == start + ItemsBits(clens, seq(sent, _ => Item(cur, 0)))
    {
      CopiesBits(clens, cur, sent);
      Assoc(start, ItemsBits(clens, seq(sent, _ => Item(cur, 0))), CodeBits(clens, cur));
      SendCode(w, fc, dl, cur, clens);
      count, sent := count - 1, sent + 1;
    }
  }

  /** One item: its code and its extra bits. */
  method SendItem(w: BitWriter, fc: array<ush>, dl: array<ush>, sym: nat, extra: nat, width: nat, ghost clens: seq<nat>)
    requires w.Valid() && Codebook(fc[..], dl[..], clens) && |clens| == 19
    requires sym < 19 && clens[sym] > 0 && width == RepeatExtra(sym) && extra < Pow2(width)
    modifies w, w.outbuf
    ensures w.Valid()
    ensures w.Stream() == old(w.Stream()) + ItemBits(clens, Item(sym, extra))
  {
    ghost var start := w.Stream();
    assert Entry(fc[..], dl[..], clens, sym);
    SendCode(w, fc, dl, sym, clens);
    w.SendBits(extra, width);
    Assoc(start, CodeBits(clens, sym), LsbBits(extra, width));
  }

  lemma TwoItemsBits(clens: seq<nat>, i: Item, j: Item)
    requires i.sym < |clens| && j.sym < |clens| && Sendable(clens, [i, j])
    ensures ItemsBits(clens, [i, j]) == ItemBits(clens, i) + ItemBits(clens, j)
  {
    assert [i, j] == [i] + [j];
    assert [i, j][0] == i && [i, j][1] == j;
    assert Sendable(clens, [i]) && Sendable(clens, [j]);
    ItemsBitsAppend(clens, [i], [j]);
    OneItemBits(clens, i);
    OneItemBits(clens, j);
  }

  /** Sends one run. */
  method SendRun(w: BitWriter, fc: array<ush>, dl: array<ush>, cur: nat, prev: int, count0: nat, minCount: nat,
                 ghost clens: seq<nat>)
    requires w.Valid() && Codebook(fc[..], dl[..], clens)
    requires cur < 16 && 1 <= count0 <= MaxCount(prev, cur) && minCount == MinCount(prev, cur)
    requires Sendable(clens, Emit(cur, prev, count0, minCount))
    modifies w, w.outbuf
    ensures w.Valid()
    ensures w.Stream() == old(w.Stream()) + ItemsBits(clens, Emit(cur, prev, count0, minCount))
  {
    ghost var start, e := w.Stream(), Emit(cur, prev, count0, minCount);
    var count := count0;
    Pow2At7();
    if count < minCount {
      assert e[0].sym == cur;
      SendCopies(w, fc, dl, cur, count, clens);
    } else if cur != 0 {
      if cur != prev {
        assert e[0] == Item(cur, 0) && e[1] == Item(16, count - 4);
        assert Entry(fc[..], dl[..], clens, cur);
        SendCode(w, fc, dl, cur, clens);
        PlainBits(clens, cur);
        count := count - 1;
        ghost var mid := w.Stream();
        SendItem(w, fc, dl, 16, count - 3, 2, clens);
        TwoItemsBits(clens, e[0], e[1]);
        Assoc(start, ItemBits(clens, e[0]), ItemBits(clens, e[1]));
      } else {
        assert e[0] == Item(16, count - 3);
        SendItem(w, fc, dl, 16, count - 3, 2, clens);
        OneItemBits(clens, e[0]);
      }
    } else if count <= 10 {
      assert e[0] == Item(17, count - 3);
      SendItem(w, fc, dl, 17, count - 3, 3, clens);
      OneItemBits(clens, e[0]);
    } else {
      assert e[0] == Item(18, count - 11);
      SendItem(w, fc, dl, 18, count - 11, 7, clens);
      OneItemBits(clens, e[0]);
    }
  }

  lemma {:induction false} ItemsGrow(lens: seq<nat>, n: nat)
    requires |lens| > 0 && n <= |lens|
    ensures RunAt(lens, n).items <= Items(lens)
    decreases |lens| - n
  {
    if n < |lens| {
      ItemsGrow(lens, n + 1);
      assert RunAt(lens, n).items <= RunAt(lens, n + 1).items;
    }
  }

  lemma SendablePart(clens: seq<nat>, part: seq<Item>, all: seq<Item>)
    requires Sendable(clens, all) && part <= all
    ensures Sendable(clens, part)
  {
    forall k | 0 <= k < |part|
      ensures ItemOk(part[k]) && clens[part[k].sym] > 0
    {
      assert part[k] == all[k];
    }
  }

  lemma SendableTail(clens: seq<nat>, a: seq<Item>, b: seq<Item>)
    requires Sendable(clens, a + b)
    ensures Sendable(clens, a) && Sendable(clens, b)
  {
    SendablePart(clens, a, a + b);
    forall k | 0 <= k < |b|
      ensures ItemOk(b[k]) && clens[b[k].sym] > 0
    {
      assert b[k] == (a + b)[|a| + k];
    }
  }

  /** What the walk has come to can be sent, and so can the run that ends here. */
  lemma WalkSendable(clens: seq<nat>, lens: seq<nat>, n: nat, prev: int, next: nat, count: nat, maxCount: nat, minCount: nat,
                     items: seq<Item>, e: seq<Item>)
    requires Walk(lens, n, prev, next, count, maxCount, minCount, items + e) && Sendable(clens, Items(lens))
    ensures Sendable(clens, items) && Sendable(clens, e)
    ensures ItemsBits(clens, items + e) == ItemsBits(clens, items) + ItemsBits(clens, e)
  {
    ItemsGrow(lens, n);
    SendablePart(clens, items + e, Items(lens));
    SendableTail(clens, items, e);
    ItemsBitsAppend(clens, items, e);
  }

  /** The walk's items have been sent. */
  ghost predicate SentItems(stream: seq<bool>, start: seq<bool>, clens: seq<nat>, items: seq<Item>) {
    Sendable(clens, items) && stream == start + ItemsBits(clens, items)
  }

  lemma SentMore(s: seq<bool>, t: seq<bool>, start: seq<bool>, clens: seq<nat>, items: seq<Item>, e: seq<Item>)
    requires SentItems(s, start, clens, items) && Sendable(clens, e) && t == s + ItemsBits(clens, e)
    ensures SentItems(t, start, clens, items + e)
  {
    ItemsBitsAppend(clens, items, e);
    Assoc(start, ItemsBits(clens, items), ItemsBits(clens, e));
  }

  /** Adds to the stream exactly the bits of the items for the lengths. */
  method SendTree(w: BitWriter, dl: array<ush>, maxCode: nat, fc: array<ush>, bdl: array<ush>,
                  ghost lens: seq<nat>, ghost clens: seq<nat>)
    requires w.Valid() && Codebook(fc[..], bdl[..], clens)
    requires maxCode + 1 < dl.Length && lens == dl[..maxCode + 1] && dl[maxCode + 1] == 0xffff
    requires Lengths(lens) && Sendable(clens, Items(lens))
    modifies w, w.outbuf
    ensures w.Valid()
    ensures w.Stream() == old(w.Stream()) + ItemsBits(clens, Items(lens))
  {
    var prevlen: int, nextlen: nat, count: nat := -1, dl[0], 0;
    var maxCount, minCount := 7, 4;
    if nextlen == 0 {
      maxCount, minCount := 138, 3;
    }
    ghost var d, start, items := dl[..], w.Stream(), [];
    assert start + [] == start;
    assert lens[0] == nextlen;
    var n := 0;
    while n <= maxCode
      invariant 0 <= n <= maxCode + 1
      invariant w.Valid()
      invariant Walk(lens, n, prevlen, nextlen, count, maxCount, minCount, items)
      invariant SentItems(w.Stream(), start, clens, items)
    {
      ghost var was, before := n, count;
      WalkBounds(lens, n, prevlen, nextlen, count, maxCount, minCount, items);
      var curlen := nextlen;
      n := n + 1;
      GuardedLen(d, lens, maxCode, n);
      nextlen := dl[n];
      count := count + 1;
      if count < maxCount && curlen == nextlen {
        WalkOn(lens, was, n, prevlen, curlen, before, count, maxCount, minCount, items, nextlen);
        continue;
      }
      ghost var mid, e := w.Stream(), Emit(curlen, prevlen, count, minCount);
      WalkRun(lens, was, n, prevlen, curlen, before, count, maxCount, minCount, items, nextlen);
      WalkSendable(clens, lens, n, curlen, nextlen, 0, MaxCount(curlen, nextlen), MinCount(curlen, nextlen), items, e);
      SendRun(w, fc, bdl, curlen, prevlen, count, minCount, clens);
      SentMore(mid, w.Stream(), start, clens, items, e);
      items := items + e;
      count := 0;
      prevlen := curlen;
      if nextlen == 0 {
        maxCount, minCount := 138, 3;
      } else if curlen == nextlen {
        maxCount, minCount := 6, 3;
      } else {
        maxCount, minCount := 7, 4;
      }
    }
    WalkEnd(lens, prevlen, nextlen, count, maxCount, minCount, items);
  }
}
