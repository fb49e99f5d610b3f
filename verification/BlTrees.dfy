/** build_bl_tree and send_all_trees: the tree for the code lengths, and the header that uses it. */
module BlTrees {
  import opened Bits
  import opened Sums
  import opened BitWriters
  import opened Rfc1951
  import opened Heaps
  import opened Trees
  import opened InitialHeap
  import opened BitLengths
  import opened FirstPasses
  import opened TreeLengths
  import opened AfterPass
  import opened Reassign
  import opened CanonicalCodes
  import opened TreeBuilder
  import opened RunLengths
  import opened TreeHeaders
  import opened TreeScans
  import opened DynamicHeaders

  // ----- a finished tree can be used to send symbols

  /** All codes of the tree have lengths between 1 and maxLength, or none. */
  lemma TreeBook(f: seq<ush>, codes: seq<ush>, d: seq<ush>, elems: nat, maxCode: int, maxLength: nat)
    requires TreeOk(f, codes, d, elems, maxCode, maxLength)
    ensures Complete(d[..maxCode + 1])
    ensures Codebook(codes, d, d[..maxCode + 1])
  {
    var lens := d[..maxCode + 1];
    assert CodeOk(codes, lens, maxCode);
    forall i | 0 <= i < |lens|
      ensures lens[i] <= 15
    {
      assert LengthOk(f, d, maxLength, i);
    }
  }

  /** The tree's lengths over its whole alphabet. */
  lemma WholeLens(f: seq<ush>, codes: seq<ush>, d: seq<ush>, elems: nat, maxCode: int, maxLength: nat, lens: seq<nat>)
    requires TreeOk(f, codes, d, elems, maxCode, maxLength) && lens == d[..elems]
    requires forall i :: maxCode < i < elems ==> f[i] == 0
    ensures lens == d[..maxCode + 1] + Copies(0, elems - maxCode - 1)
  {
    forall i | maxCode < i < elems
      ensures d[i] == 0
    {
      assert LengthOk(f, d, maxLength, i);
    }
  }

  lemma WholeBook(f: seq<ush>, codes: seq<ush>, d: seq<ush>, elems: nat, maxCode: int, maxLength: nat, lens: seq<nat>)
    requires TreeOk(f, codes, d, elems, maxCode, maxLength) && lens == d[..elems]
    requires forall i :: maxCode < i < elems ==> f[i] == 0
    requires elems <= |codes|
    ensures Complete(lens) && Codebook(codes, d, lens)
    ensures forall i :: 0 <= i < elems ==> lens[i] <= maxLength
  {
    hide Pow2, Complete, CodeBits;
    WholeLens(f, codes, d, elems, maxCode, maxLength, lens);
    var n := elems - maxCode - 1;
    CompletePadded(d[..maxCode + 1], n);
    forall i | 0 <= i < elems
      ensures CodeOk(codes, lens, i)
      ensures lens[i] <= maxLength
    {
      assert LengthOk(f, d, maxLength, i);
      if lens[i] > 0 {
        assert i <= maxCode;
        assert CodeOk(codes, d[..maxCode + 1], i);
        CodePadded(d[..maxCode + 1], n, i);
      }
    }
  }

  // ----- some length other than zero is announced

  predicate ZeroItem(i: Item) {
    i.sym == 0 || i.sym >= 16
  }

  predicate AllZero(s: seq<nat>) {
    forall i :: 0 <= i < |s| ==> s[i] == 0
  }

  /** Without a symbol 1..15, all lengths are zero. */
  lemma {:induction false} ZerosOnly(acc: seq<nat>, items: seq<Item>)
    requires AllZero(acc) && (forall k :: 0 <= k < |items| ==> ZeroItem(items[k]))
    requires Unroll(acc, items).Some?
    ensures AllZero(Unroll(acc, items).value)
    decreases items
  {
    if items != [] {
      assert ZeroItem(items[0]);
      var more := Repeats(acc, items[0].sym, items[0].extra).value;
      ZerosOnly(acc + more, items[1..]);
    }
  }

  lemma SomeLength(lens: seq<nat>, i: nat) returns (k: nat)
    requires |lens| > 0 && Lengths(lens) && i < |lens| && lens[i] != 0
    ensures k < |Items(lens)| && !ZeroItem(Items(lens)[k])
  {
    var items := Items(lens);
    ItemsMean([], lens);
    assert [] + lens == lens;
    if forall j :: 0 <= j < |items| ==> ZeroItem(items[j]) {
      ZerosOnly([], items);
    }
    k :| 0 <= k < |items| && !ZeroItem(items[k]);
  }

  /** Lengths proper come late in the order. */
  lemma LateRank(s: nat)
    requires 1 <= s <= 15
    ensures 4 <= CodeLengthRank(s) < 19
  {
  }

  /** The greatest place in the order whose length is not zero. */
  method LastBlIndex(dl: array<ush>, ghost clens: seq<nat>) returns (m: nat)
    requires dl.Length >= 19 && clens == dl[..19]
    requires exists s :: 1 <= s <= 15 && clens[s] != 0
    ensures 3 <= m <= 18
    ensures NoneFrom(clens, m + 1) && Ranked(clens, m) != 0
  {
    ghost var s :| 1 <= s <= 15 && clens[s] != 0;
    LateRank(s);
    OrderOfRank(s);
    m := 18;
    while m >= 3
      invariant 3 <= m <= 18 && CodeLengthRank(s) <= m
      invariant NoneFrom(clens, m + 1)
      decreases m
    {
      assert dl[CodeLengthOrder(m)] == Ranked(clens, m);
      if dl[CodeLengthOrder(m)] != 0 { return; }
      m := m - 1;
    }
  }

  // ----- what the code length tree costs

  lemma {:induction false} SymCountNonzero(items: seq<Item>, k: nat)
    requires k < |items|
    ensures SymCount(items, items[k].sym) > 0
  {
    var n := |items| - 1;
    if k < n { SymCountNonzero(items[..n], k); }
  }

  /** Every item of both trees has a code. */
  lemma BothSendable(a: seq<Item>, b: seq<Item>, f0: seq<ush>, clens: seq<nat>)
    requires ItemsOk(a) && ItemsOk(b) && |clens| == 19 <= |f0|
    requires forall s :: 0 <= s < 19 ==> f0[s] == SymCount(a + b, s)
    requires forall s :: 0 <= s < 19 && f0[s] != 0 ==> clens[s] != 0
    ensures Sendable(clens, a) && Sendable(clens, b)
  {
    forall k | 0 <= k < |a|
      ensures clens[a[k].sym] > 0
    {
      SymCountNonzero(a + b, k);
      assert (a + b)[k] == a[k];
    }
    forall k | 0 <= k < |b|
      ensures clens[b[k].sym] > 0
    {
      SymCountNonzero(a + b, |a| + k);
      assert (a + b)[|a| + k] == b[k];
    }
  }

  lemma {:induction false} TotalBitsTail(f: seq<nat>, d: seq<nat>, xs: seq<nat>, n: nat, m: nat)
    requires n <= m <= |f| && m <= |d| && m <= |xs|
    requires forall i :: n <= i < m ==> f[i] == 0
    ensures TotalBits(f, d, xs, n) == TotalBits(f, d, xs, m)
    decreases m
  {
    if n < m {
      TotalBitsTail(f, d, xs, n, m - 1);
      ZeroTimes(d[m - 1] + xs[m - 1]);
    }
  }

  /** What the tree was priced at is what both trees' items take. */
  lemma TreesPrice(a: seq<Item>, b: seq<Item>, f0: seq<ush>, d: seq<ush>, xs: seq<nat>, clens: seq<nat>, n: nat)
    requires |clens| == 19 <= |f0| && 19 <= |d| && clens == d[..19] && n <= 19
    requires xs == RepeatExtras()
    requires Sendable(clens, a) && Sendable(clens, b)
    requires forall s :: 0 <= s < 19 ==> f0[s] == SymCount(a + b, s)
    requires forall i :: n <= i < 19 ==> f0[i] == 0
    ensures TotalBits(f0, d, xs, n) == |ItemsBits(clens, a) + ItemsBits(clens, b)|
  {
    TotalBitsTail(f0, d, xs, n, 19);
    ItemsBitsAppend(clens, a, b);
    ItemsPrice(clens, a + b);
    TotalBitsSameFreqs(f0, SymCounts(a + b), d, xs, 19);
    TotalBitsSame(SymCounts(a + b), d, clens, xs, 19);
  }

  lemma {:induction false} SumBound(s: seq<int>, top: int)
    requires top >= 0 && forall i :: 0 <= i < |s| ==> s[i] <= top
    ensures Sum(s) <= top * |s|
  {
    if s != [] { SumBound(s[..|s| - 1], top); }
  }

  // ----- building it

  /** Lengths that end in a guard. */
  ghost predicate Guarded(dl: seq<ush>, lens: seq<nat>) {
    && 0 < |lens| < |dl| && lens == dl[..|lens|] && dl[|lens|] == 0xffff && Lengths(lens)
  }

  /** f counts the symbols of both trees. */
  ghost predicate CountsBoth(f: seq<ush>, llens: seq<nat>, dlens: seq<nat>) {
    && |f| >= 19 && |llens| > 0 && |dlens| > 0
    && forall s :: 0 <= s < 19 ==> f[s] == SymCount(Items(llens) + Items(dlens), s)
  }

  lemma RoomForDist(f: seq<ush>, g: seq<ush>, llens: seq<nat>, dlens: seq<nat>)
    requires |f| >= 19 && (forall s :: 0 <= s < 19 ==> f[s] == 0)
    requires 0 < |llens| <= 286 && 0 < |dlens| <= 30 && Lengths(llens)
    requires Tallied(f, g, Items(llens))
    ensures Roomy(g, |dlens|)
  {
    FewItems(llens, |llens|);
    StillRoomy(f, g, Items(llens), |dlens|, 316);
  }

  lemma BothCounted(f: seq<ush>, g: seq<ush>, h: seq<ush>, llens: seq<nat>, dlens: seq<nat>)
    requires |f| >= 19 && (forall s :: 0 <= s < 19 ==> f[s] == 0)
    requires |llens| > 0 && |dlens| > 0
    requires Tallied(f, g, Items(llens)) && Tallied(g, h, Items(dlens))
    ensures CountsBoth(h, llens, dlens)
  {
    TalliedMore(f, g, h, Items(llens), Items(dlens));
  }

  /** Counts the items of both trees; their symbols occur as often as they are sent. */
  method ScanBoth(ldl: array<ush>, lmax: nat, ddl: array<ush>, dmax: nat, freq: array<ush>,
                  ghost llens: seq<nat>, ghost dlens: seq<nat>)
    requires ldl != freq && ddl != freq && ldl != ddl && freq.Length >= 19
    requires forall s :: 0 <= s < 19 ==> freq[s] == 0
    requires lmax + 1 < ldl.Length && llens == ldl[..lmax + 1] && Lengths(llens) && lmax < 286
    requires dmax + 1 < ddl.Length && dlens == ddl[..dmax + 1] && Lengths(dlens) && dmax < 30
    modifies ldl, ddl, freq
    ensures Guarded(ldl[..], llens) && Guarded(ddl[..], dlens)
    ensures CountsBoth(freq[..], llens, dlens)
  {
    ghost var f, d := freq[..], ddl[..];
    ScanTree(ldl, lmax, freq, llens);
    ghost var g := freq[..];
    RoomForDist(f, g, llens, dlens);
    assert ddl[..] == d;
    ScanTree(ddl, dmax, freq, dlens);
    BothCounted(f, g, freq[..], llens, dlens);
  }

  lemma CountsSum(f: seq<ush>, llens: seq<nat>, dlens: seq<nat>)
    requires CountsBoth(f, llens, dlens) && Lengths(llens) && Lengths(dlens) && |llens| <= 286 && |dlens| <= 30
    ensures Sum(f[..19]) + 2 < 0x10000
  {
    FewItems(llens, |llens|);
    FewItems(dlens, |dlens|);
    forall s | 0 <= s < 19
      ensures f[..19][s] <= 316
    {
      SymCountBound(Items(llens) + Items(dlens), s);
    }
    SumBound(f[..19], 316);
  }

  /** The code length tree fits the items of both trees, at the price opt has gone up by. */
  ghost predicate BlBuilt(codes: seq<ush>, d: seq<ush>, llens: seq<nat>, dlens: seq<nat>, clens: seq<nat>, opt: nat, opt0: nat) {
    && |clens| == 19 <= |d| && clens == d[..19] && |llens| > 0 && |dlens| > 0
    && Complete(clens) && Short(clens) && Codebook(codes, d, clens)
    && Sendable(clens, Items(llens)) && Sendable(clens, Items(dlens))
    && opt < 0x1_0000_0000 && opt == U32(opt0 + |TreeBits(llens, dlens, clens)|)
  }

  lemma BlSendable(f0: seq<ush>, f: seq<ush>, codes: seq<ush>, d: seq<ush>, maxCode: int, clens: seq<nat>, made: seq<int>,
                   llens: seq<nat>, dlens: seq<nat>)
    requires TreeOk(f, codes, d, 19, maxCode, 7) && clens == d[..19]
    requires MadeUp(f0, f, made, 19)
    requires CountsBoth(f0, llens, dlens) && Lengths(llens) && Lengths(dlens)
    ensures Sendable(clens, Items(llens)) && Sendable(clens, Items(dlens))
  {
    ItemsMean([], llens);
    ItemsMean([], dlens);
    forall s | 0 <= s < 19 && f0[s] != 0
      ensures clens[s] != 0
    {
      assert LengthOk(f, d, 7, s);
    }
    BothSendable(Items(llens), Items(dlens), f0, clens);
  }

  lemma BlUnused(f0: seq<ush>, f: seq<ush>, made: seq<int>, maxCode: int)
    requires MadeUp(f0, f, made, 19) && 0 <= maxCode == MaxUsed(f, 19)
    ensures forall i :: maxCode < i < 19 ==> f[i] == 0 && f0[i] == 0
  {
    MaxUsedIs(f, 19);
  }

  lemma BlPriced(f0: seq<ush>, d: seq<ush>, xs: seq<nat>, clens: seq<nat>, llens: seq<nat>, dlens: seq<nat>, n: nat,
                 opt: nat, opt0: nat)
    requires |d| >= 19 && clens == d[..19] && n <= 19 && xs == RepeatExtras()
    requires CountsBoth(f0, llens, dlens)
    requires Sendable(clens, Items(llens)) && Sendable(clens, Items(dlens))
    requires forall i :: n <= i < 19 ==> f0[i] == 0
    requires Priced(opt, opt0, f0, d, xs, n)
    ensures opt == U32(opt0 + |TreeBits(llens, dlens, clens)|)
  {
    hide ItemsBits, TotalBits, Items, U32, Sendable;
    TreesPrice(Items(llens), Items(dlens), f0, d, xs, clens, n);
  }

  lemma BlIsBuilt(f0: seq<ush>, f: seq<ush>, made: seq<int>, codes: seq<ush>, d: seq<ush>, clens: seq<nat>,
                  llens: seq<nat>, dlens: seq<nat>, opt: nat, opt0: nat, maxCode: int, xs: seq<nat>)
    requires TreeOk(f, codes, d, 19, maxCode, 7) && clens == d[..19] && |codes| >= 19
    requires MadeUp(f0, f, made, 19) && maxCode == MaxUsed(f, 19)
    requires Priced(opt, opt0, f0, d, xs, maxCode + 1) && xs == RepeatExtras()
    requires CountsBoth(f0, llens, dlens) && Lengths(llens) && Lengths(dlens)
    ensures BlBuilt(codes, d, llens, dlens, clens, opt, opt0)
  {
    BlUnused(f0, f, made, maxCode);
    BlSendable(f0, f, codes, d, maxCode, clens, made, llens, dlens);
    WholeBook(f, codes, d, 19, maxCode, 7, clens);
    BlPriced(f0, d, xs, clens, llens, dlens, maxCode + 1, opt, opt0);
  }

  lemma BlIsReady(f0: seq<ush>, f: seq<ush>, codes: seq<ush>, d: seq<ush>, clens: seq<nat>, llens: seq<nat>, dlens: seq<nat>,
                  opt: nat, opt0: nat, sta: nat, sta0: nat, k: Tariff)
    requires Built(f0, f, codes, d, 19, 7, opt, opt0, sta, sta0, k) && clens == d[..19] && |codes| >= 19
    requires k.xs == RepeatExtras()
    requires CountsBoth(f0, llens, dlens) && Lengths(llens) && Lengths(dlens)
    ensures BlBuilt(codes, d, llens, dlens, clens, opt, opt0)
  {
    var made :| MadeUp(f0, f, made, 19);
    BlIsBuilt(f0, f, made, codes, d, clens, llens, dlens, opt, opt0, k.maxCode, k.xs);
  }

  /** Some symbol of a proper length is in use, so at least four lengths are sent. */
  lemma ProperLength(clens: seq<nat>, llens: seq<nat>, i: nat)
    requires |llens| > 0 && Lengths(llens) && i < |llens| && llens[i] != 0
    requires Sendable(clens, Items(llens))
    ensures exists s :: 1 <= s <= 15 && clens[s] != 0
  {
    var k := SomeLength(llens, i);
    var s := Items(llens)[k].sym;
    assert 1 <= s <= 15 && clens[s] != 0;
  }

  /** The descriptor of the bit length tree. */
  predicate BlDesc(desc: TreeDesc) {
    && desc.Valid() && desc.stat == null && desc.elems == 19 && desc.maxLength == 7
    && desc.extraBase == 0 && desc.extraBits == RepeatExtras()
  }

  lemma BlDescSized(desc: TreeDesc)
    requires BlDesc(desc)
    ensures desc.Sized() && Extras(desc) == RepeatExtras()
  {
    Pow2At7();
    assert forall i :: 0 <= i < 19 ==> desc.Extra(i) == RepeatExtra(i);
  }

  /** clens are the lengths that build_tree gives to the symbols by how often both trees' items send them. */
  ghost predicate ClensFor(llens: seq<nat>, dlens: seq<nat>, clens: seq<nat>) {
    |llens| > 0 && |dlens| > 0 && exists f0 :: CountsBoth(f0, llens, dlens) && HuffmanCoded(f0, clens, 19, 7)
  }

  lemma ClensNow(f0: seq<ush>, f: seq<ush>, codes: seq<ush>, d: seq<ush>, clens: seq<nat>, llens: seq<nat>, dlens: seq<nat>,
                 opt: nat, opt0: nat, sta: nat, sta0: nat, k: Tariff)
    requires Built(f0, f, codes, d, 19, 7, opt, opt0, sta, sta0, k) && |d| >= 19 && clens == d[..19]
    requires |llens| > 0 && |dlens| > 0 && CountsBoth(f0, llens, dlens)
    ensures ClensFor(llens, dlens, clens)
  {
    hide HuffmanCoded, CountsBoth, BothPriced, Complete;
    BuiltIsHuffman(f0, f, codes, d, 19, 7, opt, opt0, sta, sta0, k, clens);
  }

  /** Builds the code length tree itself. */
  method BuildBl(g: TreeSpace, desc: TreeDesc, ghost llens: seq<nat>, ghost dlens: seq<nat>) returns (ghost clens: seq<nat>)
    requires g.Valid() && BlDesc(desc) && g.Apart(desc) && g.Words()
    requires CountsBoth(desc.dyn.fc[..], llens, dlens) && Lengths(llens) && Lengths(dlens)
    requires |llens| <= 286 && |dlens| <= 30
    modifies g, g.heap, g.depth, g.blCount, desc.dyn.fc, desc.dyn.dl, desc`maxCode
    ensures g.Words() && g.staticLen == old(g.staticLen)
    ensures BlBuilt(desc.dyn.fc[..], desc.dyn.dl[..], llens, dlens, clens, g.optLen, old(g.optLen))
    ensures ClensFor(llens, dlens, clens)
  {
    ghost var f0, opt0, sta0 := desc.dyn.fc[..], g.optLen, g.staticLen;
    BlDescSized(desc);
    CountsSum(f0, llens, dlens);
    ghost var f, k := BuildTree(g, desc);
    clens := desc.dyn.dl[..19];
    assert desc.dyn.dl[..][..19] == clens;
    BlIsReady(f0, f, desc.dyn.fc[..], desc.dyn.dl[..], clens, llens, dlens, g.optLen, opt0, g.staticLen, sta0, k);
    ClensNow(f0, f, desc.dyn.fc[..], desc.dyn.dl[..], clens, llens, dlens, g.optLen, opt0, g.staticLen, sta0, k);
  }

  /** All that a dynamic block's header needs, and its price. */
  ghost predicate HeaderReady(llens: seq<nat>, dlens: seq<nat>, clens: seq<nat>, n: nat, opt: nat, opt0: nat) {
    && Announceable(llens, dlens, clens, n)
    && opt == U32(opt0 + |HeaderBits(llens, dlens, clens, n)|)
  }

  lemma BlAnnounceable(codes: seq<ush>, d: seq<ush>, llens: seq<nat>, dlens: seq<nat>, clens: seq<nat>, n: nat,
                       opt1: nat, opt0: nat)
    requires BlBuilt(codes, d, llens, dlens, clens, opt1, opt0)
    requires Complete(llens) && Complete(dlens) && 257 <= |llens| <= 286 && 1 <= |dlens| <= 30
    requires 4 <= n <= 19 && NoneFrom(clens, n)
    ensures Announceable(llens, dlens, clens, n)
  {
  }

  lemma HeaderIsReady(codes: seq<ush>, d: seq<ush>, llens: seq<nat>, dlens: seq<nat>, clens: seq<nat>, m: nat, n: nat,
                      opt: nat, opt1: nat, opt0: nat)
    requires BlBuilt(codes, d, llens, dlens, clens, opt1, opt0)
    requires Announceable(llens, dlens, clens, n) && n == m + 1
    requires opt == U32(opt1 + 3 * (m + 1) + 5 + 5 + 4)
    ensures HeaderReady(llens, dlens, clens, n, opt, opt0)
  {
    hide Complete, HeaderBits, CountBits, ItemsBits, Sendable, TreeBits, Items, Shaped;
    HeaderSize(llens, dlens, clens, n);
    AddHeader(opt, opt1, opt0, |TreeBits(llens, dlens, clens)|, m, |HeaderBits(llens, dlens, clens, n)|);
  }

  lemma AddHeader(opt: nat, opt1: nat, opt0: nat, trees: nat, m: nat, header: nat)
    requires opt1 == U32(opt0 + trees) && opt == U32(opt1 + 3 * (m + 1) + 5 + 5 + 4)
    requires header == 14 + 3 * (m + 1) + trees
    ensures opt == U32(opt0 + header)
  {
    U32Twice(opt0 + trees, 3 * (m + 1) + 14);
  }

  /** A tree for the items of both trees, and the place behind which all of its lengths are zero; opt_len grows by
      the header. */
  method BuildBlTree(g: TreeSpace, ldl: array<ush>, lmax: nat, ddl: array<ush>, dmax: nat, desc: TreeDesc,
                     ghost llens: seq<nat>, ghost dlens: seq<nat>)
    returns (maxBlindex: nat, ghost clens: seq<nat>)
    requires g.Valid() && BlDesc(desc) && g.Apart(desc) && g.Words()
    requires ldl != ddl && ldl != desc.dyn.fc && ldl != desc.dyn.dl && ddl != desc.dyn.fc && ddl != desc.dyn.dl
    requires ldl != g.heap && ddl != g.heap
    requires forall s :: 0 <= s < 19 ==> desc.dyn.fc[s] == 0
    requires 256 <= lmax < 286 && lmax + 1 < ldl.Length && llens == ldl[..lmax + 1] && llens[256] != 0
    requires dmax < 30 && dmax + 1 < ddl.Length && dlens == ddl[..dmax + 1]
    requires Complete(llens) && Complete(dlens)
    modifies g, g.heap, g.depth, g.blCount, desc.dyn.fc, desc.dyn.dl, desc`maxCode, ldl, ddl
    ensures g.Words() && g.staticLen == old(g.staticLen)
    ensures maxBlindex <= 18
    ensures HeaderTables(ldl[..], ddl[..], desc.dyn.fc[..], desc.dyn.dl[..], llens, dlens, clens)
    ensures HeaderReady(llens, dlens, clens, maxBlindex + 1, g.optLen, old(g.optLen))
    ensures |clens| == 19 && Ranked(clens, maxBlindex) != 0 && ClensFor(llens, dlens, clens)
  {
    hide HeaderReady, Announceable, Complete, U32, Codebook, BlBuilt, Short, ClensFor, Pow2, CodeLengthOrder, Ranked,
      TreeSpace.Valid, Guarded, HuffmanCoded;
    ghost var opt0 := g.optLen;
    CompleteLens(llens);
    CompleteLens(dlens);
    ScanBoth(ldl, lmax, ddl, dmax, desc.dyn.fc, llens, dlens);
    ghost var l, d := ldl[..], ddl[..];
    clens := BuildBl(g, desc, llens, dlens);
    assert ldl[..] == l && ddl[..] == d;
    ProperLength(clens, llens, 256);
    assert clens == desc.dyn.dl[..19];
    maxBlindex := LastBlIndex(desc.dyn.dl, clens);
    ghost var codes, bd := desc.dyn.fc[..], desc.dyn.dl[..];
    var optLen := U32(g.optLen + 3 * (maxBlindex + 1) + 5 + 5 + 4);
    BlAnnounceable(codes, bd, llens, dlens, clens, maxBlindex + 1, g.optLen, opt0);
    HeaderIsReady(codes, bd, llens, dlens, clens, maxBlindex, maxBlindex + 1, optLen, g.optLen, opt0);
    g.optLen := optLen;
  }

  // ----- sending it

  lemma HeaderLens(clens: seq<nat>, r: nat, start: seq<bool>)
    requires |clens| == 19 && r < 19
    ensures start + LensBits(clens, r) + LsbBits(Ranked(clens, r), 3) == start + LensBits(clens, r + 1)
  {
    Assoc(start, LensBits(clens, r), LsbBits(Ranked(clens, r), 3));
  }

  /** The lengths of the code length code, in their own order. */
  method SendBlLens(w: BitWriter, bdl: array<ush>, blcodes: nat, ghost clens: seq<nat>)
    requires w.Valid() && bdl.Length >= 19 && clens == bdl[..19] && Short(clens) && blcodes <= 19
    modifies w, w.outbuf
    ensures w.Valid()
    ensures w.Stream() == old(w.Stream()) + LensBits(clens, blcodes)
  {
    ghost var start := w.Stream();
    assert start + LensBits(clens, 0) == start;
    var rank := 0;
    while rank < blcodes
      invariant 0 <= rank <= blcodes && w.Valid() && clens == bdl[..19]
      invariant w.Stream() == start + LensBits(clens, rank)
    {
      RankedShort(clens, rank);
      assert bdl[CodeLengthOrder(rank)] == Ranked(clens, rank);
      w.SendBits(bdl[CodeLengthOrder(rank)], 3);
      HeaderLens(clens, rank, start);
      rank := rank + 1;
    }
  }

  method SendCounts(w: BitWriter, lcodes: nat, dcodes: nat, blcodes: nat)
    requires w.Valid() && 257 <= lcodes <= 286 && 1 <= dcodes <= 30 && 4 <= blcodes <= 19
    modifies w, w.outbuf
    ensures w.Valid()
    ensures w.Stream() == old(w.Stream()) + CountBits(lcodes - 257, dcodes - 1, blcodes - 4)
  {
    hide BitWriter.Stream;
    ghost var start := w.Stream();
    SmallPowers();
    w.SendBits(lcodes - 257, 5);
    w.SendBits(dcodes - 1, 5);
    w.SendBits(blcodes - 4, 4);
    ThreeParts(start, LsbBits(lcodes - 257, 5), LsbBits(dcodes - 1, 5), LsbBits(blcodes - 4, 4));
  }

  lemma SmallPowers()
    ensures Pow2(5) == 32 && Pow2(4) == 16
  {
  }

  lemma ThreeParts(s: seq<bool>, a: seq<bool>, b: seq<bool>, c: seq<bool>)
    ensures s + a + b + c == s + (a + b + c)
  {
    Assoc(s, a, b);
    Assoc(s, a + b, c);
  }

  /** The arrays hold the two sets of lengths and the codes to send them with. */
  ghost predicate HeaderTables(ldl: seq<ush>, ddl: seq<ush>, bfc: seq<ush>, bdl: seq<ush>,
                               llens: seq<nat>, dlens: seq<nat>, clens: seq<nat>) {
    && Guarded(ldl, llens) && Guarded(ddl, dlens)
    && |bdl| >= 19 && clens == bdl[..19] && Codebook(bfc, bdl, clens)
  }

  /** Adds to the stream exactly the header from which the decoder gets both trees. */
  method SendAllTrees(w: BitWriter, ldl: array<ush>, ddl: array<ush>, bfc: array<ush>, bdl: array<ush>,
                      lcodes: nat, dcodes: nat, blcodes: nat,
                      ghost llens: seq<nat>, ghost dlens: seq<nat>, ghost clens: seq<nat>)
    requires w.Valid() && Shaped(llens, dlens, clens, blcodes) && Short(clens)
    requires lcodes == |llens| && dcodes == |dlens|
    requires HeaderTables(ldl[..], ddl[..], bfc[..], bdl[..], llens, dlens, clens)
    modifies w, w.outbuf
    ensures w.Valid()
    ensures w.Stream() == old(w.Stream()) + HeaderBits(llens, dlens, clens, blcodes)
  {
    hide BitWriter.Stream, Items, LsbBits, BytesBits, BitWriter.Bytes;
    ghost var start := w.Stream();
    assert bdl[..][..19] == bdl[..19];
    SendSizes(w, bdl, lcodes, dcodes, blcodes, clens);
    SendTrees(w, ldl, ddl, bfc, bdl, lcodes, dcodes, llens, dlens, clens);
    HeaderJoins(start, llens, dlens, clens, blcodes);
  }

  /** The part of the header that comes before the items. */
  method SendSizes(w: BitWriter, bdl: array<ush>, lcodes: nat, dcodes: nat, blcodes: nat, ghost clens: seq<nat>)
    requires w.Valid() && bdl.Length >= 19 && clens == bdl[..19] && Short(clens)
    requires 257 <= lcodes <= 286 && 1 <= dcodes <= 30 && 4 <= blcodes <= 19
    modifies w, w.outbuf
    ensures w.Valid()
    ensures w.Stream() == old(w.Stream()) + (CountBits(lcodes - 257, dcodes - 1, blcodes - 4) + LensBits(clens, blcodes))
  {
    ghost var start := w.Stream();
    SendCounts(w, lcodes, dcodes, blcodes);
    SendBlLens(w, bdl, blcodes, clens);
    Assoc(start, CountBits(lcodes - 257, dcodes - 1, blcodes - 4), LensBits(clens, blcodes));
  }

  /** The literal tree, then the distance tree. */
  method SendTrees(w: BitWriter, ldl: array<ush>, ddl: array<ush>, bfc: array<ush>, bdl: array<ush>, lcodes: nat, dcodes: nat,
                   ghost llens: seq<nat>, ghost dlens: seq<nat>, ghost clens: seq<nat>)
    requires w.Valid() && lcodes == |llens| && dcodes == |dlens|
    requires HeaderTables(ldl[..], ddl[..], bfc[..], bdl[..], llens, dlens, clens)
    requires Sendable(clens, Items(llens)) && Sendable(clens, Items(dlens))
    modifies w, w.outbuf
    ensures w.Valid()
    ensures w.Stream() == old(w.Stream()) + TreeBits(llens, dlens, clens)
  {
    ghost var start := w.Stream();
    assert ldl[..][..lcodes] == ldl[..lcodes] && ddl[..][..dcodes] == ddl[..dcodes];
    assert llens == ldl[..lcodes - 1 + 1] && dlens == ddl[..dcodes - 1 + 1];
    SendTree(w, ldl, lcodes - 1, bfc, bdl, llens, clens);
    SendTree(w, ddl, dcodes - 1, bfc, bdl, dlens, clens);
    Assoc(start, ItemsBits(clens, Items(llens)), ItemsBits(clens, Items(dlens)));
  }
}
