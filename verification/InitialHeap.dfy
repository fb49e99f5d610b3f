/** The first part of build_tree: which codes enter the heap. */
module InitialHeap {
  import opened Bits
  import opened Sums
  import opened Heaps
  import opened Trees

  /** The codes below n with a nonzero frequency, in order. */
  function UsedIds(f: seq<ush>, n: nat): (r: seq<ush>)
    requires n <= |f| && n <= 0x10000
  {
    if n == 0 then []
    else UsedIds(f, n - 1) + (if f[n - 1] != 0 then [n - 1] else [])
  }

  /** The greatest of them, or -1. */
  function MaxUsed(f: seq<ush>, n: nat): int
    requires n <= |f|
  {
    if n == 0 then -1 else if f[n - 1] != 0 then n - 1 else MaxUsed(f, n - 1)
  }

  lemma {:induction false} UsedIdsCount(f: seq<ush>, n: nat, x: ush)
    requires n <= |f| && n <= 0x10000
    ensures multiset(UsedIds(f, n))[x] == if x < n && f[x] != 0 then 1 else 0
  {
    if n > 0 { UsedIdsCount(f, n - 1, x); }
  }

  lemma {:induction false} UsedIdsSame(f: seq<ush>, g: seq<ush>, n: nat)
    requires n <= |f| && n <= |g| && n <= 0x10000
    requires forall i :: 0 <= i < n ==> f[i] == g[i]
    ensures UsedIds(f, n) == UsedIds(g, n)
  {
    if n > 0 { UsedIdsSame(f, g, n - 1); }
  }

  lemma {:induction false} UsedIdsBound(f: seq<ush>, n: nat)
    requires n <= |f| && n <= 0x10000
    ensures |UsedIds(f, n)| <= n
    ensures forall p :: 0 <= p < |UsedIds(f, n)| ==> UsedIds(f, n)[p] < n
  {
    if n > 0 { UsedIdsBound(f, n - 1); }
  }

  lemma {:induction false} MaxUsedIs(f: seq<ush>, n: nat)
    requires n <= |f| && n <= 0x10000
    ensures -1 <= MaxUsed(f, n) < n
    ensures MaxUsed(f, n) >= 0 ==> f[MaxUsed(f, n)] != 0
    ensures forall i :: MaxUsed(f, n) < i < n ==> f[i] == 0
  {
    if n > 0 { MaxUsedIs(f, n - 1); }
  }

  lemma {:induction false} MaxUsedUpdate(f: seq<ush>, n: nat, i: nat)
    requires n <= |f| && i < n
    ensures MaxUsed(f[i := 1], n) == if i > MaxUsed(f, n) then i else MaxUsed(f, n)
  {
    if i < n - 1 { MaxUsedUpdate(f, n - 1, i); } else { MaxUsedSame(f, f[i := 1], n - 1); }
  }

  lemma {:induction false} MaxUsedSame(f: seq<ush>, g: seq<ush>, n: nat)
    requires n <= |f| && n <= |g|
    requires forall i :: 0 <= i < n ==> f[i] == g[i]
    ensures MaxUsed(f, n) == MaxUsed(g, n) < n
  {
    if n > 0 { MaxUsedSame(f, g, n - 1); }
  }

  lemma TwoMembers(s: seq<ush>, a: ush, b: ush)
    requires a in multiset(s) && b in multiset(s) && a != b
    ensures |s| >= 2
  {
    assert a in s && b in s;
  }

  /** The heap lists exactly the used codes, each once. */
  ghost predicate ListsUsed(heap: seq<ush>, len: nat, f: seq<ush>, elems: nat) {
    && elems <= |f| && elems <= 0x10000 && len < |heap|
    && multiset(Live(heap, len)) == multiset(UsedIds(f, elems))
  }

  /** At most one code is used when the heap is that short. */
  lemma LoneCode(heap: seq<ush>, len: nat, f: seq<ush>, elems: nat, i: ush)
    requires ListsUsed(heap, len, f, elems) && len < 2
    requires i < elems && i != MaxUsed(f, elems)
    ensures f[i] == 0
  {
    MaxUsedIs(f, elems);
    UsedIdsCount(f, elems, i);
    if f[i] != 0 {
      UsedIdsCount(f, elems, MaxUsed(f, elems));
      TwoMembers(Live(heap, len), i, MaxUsed(f, elems));
    }
  }

  lemma ListsOneMore(h: seq<ush>, len: nat, k: seq<ush>, f: seq<ush>, g: seq<ush>, elems: nat, i: ush)
    requires ListsUsed(h, len, f, elems) && len + 1 < |k|
    requires i < elems && f[i] == 0 && g == f[i := 1]
    requires Live(k, len + 1) == Live(h, len) + [i]
    ensures ListsUsed(k, len + 1, g, elems)
  {
    UsedOneMore(f, g, elems, i);
    AppendOne(Live(h, len), i);
  }

  lemma AppendOne(s: seq<ush>, i: ush)
    ensures multiset(s + [i]) == multiset(s) + multiset{i}
  {
  }

  lemma UsedOneMore(f: seq<ush>, g: seq<ush>, n: nat, i: ush)
    requires n <= |f| && n <= 0x10000 && i < n && f[i] == 0 && g == f[i := 1]
    ensures multiset(UsedIds(g, n)) == multiset(UsedIds(f, n)) + multiset{i}
  {
    forall x: ush
      ensures multiset(UsedIds(g, n))[x] == multiset(UsedIds(f, n))[x] + (if x == i then 1 else 0)
    {
      UsedIdsCount(f, n, x);
      UsedIdsCount(g, n, x);
    }
    PlusOne(multiset(UsedIds(f, n)), multiset(UsedIds(g, n)), i);
  }

  lemma PlusOne(a: multiset<ush>, b: multiset<ush>, i: ush)
    requires forall x: ush :: b[x] == a[x] + (if x == i then 1 else 0)
    ensures b == a + multiset{i}
  {
  }

  /** n is appended to the heap's array, as a leaf. */
  method AddToHeap(g: TreeSpace, n: nat)
    requires g.Valid() && n < L_CODES && g.heapLen < L_CODES
    modifies g`heapLen, g.heap, g.depth
    ensures g.heapLen == old(g.heapLen) + 1
    ensures g.heap[..] == old(g.heap[..])[g.heapLen := n]
    ensures Live(g.heap[..], g.heapLen) == old(Live(g.heap[..], g.heapLen)) + [n]
    ensures g.depth[..] == old(g.depth[..])[n := 0]
  {
    g.heapLen := g.heapLen + 1;
    g.heap[g.heapLen] := n;
    g.depth[n] := 0;
  }

  /** One code: into the heap, or its length cleared. */
  method CollectOne(g: TreeSpace, desc: TreeDesc, n: nat, m: int) returns (maxCode: int)
    requires g.Valid() && desc.Valid() && g.Apart(desc) && n < desc.elems && g.heapLen < L_CODES
    modifies g`heapLen, g.heap, g.depth, desc.dyn.dl
    ensures var f, dl := desc.dyn.fc, desc.dyn.dl;
            && f[..] == old(f[..])
            && (f[n] == 0 ==>
                  g.heapLen == old(g.heapLen) && g.heap[..] == old(g.heap[..])
                  && dl[..] == old(dl[..])[n := 0] && maxCode == m)
    ensures var f, dl := desc.dyn.fc, desc.dyn.dl;
            && (f[n] != 0 ==>
                  g.heapLen == old(g.heapLen) + 1
                  && Live(g.heap[..], g.heapLen) == old(Live(g.heap[..], g.heapLen)) + [n]
                  && dl[..] == old(dl[..]) && maxCode == n)
  {
    if desc.dyn.fc[n] != 0 {
      AddToHeap(g, n);
      maxCode := n;
    } else {
      desc.dyn.dl[n] := 0;
      maxCode := m;
    }
  }

  method CollectUsed(g: TreeSpace, desc: TreeDesc)
    requires g.Valid() && desc.Valid() && g.Apart(desc)
    modifies g`heapLen, g`heapMax, g.heap, g.depth, desc.dyn.dl, desc`maxCode
    ensures g.heapMax == HEAP_SIZE
    ensures g.heapLen <= desc.elems
    ensures Live(g.heap[..], g.heapLen) == UsedIds(desc.dyn.fc[..], desc.elems)
    ensures desc.maxCode == MaxUsed(desc.dyn.fc[..], desc.elems)
    ensures forall i :: 0 <= i < desc.elems && desc.dyn.fc[i] == 0 ==> desc.dyn.dl[i] == 0
  {
    var fc, dl := desc.dyn.fc, desc.dyn.dl;
    g.heapLen := 0;
    g.heapMax := HEAP_SIZE;
    var maxCode := -1;
    var n := 0;
    ghost var f := fc[..];
    while n < desc.elems
      invariant 0 <= n <= desc.elems
      invariant fc[..] == f
      invariant g.heapMax == HEAP_SIZE
      invariant g.heapLen <= n && Live(g.heap[..], g.heapLen) == UsedIds(f, n)
      invariant maxCode == MaxUsed(f, n)
      invariant forall i :: 0 <= i < n && f[i] == 0 ==> dl[i] == 0
    {
      maxCode := CollectOne(g, desc, n, maxCode);
      n := n + 1;
    }
    desc.maxCode := maxCode;
  }

  // ----- the codes that are forced in

  /** d[i] is 1 for the codes i that were given a frequency of 1 they did not have. */
  ghost predicate Forcing(f: seq<ush>, g: seq<ush>, d: seq<int>, elems: nat) {
    && |f| == |g| && |d| == elems <= |f|
    && (forall i :: 0 <= i < elems ==> d[i] == 0 || (d[i] == 1 && i <= 2 && f[i] == 0))
    && (forall i :: 0 <= i < |f| ==> g[i] == f[i] + (if i < elems then d[i] else 0))
  }

  function StaticTerms(d: seq<int>, slens: seq<ush>): (r: seq<int>)
    requires |d| <= |slens|
    ensures |r| == |d| && forall i :: 0 <= i < |d| ==> r[i] == d[i] * slens[i]
  {
    seq(|d|, i requires 0 <= i < |d| => d[i] * slens[i])
  }

  lemma ForcingStart(f: seq<ush>, elems: nat) returns (d: seq<int>)
    requires elems <= |f|
    ensures Forcing(f, f, d, elems) && Sum(d) == 0
    ensures forall i :: 0 <= i < |d| ==> d[i] == 0
  {
    d := seq(elems, _ => 0);
    SumZero(d);
  }

  lemma ForcingStep(f: seq<ush>, g: seq<ush>, d: seq<int>, elems: nat, i: nat)
    requires Forcing(f, g, d, elems) && i < elems && i <= 2 && g[i] == 0
    ensures Forcing(f, g[i := 1], d[i := 1], elems)
    ensures d[i] == 0 && Sum(d[i := 1]) == Sum(d) + 1
  {
    SumUpdate(d, i, 1);
  }

  lemma StaticStep(d: seq<int>, slens: seq<ush>, i: nat)
    requires |d| <= |slens| && i < |d| && d[i] == 0
    ensures Sum(StaticTerms(d[i := 1], slens)) == Sum(StaticTerms(d, slens)) + slens[i]
  {
    assert StaticTerms(d[i := 1], slens) == StaticTerms(d, slens)[i := slens[i]];
    SumUpdate(StaticTerms(d, slens), i, slens[i]);
  }

  /** The code that is made up next to the greatest code. */
  function AfterCode(maxCode: int): nat {
    if -1 <= maxCode < 2 then maxCode + 1 else 0
  }

  /** Where no code is used, 0 and 1 are made up; where one is, the code behind it if that is 1 or 2, and otherwise 0.
      */
  ghost predicate WhichMade(f0: seq<ush>, f: seq<ush>, elems: nat) {
    && elems <= |f0| && elems <= 0x10000 && |f0| > 2
    && var used := UsedIds(f0, elems);
      if |used| >= 2 then f == f0
      else if |used| == 1 then f == f0[if used[0] < 2 then used[0] + 1 else 0 := 1]
      else f == f0[0 := 1][1 := 1]
  }

  /** While fewer than two codes are listed: how far it has come from f0, where len0 codes are used. */
  ghost predicate Making(f0: seq<ush>, len0: nat, f: seq<ush>, len: nat, elems: nat) {
    && elems <= |f0| && elems <= 0x10000 && |f0| > 2
    && ((len == len0 && f == f0)
        || (len0 == 1 && len == 2 && f == f0[AfterCode(MaxUsed(f0, elems)) := 1])
        || (len0 == 0 && len == 1 && f == f0[0 := 1])
        || (len0 == 0 && len == 2 && f == f0[0 := 1][1 := 1]))
  }

  lemma {:induction false} FewUsed(f: seq<ush>, n: nat)
    requires n <= |f| && n <= 0x10000
    ensures |UsedIds(f, n)| == 1 ==> UsedIds(f, n)[0] == MaxUsed(f, n)
    ensures |UsedIds(f, n)| == 0 <==> MaxUsed(f, n) == -1
  {
    if n > 0 { FewUsed(f, n - 1); }
  }

  lemma ListedCount(heap: seq<ush>, len: nat, f: seq<ush>, elems: nat)
    requires ListsUsed(heap, len, f, elems)
    ensures len == |UsedIds(f, elems)| && elems <= |f|
  {
    assert |multiset(Live(heap, len))| == |multiset(UsedIds(f, elems))|;
  }

  lemma MakingMore(f0: seq<ush>, len0: nat, f: seq<ush>, len: nat, elems: nat, maxCode: int, added: nat)
    requires Making(f0, len0, f, len, elems) && len < 2 && 2 < elems && maxCode == MaxUsed(f, elems) && added == AfterCode(maxCode)
    requires elems <= |f0| && elems <= 0x10000 && len0 == |UsedIds(f0, elems)| && added < |f|
    ensures Making(f0, len0, f[added := 1], len + 1, elems)
  {
    FewUsed(f0, elems);
    MaxUsedIs(f0, elems);
    if len0 == 0 && len == 1 { MaxUsedUpdate(f0, elems, 0); }
  }

  lemma MakingNone(f: seq<ush>, len: nat, elems: nat)
    requires elems <= |f| && elems <= 0x10000 && |f| > 2
    ensures Making(f, len, f, len, elems)
  {
  }

  lemma AllMade(f0: seq<ush>, len0: nat, f: seq<ush>, len: nat, elems: nat)
    requires Making(f0, len0, f, len, elems) && len >= 2 && elems <= |f0| && elems <= 0x10000 && len0 == |UsedIds(f0, elems)|
    ensures WhichMade(f0, f, elems)
  {
    FewUsed(f0, elems);
  }

  /** The code that is made up next: 0, 1 or 2. */
  method ChooseForced(g: TreeSpace, desc: TreeDesc) returns (added: nat)
    requires g.Valid() && desc.Valid() && g.heapLen < 2
    requires ListsUsed(g.heap[..], g.heapLen, desc.dyn.fc[..], desc.elems)
    requires desc.maxCode == MaxUsed(desc.dyn.fc[..], desc.elems)
    modifies desc`maxCode
    ensures added <= 2 && desc.dyn.fc[added] == 0 && added == AfterCode(old(desc.maxCode))
    ensures desc.maxCode == MaxUsed(desc.dyn.fc[..][added := 1], desc.elems)
  {
    ghost var f := desc.dyn.fc[..];
    MaxUsedIs(f, desc.elems);
    if desc.maxCode < 2 {
      desc.maxCode := desc.maxCode + 1;
      added := desc.maxCode;
    } else {
      added := 0;
    }
    LoneCode(g.heap[..], g.heapLen, f, desc.elems, added);
    MaxUsedUpdate(f, desc.elems, added);
  }

  /** Its cost is taken off in advance, which keeps the block lengths exact. */
  method Discount(g: TreeSpace, desc: TreeDesc, added: nat)
    requires g.Valid() && desc.Valid() && added < desc.elems
    modifies g`optLen, g`staticLen
    ensures g.optLen == U32(old(g.optLen) - 1)
    ensures desc.stat == null ==> g.staticLen == old(g.staticLen)
    ensures desc.stat != null ==> g.staticLen == U32(old(g.staticLen) - desc.stat.dl[added])
  {
    g.optLen := U32(g.optLen - 1);
    if desc.stat != null {
      g.staticLen := U32(g.staticLen - desc.stat.dl[added]);
    }
  }

  /** A list of the used codes, and the greatest of them. */
  ghost predicate Listed(s: TreeState, elems: nat) {
    && ListsUsed(s.heap, s.heapLen, s.fc, elems)
    && s.maxCode == MaxUsed(s.fc, elems)
  }

  /** From s to t, code `added` is made up. */
  ghost predicate ForceStep(s: TreeState, t: TreeState, added: nat, elems: nat, slens: seq<ush>, isStatic: bool) {
    && added <= 2 && added < elems <= |s.fc| && s.fc[added] == 0
    && t.heapLen == s.heapLen + 1 && t.heapMax == s.heapMax
    && t.fc == s.fc[added := 1] && t.dl == s.dl
    && t.optLen == U32(s.optLen - 1)
    && (isStatic ==> added < |slens| && t.staticLen == U32(s.staticLen - slens[added]))
    && (!isStatic ==> t.staticLen == s.staticLen)
  }

  /** One forced code. */
  method ForceOne(g: TreeSpace, desc: TreeDesc) returns (added: nat)
    requires g.Valid() && desc.Valid() && g.Apart(desc) && g.heapLen < 2
    requires Listed(State(g, desc), desc.elems)
    modifies g`heapLen, g`optLen, g`staticLen, g.heap, g.depth, desc.dyn.fc, desc`maxCode
    ensures Listed(State(g, desc), desc.elems)
    ensures ForceStep(old(State(g, desc)), State(g, desc), added, desc.elems, StaticLens(desc), desc.stat != null)
    ensures added == AfterCode(old(desc.maxCode))
    ensures StaticLens(desc) == old(StaticLens(desc))
  {
    hide ListsUsed, U32, MaxUsed, Live;
    ghost var s, slens := State(g, desc), StaticLens(desc);
    added := ChooseForced(g, desc);
    Discount(g, desc, added);
    AddToHeap(g, added);
    desc.dyn.fc[added] := 1;
    assert desc.dyn.fc[..] == s.fc[added := 1];
    ForceKeeps(s, State(g, desc), added, desc.elems, slens, desc.stat != null);
  }

  lemma ForceKeeps(s: TreeState, t: TreeState, added: nat, elems: nat, slens: seq<ush>, isStatic: bool)
    requires Listed(s, elems) && ForceStep(s, t, added, elems, slens, isStatic)
    requires t.heapLen < |t.heap| && Live(t.heap, t.heapLen) == Live(s.heap, s.heapLen) + [added]
    requires t.maxCode == MaxUsed(t.fc, elems)
    ensures Listed(t, elems)
  {
    ListsOneMore(s.heap, s.heapLen, t.heap, s.fc, t.fc, elems, added);
  }

  /** What the forced codes d have taken off a length so far. */
  ghost predicate Discounted(now: nat, was: nat, off: int) {
    now == U32(was - off)
  }

  lemma DiscountMore(now: nat, was: nat, off: int, one: int, then_: nat)
    requires Discounted(now, was, off) && then_ == U32(now - one)
    ensures Discounted(then_, was, off + one)
  {
    U32Twice(was - off, -one);
  }

  /** The effect of the codes d on the two lengths. */
  ghost predicate Discounts(opt: nat, opt0: nat, sta: nat, sta0: nat, d: seq<int>, slens: seq<ush>, isStatic: bool)
    requires isStatic ==> |d| <= |slens|
  {
    && Discounted(opt, opt0, Sum(d))
    && (isStatic ==> Discounted(sta, sta0, Sum(StaticTerms(d, slens))))
    && (!isStatic ==> sta == sta0)
  }

  lemma DiscountsStart(opt: nat, sta: nat, d: seq<int>, slens: seq<ush>, isStatic: bool)
    requires isStatic ==> |d| <= |slens|
    requires opt < 0x1_0000_0000 && sta < 0x1_0000_0000
    requires forall i :: 0 <= i < |d| ==> d[i] == 0
    ensures Discounts(opt, opt, sta, sta, d, slens, isStatic)
  {
    SumZero(d);
    if isStatic { SumZero(StaticTerms(d, slens)); }
  }

  lemma DiscountsStep(opt: nat, opt0: nat, sta: nat, sta0: nat, d: seq<int>, slens: seq<ush>, isStatic: bool,
                      i: nat, opt': nat, sta': nat)
    requires isStatic ==> |d| <= |slens|
    requires Discounts(opt, opt0, sta, sta0, d, slens, isStatic)
    requires i < |d| && d[i] == 0
    requires opt' == U32(opt - 1)
    requires isStatic ==> sta' == U32(sta - slens[i])
    requires !isStatic ==> sta' == sta
    ensures Discounts(opt', opt0, sta', sta0, d[i := 1], slens, isStatic)
  {
    SumUpdate(d, i, 1);
    DiscountMore(opt, opt0, Sum(d), 1, opt');
    if isStatic {
      StaticStep(d, slens, i);
      DiscountMore(sta, sta0, Sum(StaticTerms(d, slens)), slens[i], sta');
    }
  }

  /** From s to t, the codes d are made up. */
  ghost predicate Forced(s: TreeState, t: TreeState, d: seq<int>, elems: nat, slens: seq<ush>, isStatic: bool) {
    && (isStatic ==> elems <= |slens|)
    && Forcing(s.fc, t.fc, d, elems) && Sum(d) >= 0
    && (Sum(d) != 0 ==> t.heapLen <= 2)
    && (Sum(d) == 0 ==> t.fc == s.fc)
    && t.heapMax == s.heapMax && t.dl == s.dl
    && Discounts(t.optLen, s.optLen, t.staticLen, s.staticLen, d, slens, isStatic)
  }

  lemma ForcedStart(s: TreeState, elems: nat, slens: seq<ush>, isStatic: bool) returns (d: seq<int>)
    requires elems <= |s.fc| && (isStatic ==> elems <= |slens|)
    requires s.optLen < 0x1_0000_0000 && s.staticLen < 0x1_0000_0000
    ensures Forced(s, s, d, elems, slens, isStatic)
  {
    d := ForcingStart(s.fc, elems);
    DiscountsStart(s.optLen, s.staticLen, d, slens, isStatic);
  }

  lemma ForcedMore(s: TreeState, t: TreeState, u: TreeState, d: seq<int>, added: nat,
                   elems: nat, slens: seq<ush>, isStatic: bool)
    requires Forced(s, t, d, elems, slens, isStatic) && t.heapLen < 2
    requires ForceStep(t, u, added, elems, slens, isStatic)
    ensures Forced(s, u, d[added := 1], elems, slens, isStatic)
  {
    ForcingStep(s.fc, t.fc, d, elems, added);
    DiscountsStep(t.optLen, s.optLen, t.staticLen, s.staticLen, d, slens, isStatic, added, u.optLen, u.staticLen);
  }

  /** The pkzip format wants two codes in each tree: a code that is not there is made up. */
  method ForceTwo(g: TreeSpace, desc: TreeDesc) returns (ghost d: seq<int>)
    requires g.Valid() && desc.Valid() && g.Apart(desc) && g.Words()
    requires g.heapLen <= desc.elems
    requires Listed(State(g, desc), desc.elems)
    modifies g`heapLen, g`optLen, g`staticLen, g.heap, g.depth, desc.dyn.fc, desc`maxCode
    ensures 2 <= g.heapLen <= desc.elems
    ensures Listed(State(g, desc), desc.elems)
    ensures Forced(old(State(g, desc)), State(g, desc), d, desc.elems, old(StaticLens(desc)), desc.stat != null)
    ensures WhichMade(old(desc.dyn.fc[..]), desc.dyn.fc[..], desc.elems)
    ensures StaticLens(desc) == old(StaticLens(desc))
  {
    hide ListsUsed, MaxUsed, WhichMade, Making, TreeSpace.Apart, Sum, UsedIds;
    ghost var f0, len0 := desc.dyn.fc[..], g.heapLen;
    ListedCount(g.heap[..], g.heapLen, f0, desc.elems);
    MakingNone(f0, len0, desc.elems);
    ghost var s, slens, isStatic := State(g, desc), StaticLens(desc), desc.stat != null;
    d := ForcedStart(s, desc.elems, slens, isStatic);
    while g.heapLen < 2
      invariant g.heapLen <= desc.elems
      invariant StaticLens(desc) == slens
      invariant Listed(State(g, desc), desc.elems)
      invariant Forced(s, State(g, desc), d, desc.elems, slens, isStatic)
      invariant Making(f0, len0, desc.dyn.fc[..], g.heapLen, desc.elems)
    {
      ghost var t := State(g, desc);
      var added := ForceOne(g, desc);
      ForcedMore(s, t, State(g, desc), d, added, desc.elems, slens, isStatic);
      MakingMore(f0, len0, t.fc, t.heapLen, desc.elems, t.maxCode, added);
      d := d[added := 1];
    }
    AllMade(f0, len0, desc.dyn.fc[..], g.heapLen, desc.elems);
  }
}
