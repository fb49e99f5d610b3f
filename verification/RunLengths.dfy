/** Run-length coding of code lengths: what scan_tree counts and send_tree sends, and what
    section 3.2.7 of RFC 1951 makes of it. */
module RunLengths {
  import opened Optionals
  import opened Bits
  import opened Rfc1951

  /** A symbol of the code length alphabet, with the value of its extra bits. */
  datatype Item = Item(sym: nat, extra: nat)

  /** The state of both loops between turns, and the items they have come to. */
  datatype Run = Run(prev: int, next: nat, count: nat, maxCount: nat, minCount: nat, items: seq<Item>)

  /** The items that count lengths cur become when the last length before them is prev. */
  function Emit(cur: nat, prev: int, count: nat, minCount: nat): seq<Item> {
    if count < minCount then seq(count, _ => Item(cur, 0))
    else if cur != 0 then
      if cur != prev then [Item(cur, 0), Item(16, if count >= 4 then count - 4 else 0)]
      else [Item(16, if count >= 3 then count - 3 else 0)]
    else if count <= 10 then [Item(17, if count >= 3 then count - 3 else 0)]
    else [Item(18, count - 11)]
  }

  function MaxCount(cur: int, next: nat): nat {
    if next == 0 then 138 else if cur == next then 6 else 7
  }

  function MinCount(cur: int, next: nat): nat {
    if next == 0 || cur == next then 3 else 4
  }

  function RunStart(lens: seq<nat>): Run
    requires |lens| > 0
  {
    Run(-1, lens[0], 0, MaxCount(-1, lens[0]), MinCount(-1, lens[0]), [])
  }

  /** One turn of either loop, with the length after the current one. */
  function RunStep(r: Run, nextlen: nat): Run {
    var count := r.count + 1;
    if count < r.maxCount && r.next == nextlen then r.(count := count, next := nextlen)
    else Run(r.next, nextlen, 0, MaxCount(r.next, nextlen), MinCount(r.next, nextlen),
             r.items + Emit(r.next, r.prev, count, r.minCount))
  }

  const GUARD: nat := 0xffff

  /** The state after n turns; a guard follows the last length. */
  function RunAt(lens: seq<nat>, n: nat): Run
    requires n <= |lens| && |lens| > 0
  {
    if n == 0 then RunStart(lens)
    else RunStep(RunAt(lens, n - 1), if n < |lens| then lens[n] else GUARD)
  }

  /** The items for all of lens. */
  function Items(lens: seq<nat>): seq<Item>
    requires |lens| > 0
  {
    RunAt(lens, |lens|).items
  }

  // ----- what items stand for

  /** The lengths that items add up to after acc, by the reference decoder's rule. */
  function Unroll(acc: seq<nat>, items: seq<Item>): Option<seq<nat>>
    decreases items
  {
    if items == [] then Some(acc)
    else
      match Repeats(acc, items[0].sym, items[0].extra)
      case None => None
      case Some(more) => Unroll(acc + more, items[1..])
  }

  lemma {:induction false} UnrollAppend(acc: seq<nat>, a: seq<Item>, b: seq<Item>)
    ensures Unroll(acc, a + b) == match Unroll(acc, a) case None => None case Some(s) => Unroll(s, b)
    decreases a
  {
    if a == [] {
      assert a + b == b;
    } else {
      assert (a + b)[1..] == a[1..] + b;
      var r := Repeats(acc, a[0].sym, a[0].extra);
      if r.Some? { UnrollAppend(acc + r.value, a[1..], b); }
    }
  }

  /** Every extra value fits its extra bits, and every symbol exists. */
  predicate ItemOk(i: Item) {
    i.sym < 19 && i.extra < Pow2(RepeatExtra(i.sym))
  }

  predicate ItemsOk(items: seq<Item>) {
    forall k :: 0 <= k < |items| ==> ItemOk(items[k])
  }

  function Copies(v: nat, n: nat): (s: seq<nat>)
    ensures |s| == n && forall i :: 0 <= i < n ==> s[i] == v
  {
    seq(n, _ => v)
  }

  lemma {:induction false} ExpandCopies(acc: seq<nat>, cur: nat, n: nat)
    requires cur < 16
    ensures Unroll(acc, seq(n, _ => Item(cur, 0))) == Some(acc + Copies(cur, n))
    decreases n
  {
    var s := seq(n, _ => Item(cur, 0));
    if n == 0 {
      assert acc + Copies(cur, 0) == acc;
    } else {
      assert s[1..] == seq(n - 1, _ => Item(cur, 0));
      ExpandCopies(acc + [cur], cur, n - 1);
      assert acc + [cur] + Copies(cur, n - 1) == acc + Copies(cur, n);
    }
  }

  lemma ExpandOne(acc: seq<nat>, i: Item, more: seq<nat>)
    requires Repeats(acc, i.sym, i.extra) == Some(more)
    ensures Unroll(acc, [i]) == Some(acc + more)
  {
    assert [i][1..] == [];
  }

  lemma ExpandTwo(acc: seq<nat>, i: Item, j: Item, more: seq<nat>, rest: seq<nat>)
    requires Repeats(acc, i.sym, i.extra) == Some(more)
    requires Repeats(acc + more, j.sym, j.extra) == Some(rest)
    ensures Unroll(acc, [i, j]) == Some(acc + more + rest)
  {
    assert [i, j] == [i] + [j];
    UnrollAppend(acc, [i], [j]);
    ExpandOne(acc, i, more);
    ExpandOne(acc + more, j, rest);
  }

  // ----- the loops' invariant

  /** prev is the last of the lengths already put into items, or -1 at the beginning. */
  predicate LastIs(acc: seq<nat>, prev: int) {
    if acc == [] then prev == -1 else prev == acc[|acc| - 1]
  }

  /** A run of 1 to maxCount lengths cur becomes items that mean just that. */
  lemma EmitMeans(pre: seq<nat>, acc: seq<nat>, cur: nat, prev: int, count: nat)
    requires cur < 16 && LastIs(acc, prev) && 1 <= count <= MaxCount(prev, cur)
    ensures Unroll(pre + acc, Emit(cur, prev, count, MinCount(prev, cur))) == Some(pre + acc + Copies(cur, count))
  {
    var a := pre + acc;
    if count < MinCount(prev, cur) {
      ExpandCopies(a, cur, count);
    } else if cur != 0 {
      if cur != prev {
        assert (a + [cur])[|a + [cur]| - 1] == cur;
        assert seq(3 + (count - 4), _ => cur) == Copies(cur, count - 1);
        RepeatLast(a + [cur], count - 4);
        ExpandTwo(a, Item(cur, 0), Item(16, count - 4), [cur], Copies(cur, count - 1));
        assert a + [cur] + Copies(cur, count - 1) == a + Copies(cur, count);
      } else {
        assert a[|a| - 1] == cur;
        RepeatLast(a, count - 3);
        ExpandOne(a, Item(16, count - 3), Copies(cur, count));
      }
    } else if count <= 10 {
      ExpandOne(a, Item(17, count - 3), Copies(0, count));
    } else {
      ExpandOne(a, Item(18, count - 11), Copies(0, count));
    }
  }

  lemma RepeatLast(a: seq<nat>, extra: nat)
    requires a != []
    ensures Repeats(a, 16, extra) == Some(Copies(a[|a| - 1], 3 + extra))
  {
  }

  lemma EmitOk(cur: nat, prev: int, count: nat)
    requires cur < 16 && 1 <= count <= MaxCount(prev, cur)
    ensures ItemsOk(Emit(cur, prev, count, MinCount(prev, cur)))
  {
    assert Pow2(0) == 1 && Pow2(2) == 4 && Pow2(3) == 8;
    Pow2At7();
  }

  lemma Pow2At7()
    ensures Pow2(7) == 128
  {
  }

  /** What both loops keep: the items stand for all lengths but the last `count`, which are equal. */
  predicate RunOk(lens: seq<nat>, n: nat, r: Run) {
    && n <= |lens| && r.count <= n
    && r.next == (if n < |lens| then lens[n] else GUARD)
    && LastIs(lens[..n - r.count], r.prev)
    && r.maxCount == MaxCount(r.prev, r.next) && r.minCount == MinCount(r.prev, r.next)
    && r.count < r.maxCount
    && (forall j :: n - r.count <= j < n ==> lens[j] == r.next)
    && ItemsOk(r.items)
  }

  predicate Means(pre: seq<nat>, lens: seq<nat>, n: nat, r: Run) {
    n <= |lens| && r.count <= n && Unroll(pre, r.items) == Some(pre + lens[..n - r.count])
  }

  predicate Lengths(lens: seq<nat>) {
    forall i :: 0 <= i < |lens| ==> lens[i] < 16
  }

  lemma RunTail(lens: seq<nat>, n: nat, count: nat, cur: nat)
    requires n < |lens| && count <= n && lens[n] == cur
    requires forall j :: n - count <= j < n ==> lens[j] == cur
    ensures lens[..n + 1] == lens[..n - count] + Copies(cur, count + 1)
  {
  }

  lemma RunKeeps(pre: seq<nat>, lens: seq<nat>, n: nat, next: nat, r: Run, nextlen: nat)
    requires Lengths(lens) && n < |lens| && next == n + 1
    requires RunOk(lens, n, r) && Means(pre, lens, n, r)
    requires nextlen == if next < |lens| then lens[next] else GUARD
    ensures RunOk(lens, next, RunStep(r, nextlen)) && Means(pre, lens, next, RunStep(r, nextlen))
  {
    var cur, count := r.next, r.count + 1;
    if !(count < r.maxCount && cur == nextlen) {
      var acc, e := lens[..n - r.count], Emit(cur, r.prev, count, r.minCount);
      RunTail(lens, n, r.count, cur);
      EmitMeans(pre, acc, cur, r.prev, count);
      EmitOk(cur, r.prev, count);
      UnrollAppend(pre, r.items, e);
      Assoc(pre, acc, Copies(cur, count));
      assert lens[..next][|lens[..next]| - 1] == cur;
    }
  }

  lemma {:induction false} RunInvariant(pre: seq<nat>, lens: seq<nat>, n: nat)
    requires Lengths(lens) && |lens| > 0 && n <= |lens|
    ensures RunOk(lens, n, RunAt(lens, n)) && Means(pre, lens, n, RunAt(lens, n))
  {
    if n == 0 {
      assert pre + lens[..0] == pre;
    } else {
      RunInvariant(pre, lens, n - 1);
      RunKeeps(pre, lens, n - 1, n, RunAt(lens, n - 1), if n < |lens| then lens[n] else GUARD);
    }
  }

  /** The guard closes the last run. */
  lemma {:induction false} GuardCloses(lens: seq<nat>)
    requires Lengths(lens) && |lens| > 0
    ensures RunAt(lens, |lens|).count == 0
  {
    var n := |lens|;
    RunInvariant([], lens, n);
    assert lens[n - 1] < 16;
  }

  /** Round trip: the items stand for exactly the lengths, whatever stands before them. */
  lemma ItemsMean(pre: seq<nat>, lens: seq<nat>)
    requires Lengths(lens) && |lens| > 0
    ensures Unroll(pre, Items(lens)) == Some(pre + lens)
    ensures ItemsOk(Items(lens))
  {
    RunInvariant(pre, lens, |lens|);
    GuardCloses(lens);
    assert lens[..|lens|] == lens;
  }
}
