/** The items of a run of equal code lengths, written out. */
module RunLaws {
  import opened RunLengths

  function Plain(v: nat, n: nat): (s: seq<Item>)
    ensures |s| == n && forall k :: 0 <= k < n ==> s[k] == Item(v, 0)
  {
    seq(n, _ => Item(v, 0))
  }

  /** n zeros: as many groups of 138 as there are, then one group of at least 3, or single ones. */
  function ZeroRun(n: nat): seq<Item> {
    if n >= 138 then [Item(18, 127)] + ZeroRun(n - 138)
    else if n >= 11 then [Item(18, n - 11)]
    else if n >= 3 then [Item(17, n - 3)]
    else Plain(0, n)
  }

  /** n more of a length v: groups of 6, then one of at least 3, or single ones. */
  function MoreOf(v: nat, n: nat): seq<Item> {
    if n >= 6 then [Item(16, 3)] + MoreOf(v, n - 6)
    else if n >= 3 then [Item(16, n - 3)]
    else Plain(v, n)
  }

  /** n lengths v that are not zero, behind another one: the first is sent itself. */
  function RunOf(v: nat, n: nat): seq<Item> {
    if n >= 7 then [Item(v, 0), Item(16, 3)] + MoreOf(v, n - 7)
    else if n >= 4 then [Item(v, 0), Item(16, n - 4)]
    else Plain(v, n)
  }

  /** n lengths v behind the length prev, or at the beginning. */
  function Group(prev: int, v: nat, n: nat): seq<Item> {
    if v == 0 then ZeroRun(n) else if prev == v then MoreOf(v, n) else RunOf(v, n)
  }

  /** The count only grows as long as the lengths stay the same. */
  lemma {:induction false} Counts(lens: seq<nat>, i: nat, j: nat)
    requires |lens| > 0 && i + j < |lens| && RunAt(lens, i).count == 0 && j < RunAt(lens, i).maxCount
    requires forall k :: i <= k < |lens| ==> lens[k] == RunAt(lens, i).next
    ensures RunAt(lens, i + j) == RunAt(lens, i).(count := j)
    decreases j
  {
    if j > 0 { Counts(lens, i, j - 1); }
  }

  /** The run ends after j more lengths, because it is long enough or the end has come. */
  lemma Closes(lens: seq<nat>, i: nat, j: nat, next: nat)
    requires |lens| > 0 && j > 0 && next == i + j <= |lens| && RunAt(lens, i).count == 0 && j <= RunAt(lens, i).maxCount
    requires forall k :: i <= k < |lens| ==> lens[k] == RunAt(lens, i).next < 16
    requires j == RunAt(lens, i).maxCount || next == |lens|
    ensures var r, end := RunAt(lens, i), if next < |lens| then lens[next] else GUARD;
      RunAt(lens, next) == Run(r.next, end, 0, MaxCount(r.next, end), MinCount(r.next, end),
                               r.items + RunLengths.Emit(r.next, r.prev, j, r.minCount))
  {
    hide RunLengths.Emit;
    Counts(lens, i, j - 1);
  }

  /** A group of the greatest size, or the last one. */
  lemma GroupIs(prev: int, v: nat, n: nat, j: nat)
    requires n > 0 && j == if n < MaxCount(prev, v) then n else MaxCount(prev, v)
    ensures Group(prev, v, n) == RunLengths.Emit(v, prev, j, MinCount(prev, v)) + (if j < n then Group(v, v, n - j) else [])
  {
    if j < n || j == MaxCount(prev, v) {
      assert MoreOf(v, 0) == [] && ZeroRun(0) == [];
    }
  }

  /** From a place on where a run begins and nothing else follows, the items are those of its groups. */
  lemma {:induction false} LastRun(lens: seq<nat>, i: nat)
    requires i < |lens| && RunAt(lens, i).count == 0 && lens[i] < 16
    requires RunAt(lens, i).maxCount == MaxCount(RunAt(lens, i).prev, lens[i])
    requires RunAt(lens, i).minCount == MinCount(RunAt(lens, i).prev, lens[i])
    requires forall k :: i <= k < |lens| ==> lens[k] == RunAt(lens, i).next
    ensures Items(lens) == RunAt(lens, i).items + Group(RunAt(lens, i).prev, lens[i], |lens| - i)
    decreases |lens| - i
  {
    hide RunLengths.Emit, RunAt, Group;
    var r, v, n := RunAt(lens, i), lens[i], |lens| - i;
    var j := if n < MaxCount(r.prev, v) then n else MaxCount(r.prev, v);
    Closes(lens, i, j, i + j);
    GroupIs(r.prev, v, n, j);
    if j < n { LastRun(lens, i + j); }
  }

  lemma {:induction false} SamePrefix(lens: seq<nat>, a: seq<nat>, k: nat)
    requires a <= lens && k < |a|
    ensures RunAt(lens, k) == RunAt(a, k)
  {
    hide RunStep;
    if k > 0 { SamePrefix(lens, a, k - 1); }
  }

  /** Where the length changes, a run ends. */
  lemma RunEnds(lens: seq<nat>, a: seq<nat>, v: nat)
    requires a <= lens && 0 < |a| < |lens| && Lengths(lens) && lens[|a|] == v != a[|a| - 1]
    ensures RunAt(lens, |a|) == Run(a[|a| - 1], v, 0, MaxCount(a[|a| - 1], v), MinCount(a[|a| - 1], v), Items(a))
  {
    hide RunLengths.Emit, RunStart, MinCount, MaxCount;
    var n := |a| - 1;
    SamePrefix(lens, a, n);
    RunInvariant([], a, n);
    assert a[n] == lens[n] < 16;
  }

  /** Lengths that end with a whole run of n times v: the items before it are those of the lengths before it, and its
      own are written out above. So the items of any lengths are those of their runs. */
  lemma RunByRun(lens: seq<nat>, a: seq<nat>, v: nat, n: nat)
    requires Lengths(lens) && lens == a + Copies(v, n) && n > 0 && (a != [] ==> a[|a| - 1] != v)
    ensures Items(lens) == (if a == [] then [] else Items(a)) + (if v == 0 then ZeroRun(n) else RunOf(v, n))
  {
    hide RunAt, Items, RunLengths.Emit, ZeroRun, RunOf, MoreOf, MaxCount, MinCount;
    assert lens[|a|] == v;
    if a == [] {
      AtBeginning(lens);
    } else {
      RunEnds(lens, a, v);
    }
    LastRun(lens, |a|);
  }

  lemma AtBeginning(lens: seq<nat>)
    requires lens != []
    ensures RunAt(lens, 0) == Run(-1, lens[0], 0, MaxCount(-1, lens[0]), MinCount(-1, lens[0]), [])
  {
  }
}
