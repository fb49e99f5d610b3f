/** gen_bitlen's repair of lengths that came out too large. */
module Repair {
  import opened Bits
  import opened Sums
  import opened Rfc1951
  import opened TreeShape
  import opened CodeSpace

  /** The histogram of a code that takes `half` units of 2^-top too much. */
  ghost predicate Overfull(bl: seq<nat>, top: nat, half: nat, total: nat) {
    && |bl| == 16 && 2 <= top <= 15 && bl[0] == 0
    && (forall b :: top < b < 16 ==> bl[b] == 0)
    && BlSpace(bl) == Pow2(15) + Share(top) * half
    && half < bl[top]
    && Sum(bl) == total <= Pow2(top)
  }

  lemma UnitsFill(top: nat)
    requires 1 <= top <= 15
    ensures Pow2(top) * Share(top) == Pow2(15) && Share(top) > 0
  {
    hide Pow2;
    Pow2Add(top, 15 - top);
  }

  /** Some code is shorter than the greatest length: otherwise all would fit. */
  lemma ShorterExists(bl: seq<nat>, top: nat, half: nat, total: nat)
    requires Overfull(bl, top, half, total) && half > 0
    ensures exists b :: 1 <= b < top && bl[b] > 0
  {
    hide Pow2, Share, Sum, BlSpace;
    if forall b :: 1 <= b < top ==> bl[b] == 0 {
      AllAtTop(bl, top);
      UnitsFill(top);
      MulMono(bl[top], Pow2(top), Share(top));
      TooMuch(Share(top), half);
    }
  }

  lemma TooMuch(u: nat, half: nat)
    requires u > 0 && half > 0
    ensures u * half > 0
  {
  }

  lemma AllAtTop(bl: seq<nat>, top: nat)
    requires |bl| == 16 && 1 <= top <= 15 && forall b :: 0 <= b < 16 && b != top ==> bl[b] == 0
    ensures BlSpace(bl) == bl[top] * Share(top) && Sum(bl) == bl[top]
  {
    var none := bl[top := 0];
    BlSpaceUpdate(bl, top, 0);
    MulZero(Share(top));
    forall b | 0 <= b < 16
      ensures BlTerms(none)[b] == 0
    {
      MulZero(Share(b));
    }
    SumZero(BlTerms(none));
    SumUpdate(bl, top, 0);
    SumZero(none);
  }

  /** One leaf moves down, with one of the cut leaves for a brother. */
  function MoveDown(bl: seq<nat>, top: nat, b: nat): (r: seq<nat>)
    requires |bl| == 16 && 1 <= b < top < 16 && bl[b] > 0 && bl[top] > 0
    ensures |r| == 16
  {
    var one := bl[b := bl[b] - 1];
    var two := one[b + 1 := one[b + 1] + 2];
    two[top := two[top] - 1]
  }

  /** The greatest length up to b that some code has, or 0. */
  function Highest(bl: seq<nat>, b: nat): (r: nat)
    requires b < |bl|
    ensures r <= b
  {
    if b == 0 || bl[b] > 0 then b else Highest(bl, b - 1)
  }

  /** The histogram after as many leaves have moved down as nodes were cut in pairs, each from the greatest length
      below top that some code has. */
  function Repaired(bl: seq<nat>, top: nat, half: nat): (r: seq<nat>)
    requires |bl| == 16 && 2 <= top <= 15
    ensures |r| == 16
    decreases half
  {
    var b := Highest(bl, top - 1);
    if half == 0 || b == 0 || bl[b] == 0 || bl[top] == 0 then bl else Repaired(MoveDown(bl, top, b), top, half - 1)
  }

  lemma {:induction false} HighestIs(bl: seq<nat>, b: nat, c: nat)
    requires c <= b < |bl| && bl[c] > 0 && forall i :: c < i <= b ==> bl[i] == 0
    ensures Highest(bl, b) == c
  {
    if c < b { HighestIs(bl, b - 1, c); }
  }

  lemma OneMore(bl: seq<nat>, b: nat, c: seq<nat>)
    requires b < |bl| && c == bl[b := bl[b] + 1]
    ensures BlSpace(c) == BlSpace(bl) + Share(b) && Sum(c) == Sum(bl) + 1
  {
    hide BlSpace, Sum;
    SpaceMore(bl, b, c);
    SumUpdate(bl, b, bl[b] + 1);
  }

  lemma SpaceMore(bl: seq<nat>, b: nat, c: seq<nat>)
    requires b < |bl| && c == bl[b := bl[b] + 1]
    ensures BlSpace(c) == BlSpace(bl) + Share(b)
  {
    hide *;
    BlSpaceUpdate(bl, b, bl[b] + 1);
    MulDistrib(bl[b], 1, Share(b));
  }

  lemma OneLess(bl: seq<nat>, b: nat, c: seq<nat>)
    requires b < |bl| && bl[b] > 0 && c == bl[b := bl[b] - 1]
    ensures BlSpace(c) == BlSpace(bl) - Share(b) && Sum(c) == Sum(bl) - 1
  {
    assert bl == c[b := c[b] + 1];
    OneMore(c, b, bl);
  }

  lemma TwoMore(bl: seq<nat>, b: nat, c: seq<nat>)
    requires b < |bl| && c == bl[b := bl[b] + 2]
    ensures BlSpace(c) == BlSpace(bl) + 2 * Share(b) && Sum(c) == Sum(bl) + 2
  {
    hide BlSpace, Sum, Share;
    var m := bl[b := bl[b] + 1];
    OneMore(bl, b, m);
    assert c == m[b := m[b] + 1];
    OneMore(m, b, c);
  }

  lemma MoveDownSpace(bl: seq<nat>, top: nat, b: nat, r: seq<nat>)
    requires |bl| == 16 && 1 <= b < top < 16 && bl[b] > 0 && bl[top] > 0
    requires r == MoveDown(bl, top, b)
    ensures BlSpace(r) == BlSpace(bl) - Share(top) && Sum(r) == Sum(bl)
  {
    hide BlSpace, Sum, Share;
    var one := bl[b := bl[b] - 1];
    var two := one[b + 1 := one[b + 1] + 2];
    OneLess(bl, b, one);
    TwoMore(one, b + 1, two);
    OneLess(two, top, r);
    HalfShare(b);
  }

  lemma HalfShare(b: nat)
    requires 1 <= b < 15
    ensures Share(b) == 2 * Share(b + 1)
  {
  }

  lemma MoveDownKeeps(bl: seq<nat>, top: nat, half: nat, next: nat, total: nat, b: nat)
    requires Overfull(bl, top, half, total) && half == next + 1 && 1 <= b < top && bl[b] > 0
    ensures Overfull(MoveDown(bl, top, b), top, next, total)
  {
    MoveDownSpace(bl, top, b, MoveDown(bl, top, b));
    OneUnitLess(Share(top), half, next);
  }

  lemma OneUnitLess(u: nat, half: nat, next: nat)
    requires half == next + 1
    ensures u * half == u * next + u
  {
  }

  /** The greatest length below top that some code has. */
  method FindShorter(blCount: array<nat>, top: nat, ghost half: nat, ghost total: nat) returns (bits: nat)
    requires blCount.Length == 16 && half > 0 && Overfull(blCount[..], top, half, total)
    ensures 1 <= bits < top && blCount[bits] > 0 && bits == Highest(blCount[..], top - 1)
  {
    hide BlSpace, Sum, Highest, Pow2;
    ShorterExists(blCount[..], top, half, total);
    ghost var low :| 1 <= low < top && blCount[..][low] > 0;
    bits := top - 1;
    while blCount[bits] == 0
      invariant 1 <= low <= bits < top
      invariant forall b :: bits < b < top ==> blCount[b] == 0
      decreases bits
    {
      bits := bits - 1;
    }
    HighestIs(blCount[..], top - 1, bits);
  }

  method MoveLeaf(blCount: array<nat>, top: nat, bits: nat)
    requires blCount.Length == 16 && 1 <= bits < top < 16 && blCount[bits] > 0 && blCount[top] > 0
    modifies blCount
    ensures blCount[..] == MoveDown(old(blCount[..]), top, bits)
  {
    ghost var bl := blCount[..];
    blCount[bits] := blCount[bits] - 1;
    ghost var one := blCount[..];
    assert one == bl[bits := bl[bits] - 1];
    blCount[bits + 1] := blCount[bits + 1] + 2;
    ghost var two := blCount[..];
    assert two == one[bits + 1 := one[bits + 1] + 2];
    blCount[top] := blCount[top] - 1;
    assert blCount[..] == two[top := two[top] - 1];
  }

  /** Finds the first length that could increase, from the greatest down, and moves a leaf down there. */
  method RepairOne(blCount: array<nat>, top: nat, ghost half: nat, ghost next: nat, ghost total: nat)
    requires blCount.Length == 16 && half == next + 1 && Overfull(blCount[..], top, half, total)
    modifies blCount
    ensures Overfull(blCount[..], top, next, total)
    ensures Repaired(blCount[..], top, next) == Repaired(old(blCount[..]), top, half)
  {
    hide BlSpace, Sum, MoveDown, Highest;
    var bits := FindShorter(blCount, top, half, total);
    MoveDownKeeps(blCount[..], top, half, next, total, bits);
    MoveLeaf(blCount, top, bits);
  }

  /** Repairs until nothing is left over: the lengths counted then fill the code space exactly. */
  method RepairCounts(blCount: array<nat>, top: nat, overflow0: int, ghost half0: nat, ghost total: nat)
    requires blCount.Length == 16 && overflow0 == 2 * half0 && half0 > 0
    requires Overfull(blCount[..], top, half0, total)
    modifies blCount
    ensures Overfull(blCount[..], top, 0, total)
    ensures blCount[..] == Repaired(old(blCount[..]), top, half0)
  {
    hide BlSpace, Sum;
    ghost var bl := blCount[..];
    var overflow := overflow0;
    ghost var half := half0;
    var more := true;
    while more
      invariant overflow == 2 * half && half >= 0 && (more <==> overflow > 0)
      invariant Overfull(blCount[..], top, half, total)
      invariant Repaired(blCount[..], top, half) == Repaired(bl, top, half0)
      decreases overflow, more
    {
      ghost var was := half;
      half := half - 1;
      RepairOne(blCount, top, was, half, total);
      overflow := overflow - 2;
      more := overflow > 0;
    }
  }
}
