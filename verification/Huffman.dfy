/** The least cost of any prefix code, and why merging the two lightest weights reaches it. */
module Huffman {
  import opened Bits
  import opened Sums

  // ----- the cost of Huffman's construction

  ghost function Least(ws: multiset<nat>): (m: nat)
    requires |ws| > 0
    ensures m in ws && forall x :: x in ws ==> m <= x
    decreases |ws|
  {
    var x :| x in ws;
    var rest := ws - multiset{x};
    assert ws == rest + multiset{x};
    if |rest| == 0 then x
    else
      var y := Least(rest);
      if x <= y then x else y
  }

  /** ws with a and b replaced by their sum. */
  ghost function Joined(ws: multiset<nat>, a: nat, b: nat): (r: multiset<nat>) {
    ws - multiset{a} - multiset{b} + multiset{a + b}
  }

  lemma JoinedSize(ws: multiset<nat>, a: nat, b: nat)
    requires a in ws && b in ws - multiset{a}
    ensures |ws| > 1 && |ws - multiset{a}| > 0
    ensures |Joined(ws, a, b)| == |ws| - 1
  {
    var r := ws - multiset{a};
    assert ws == r + multiset{a};
    assert r == (r - multiset{b}) + multiset{b};
  }

  ghost function Second(ws: multiset<nat>): nat
    requires |ws| > 1
  {
    assert ws == (ws - multiset{Least(ws)}) + multiset{Least(ws)};
    Least(ws - multiset{Least(ws)})
  }

  /** The sum of all weights made by merging the two lightest until one is left. */
  ghost function HuffmanCost(ws: multiset<nat>): nat
    decreases |ws|
  {
    if |ws| <= 1 then 0
    else
      JoinedSize(ws, Least(ws), Second(ws));
      Least(ws) + Second(ws) + HuffmanCost(Joined(ws, Least(ws), Second(ws)))
  }

  lemma LeastIs(ws: multiset<nat>, a: nat)
    requires a in ws && forall x :: x in ws ==> a <= x
    ensures Least(ws) == a
  {
    assert ws[a] > 0;
  }

  /** a and b are a lightest pair of ws. */
  ghost predicate LightestTwo(ws: multiset<nat>, a: nat, b: nat) {
    && a in ws && (forall x :: x in ws ==> a <= x)
    && b in ws - multiset{a} && (forall x :: x in ws - multiset{a} ==> b <= x)
  }

  lemma MergeLightest(ws: multiset<nat>, a: nat, b: nat)
    requires LightestTwo(ws, a, b)
    ensures HuffmanCost(ws) == a + b + HuffmanCost(Joined(ws, a, b))
  {
    JoinedSize(ws, a, b);
    LeastIs(ws, a);
    LeastIs(ws - multiset{a}, b);
  }

  // ----- weighted code lengths

  datatype Leaf = Leaf(w: nat, l: nat)

  function Costs(s: seq<Leaf>): (r: seq<int>)
    ensures |r| == |s| && forall i :: 0 <= i < |s| ==> r[i] == s[i].w * s[i].l
  {
    seq(|s|, i requires 0 <= i < |s| => s[i].w * s[i].l)
  }

  ghost predicate Within(s: seq<Leaf>, top: nat) {
    forall i :: 0 <= i < |s| ==> s[i].l <= top
  }

  function Shares(s: seq<Leaf>, top: nat): (r: seq<int>)
    requires Within(s, top)
    ensures |r| == |s| && forall i :: 0 <= i < |s| ==> r[i] == Pow2(top - s[i].l)
  {
    seq(|s|, i requires 0 <= i < |s| => Pow2(top - s[i].l))
  }

  /** The inequality of Kraft, in units of 2^-top. */
  ghost predicate Kraft(s: seq<Leaf>, top: nat) {
    Within(s, top) && Sum(Shares(s, top)) <= Pow2(top)
  }

  function Weights(s: seq<Leaf>): (r: seq<nat>)
    ensures |r| == |s| && forall i :: 0 <= i < |s| ==> r[i] == s[i].w
  {
    seq(|s|, i requires 0 <= i < |s| => s[i].w)
  }

  function LengthsIn(s: seq<Leaf>): (r: seq<int>)
    ensures |r| == |s| && forall i :: 0 <= i < |s| ==> r[i] == s[i].l
  {
    seq(|s|, i requires 0 <= i < |s| => s[i].l)
  }

  lemma {:induction false} SumNonneg(s: seq<int>)
    requires forall i :: 0 <= i < |s| ==> s[i] >= 0
    ensures Sum(s) >= 0
    ensures forall i :: 0 <= i < |s| ==> s[i] <= Sum(s)
  {
    if s != [] { SumNonneg(s[..|s| - 1]); }
  }

  /** Halving the unit: all lengths are below the top. */
  lemma KraftDown(s: seq<Leaf>, top: nat)
    requires top > 0 && Kraft(s, top) && Within(s, top - 1)
    ensures Kraft(s, top - 1)
  {
    SumScale(Shares(s, top - 1), 2, Shares(s, top));
  }

  /** Changing one length. */
  function Relength(s: seq<Leaf>, i: nat, l: nat): (t: seq<Leaf>)
    requires i < |s|
    ensures |t| == |s|
  {
    s[i := Leaf(s[i].w, l)]
  }

  lemma RelengthShares(s: seq<Leaf>, top: nat, i: nat, l: nat)
    requires Within(s, top) && i < |s| && l <= top
    ensures Within(Relength(s, i, l), top)
    ensures Sum(Shares(Relength(s, i, l), top)) == Sum(Shares(s, top)) - Pow2(top - s[i].l) + Pow2(top - l)
  {
    var t := Relength(s, i, l);
    assert Shares(t, top) == Shares(s, top)[i := Pow2(top - l)];
    SumUpdate(Shares(s, top), i, Pow2(top - l));
  }

  lemma RelengthCosts(s: seq<Leaf>, i: nat, l: nat)
    requires i < |s|
    ensures Sum(Costs(Relength(s, i, l))) == Sum(Costs(s)) - s[i].w * s[i].l + s[i].w * l
  {
    var t := Relength(s, i, l);
    assert Costs(t) == Costs(s)[i := s[i].w * l];
    SumUpdate(Costs(s), i, s[i].w * l);
  }

  lemma RelengthLengths(s: seq<Leaf>, i: nat, l: nat)
    requires i < |s|
    ensures Sum(LengthsIn(Relength(s, i, l))) == Sum(LengthsIn(s)) - s[i].l + l
    ensures Weights(Relength(s, i, l)) == Weights(s)
  {
    var t := Relength(s, i, l);
    assert LengthsIn(t) == LengthsIn(s)[i := l];
    SumUpdate(LengthsIn(s), i, l);
  }

  /** The lengths of i and p trade places. */
  function Swap(s: seq<Leaf>, i: nat, p: nat): (t: seq<Leaf>)
    requires i < |s| && p < |s| && i != p
    ensures |t| == |s| && t[i] == Leaf(s[i].w, s[p].l) && t[p] == Leaf(s[p].w, s[i].l)
    ensures forall k :: 0 <= k < |s| && k != i && k != p ==> t[k] == s[k]
  {
    Relength(Relength(s, i, s[p].l), p, s[i].l)
  }

  lemma SwapShares(s: seq<Leaf>, top: nat, i: nat, p: nat)
    requires Kraft(s, top) && i < |s| && p < |s| && i != p
    ensures Kraft(Swap(s, i, p), top)
  {
    hide Sum, Shares, Pow2;
    RelengthShares(s, top, i, s[p].l);
    RelengthShares(Relength(s, i, s[p].l), top, p, s[i].l);
  }

  lemma SwapWeights(s: seq<Leaf>, i: nat, p: nat)
    requires i < |s| && p < |s| && i != p
    ensures Weights(Swap(s, i, p)) == Weights(s)
  {
  }

  /** Giving the longer of two lengths to the lighter of two weights costs nothing. */
  lemma SwapCosts(s: seq<Leaf>, i: nat, p: nat)
    requires i < |s| && p < |s| && i != p
    requires s[i].w <= s[p].w && s[i].l <= s[p].l
    ensures Sum(Costs(Swap(s, i, p))) <= Sum(Costs(s))
  {
    RelengthCosts(s, i, s[p].l);
    RelengthCosts(Relength(s, i, s[p].l), p, s[i].l);
    Rearrange(s[i].w, s[p].w, s[i].l, s[p].l);
  }

  lemma Rearrange(v: nat, w: nat, l: nat, m: nat)
    requires v <= w && l <= m
    ensures v * m + w * l <= v * l + w * m
  {
    assert (w - v) * (m - l) >= 0;
    assert (w - v) * (m - l) == w * m - w * l - v * m + v * l;
  }

  /** The sum is odd when exactly one length reaches the top, and then that one can shrink. */
  lemma {:induction false} Parity(s: seq<Leaf>, top: nat, p: nat)
    requires Within(s, top) && p <= |s|
    requires forall i :: 0 <= i < |s| && i != p ==> s[i].l < top
    requires p < |s| ==> s[p].l == top
    ensures Sum(Shares(s, top)) % 2 == if p < |s| then 1 else 0
  {
    hide Shares;
    if s != [] {
      var n := |s| - 1;
      assert Shares(s, top)[..n] == Shares(s[..n], top);
      Parity(s[..n], top, if p < n then p else n);
    }
  }

  lemma DropShares(s: seq<Leaf>, top: nat, i: nat)
    requires Within(s, top) && i < |s|
    ensures Within(Without(s, i), top)
    ensures Sum(Shares(Without(s, i), top)) == Sum(Shares(s, top)) - Pow2(top - s[i].l)
  {
    assert Shares(Without(s, i), top) == Without(Shares(s, top), i);
    SumWithout(Shares(s, top), i);
  }

  lemma DropCosts(s: seq<Leaf>, i: nat)
    requires i < |s|
    ensures Sum(Costs(Without(s, i))) == Sum(Costs(s)) - s[i].w * s[i].l
  {
    assert Costs(Without(s, i)) == Without(Costs(s), i);
    SumWithout(Costs(s), i);
  }

  lemma DropWeights(s: seq<Leaf>, i: nat)
    requires i < |s|
    ensures multiset(Weights(Without(s, i))) == multiset(Weights(s)) - multiset{s[i].w}
  {
    assert Weights(Without(s, i)) == Without(Weights(s), i);
    DropMultiset(Weights(s), i);
  }

  lemma DropMultiset<T>(s: seq<T>, i: nat)
    requires i < |s|
    ensures multiset(Without(s, i)) == multiset(s) - multiset{s[i]}
  {
    assert s == s[..i] + [s[i]] + s[i + 1..];
  }

  /** s without i and j (i < j), and one item in their place. */
  function Merged(s: seq<Leaf>, i: nat, j: nat, x: Leaf): (t: seq<Leaf>)
    requires i < j < |s|
    ensures |t| == |s| - 1
  {
    Without(Without(s, j), i) + [x]
  }

  lemma WithoutAt(s: seq<Leaf>, i: nat, j: nat)
    requires i < j < |s|
    ensures Without(s, j)[i] == s[i]
  {
  }

  lemma MergedShares(s: seq<Leaf>, top: nat, i: nat, j: nat, x: Leaf)
    requires i < j < |s| && top > 0 && Kraft(s, top)
    requires s[i].l == s[j].l == top && x.l == top - 1
    ensures Kraft(Merged(s, i, j, x), top)
  {
    hide Sum;
    var v := Without(Without(s, j), i);
    DropShares(s, top, j);
    WithoutAt(s, i, j);
    DropShares(Without(s, j), top, i);
    assert Shares(v + [x], top) == Shares(v, top) + [Pow2(1)];
    SumSnoc(Shares(v, top), Pow2(1));
  }

  lemma MergedCosts(s: seq<Leaf>, i: nat, j: nat, x: Leaf)
    requires i < j < |s|
    ensures Sum(Costs(Merged(s, i, j, x))) == Sum(Costs(s)) - s[i].w * s[i].l - s[j].w * s[j].l + x.w * x.l
  {
    var v := Without(Without(s, j), i);
    DropCosts(s, j);
    WithoutAt(s, i, j);
    DropCosts(Without(s, j), i);
    assert Costs(v + [x]) == Costs(v) + [x.w * x.l];
    SumSnoc(Costs(v), x.w * x.l);
  }

  lemma MergedProduct(a: nat, b: nat, top: nat)
    requires top > 0
    ensures (a + b) * (top - 1) == a * top + b * top - (a + b)
  {
  }

  lemma MergedWeights(s: seq<Leaf>, i: nat, j: nat, x: Leaf)
    requires i < j < |s|
    ensures multiset(Weights(Merged(s, i, j, x)))
         == multiset(Weights(s)) - multiset{s[j].w} - multiset{s[i].w} + multiset{x.w}
  {
    var v := Without(Without(s, j), i);
    DropWeights(s, j);
    WithoutAt(s, i, j);
    DropWeights(Without(s, j), i);
    assert Weights(v + [x]) == Weights(v) + [x.w];
  }

  lemma LightestIndex(s: seq<Leaf>, except: nat) returns (i: nat)
    requires |s| >= 2
    ensures i < |s| && i != except
    ensures forall k :: 0 <= k < |s| && k != except ==> s[i].w <= s[k].w
  {
    i := if except == 0 then 1 else 0;
    for n := 0 to |s|
      invariant i < |s| && i != except
      invariant forall k :: 0 <= k < n && k != except ==> s[i].w <= s[k].w
    {
      if n != except && s[n].w < s[i].w { i := n; }
    }
  }

  lemma LongestIndex(s: seq<Leaf>, except: nat) returns (i: nat)
    requires |s| >= 2
    ensures i < |s| && i != except
    ensures forall k :: 0 <= k < |s| && k != except ==> s[k].l <= s[i].l
  {
    i := if except == 0 then 1 else 0;
    for n := 0 to |s|
      invariant i < |s| && i != except
      invariant forall k :: 0 <= k < n && k != except ==> s[k].l <= s[i].l
    {
      if n != except && s[n].l > s[i].l { i := n; }
    }
  }

  lemma TopIsPositive(s: seq<Leaf>, top: nat)
    requires |s| >= 2 && Kraft(s, top)
    ensures top > 0
  {
    var sh := Shares(s, top);
    if top == 0 {
      AtLeastLength(sh);
    }
  }

  lemma {:induction false} AtLeastLength(s: seq<int>)
    requires forall i :: 0 <= i < |s| ==> s[i] >= 1
    ensures Sum(s) >= |s|
  {
    if s != [] { AtLeastLength(s[..|s| - 1]); }
  }

  /** No lengths that satisfy Kraft's inequality beat Huffman's construction. */
  lemma {:induction false} HuffmanIsLeast(s: seq<Leaf>, top: nat)
    requires |s| > 0 && Kraft(s, top)
    ensures HuffmanCost(multiset(Weights(s))) <= Sum(Costs(s))
    decreases |s|, top, Sum(LengthsIn(s))
  {
    hide Sum, Shares, Weights, Least, Pow2, Joined;
    SumNonneg(LengthsIn(s));
    if |s| == 1 {
      SumNonneg(Costs(s));
    } else if top > 0 && Within(s, top - 1) {
      KraftDown(s, top);
      HuffmanIsLeast(s, top - 1);
    } else {
      TopIsPositive(s, top);
      var p := LongestIndex(s, |s|);
      var q := LongestIndex(s, p);
      assert s[p].l == top;
      if s[q].l < top {
        HuffmanShrinks(s, top, p);
      } else {
        HuffmanMerges(s, top, p, q);
      }
    }
  }

  /** A longest code without a partner has room to lose a bit. */
  lemma LoneLongest(s: seq<Leaf>, top: nat, p: nat)
    requires Kraft(s, top) && top > 0 && p < |s| && s[p].l == top
    requires forall k :: 0 <= k < |s| && k != p ==> s[k].l < top
    ensures Kraft(Relength(s, p, top - 1), top)
  {
    Parity(s, top, p);
    RelengthShares(s, top, p, top - 1);
    OddSum(Sum(Shares(s, top)), top);
  }

  lemma OddSum(sum: int, top: nat)
    requires sum % 2 == 1 && sum <= Pow2(top) && top > 0
    ensures sum - Pow2(0) + Pow2(1) <= Pow2(top)
  {
  }

  lemma ShorterIsCheaper(s: seq<Leaf>, p: nat, l: nat)
    requires p < |s| && l < s[p].l
    ensures var t := Relength(s, p, l);
            && Weights(t) == Weights(s)
            && Sum(Costs(t)) <= Sum(Costs(s)) && 0 <= Sum(LengthsIn(t)) < Sum(LengthsIn(s))
  {
    RelengthCosts(s, p, l);
    RelengthLengths(s, p, l);
    MulMono(l, s[p].l, s[p].w);
    SumNonneg(LengthsIn(Relength(s, p, l)));
  }

  lemma {:induction false} HuffmanShrinks(s: seq<Leaf>, top: nat, p: nat)
    requires Kraft(s, top) && top > 0 && p < |s| && s[p].l == top
    requires forall k :: 0 <= k < |s| && k != p ==> s[k].l < top
    ensures HuffmanCost(multiset(Weights(s))) <= Sum(Costs(s))
    decreases |s|, top, Sum(LengthsIn(s)), 0
  {
    LoneLongest(s, top, p);
    ShorterIsCheaper(s, p, top - 1);
    HuffmanIsLeast(Relength(s, p, top - 1), top);
  }

  lemma {:induction false} HuffmanMerges(s: seq<Leaf>, top: nat, p: nat, q: nat)
    requires |s| >= 2 && Kraft(s, top) && top > 0
    requires p < |s| && q < |s| && p != q && s[p].l == s[q].l == top
    ensures HuffmanCost(multiset(Weights(s))) <= Sum(Costs(s))
    decreases |s|, top, 0, 2
  {
    var i := LightestIndex(s, |s|);
    var j := LightestIndex(s, i);
    var t := LiftPair(s, top, p, q, i, j);
    SameWeights(s, t);
    FusedEither(t, top, i, j);
    LightestCost(s, i, j);
  }

  lemma LightestCost(s: seq<Leaf>, i: nat, j: nat)
    requires i < |s| && j < |s| && i != j
    requires forall k :: 0 <= k < |s| ==> s[i].w <= s[k].w
    requires forall k :: 0 <= k < |s| && k != i ==> s[j].w <= s[k].w
    ensures var ws := multiset(Weights(s));
            HuffmanCost(ws) == s[i].w + s[j].w + HuffmanCost(Joined(ws, s[i].w, s[j].w))
  {
    LightestPair(Weights(s), i, j);
    MergeLightest(multiset(Weights(s)), s[i].w, s[j].w);
  }

  lemma {:induction false} FusedEither(s: seq<Leaf>, top: nat, i: nat, j: nat)
    requires i < |s| && j < |s| && i != j && top > 0 && Kraft(s, top) && s[i].l == s[j].l == top
    ensures HuffmanCost(Joined(multiset(Weights(s)), s[i].w, s[j].w)) + (s[i].w + s[j].w) <= Sum(Costs(s))
    decreases |s|, top, 0, 1
  {
    if i < j {
      FusedIsLeast(s, top, i, j);
    } else {
      FusedIsLeast(s, top, j, i);
      JoinedEither(multiset(Weights(s)), s[i].w, s[j].w);
    }
  }

  function Fused(s: seq<Leaf>, top: nat, i: nat, j: nat): (u: seq<Leaf>)
    requires i < j < |s| && top > 0
    ensures |u| == |s| - 1
  {
    Merged(s, i, j, Leaf(s[i].w + s[j].w, top - 1))
  }

  lemma FusedCosts(s: seq<Leaf>, top: nat, i: nat, j: nat)
    requires i < j < |s| && top > 0 && s[i].l == s[j].l == top
    ensures Sum(Costs(Fused(s, top, i, j))) == Sum(Costs(s)) - (s[i].w + s[j].w)
  {
    MergedCosts(s, i, j, Leaf(s[i].w + s[j].w, top - 1));
    MergedProduct(s[i].w, s[j].w, top);
  }

  lemma FusedWeights(s: seq<Leaf>, top: nat, i: nat, j: nat)
    requires i < j < |s| && top > 0
    ensures multiset(Weights(Fused(s, top, i, j))) == Joined(multiset(Weights(s)), s[i].w, s[j].w)
  {
    hide Weights, Joined, Merged;
    MergedJoined(s, i, j, Leaf(s[i].w + s[j].w, top - 1), s[i].w, s[j].w);
  }

  lemma MergedJoined(s: seq<Leaf>, i: nat, j: nat, x: Leaf, a: nat, b: nat)
    requires i < j < |s| && a == s[i].w && b == s[j].w && x.w == a + b
    ensures multiset(Weights(Merged(s, i, j, x))) == Joined(multiset(Weights(s)), a, b)
  {
    hide Weights, Joined, Merged;
    MergedWeights(s, i, j, x);
    JoinedFrom(multiset(Weights(s)), multiset(Weights(Merged(s, i, j, x))), a, b, x.w);
  }

  lemma JoinedFrom(ws: multiset<nat>, vs: multiset<nat>, a: nat, b: nat, c: nat)
    requires c == a + b && vs == ws - multiset{b} - multiset{a} + multiset{c}
    ensures vs == Joined(ws, a, b)
  {
    hide Joined;
    TakenEither(ws, a, b);
    JoinedIs(ws, a, b, c);
  }

  lemma TakenEither(ws: multiset<nat>, a: nat, b: nat)
    ensures ws - multiset{b} - multiset{a} == ws - multiset{a} - multiset{b}
  {
  }

  lemma JoinedIs(ws: multiset<nat>, a: nat, b: nat, c: nat)
    requires c == a + b
    ensures Joined(ws, a, b) == ws - multiset{a} - multiset{b} + multiset{c}
  {
    assert multiset{a + b} == multiset{c};
  }

  lemma {:induction false} FusedIsLeast(s: seq<Leaf>, top: nat, i: nat, j: nat)
    requires i < j < |s| && top > 0 && Kraft(s, top) && s[i].l == s[j].l == top
    ensures HuffmanCost(Joined(multiset(Weights(s)), s[i].w, s[j].w)) + (s[i].w + s[j].w) <= Sum(Costs(s))
    decreases |s|, top, 0, 0
  {
    MergedShares(s, top, i, j, Leaf(s[i].w + s[j].w, top - 1));
    FusedCosts(s, top, i, j);
    FusedWeights(s, top, i, j);
    HuffmanIsLeast(Fused(s, top, i, j), top);
  }

  lemma JoinedEither(ws: multiset<nat>, a: nat, b: nat)
    ensures Joined(ws, a, b) == Joined(ws, b, a)
  {
  }

  lemma SameWeights(s: seq<Leaf>, t: seq<Leaf>)
    requires Weights(s) == Weights(t)
    ensures |s| == |t| && forall k :: 0 <= k < |s| ==> s[k].w == t[k].w
  {
    assert forall k :: 0 <= k < |s| ==> s[k].w == Weights(s)[k];
  }

  /** Both lightest weights can be given the greatest length. */
  lemma LiftPair(s: seq<Leaf>, top: nat, p: nat, q: nat, i: nat, j: nat) returns (t: seq<Leaf>)
    requires Kraft(s, top) && i < |s| && j < |s| && i != j
    requires p < |s| && q < |s| && p != q && s[p].l == s[q].l == top
    requires forall k :: 0 <= k < |s| ==> s[i].w <= s[k].w
    requires forall k :: 0 <= k < |s| && k != i ==> s[j].w <= s[k].w
    ensures Kraft(t, top) && |t| == |s| && Weights(t) == Weights(s)
    ensures Sum(Costs(t)) <= Sum(Costs(s))
    ensures t[i].l == t[j].l == top
  {
    var p' := if p == j then q else p;
    var u := LiftOne(s, top, i, p');
    SameWeights(s, u);
    // some index other than i still has the greatest length
    var r := if s[i].l == top then (if p == i then q else p)
             else if p' == p then q else p;
    t := LiftOne(u, top, j, r);
  }

  lemma LiftOne(s: seq<Leaf>, top: nat, i: nat, p: nat) returns (t: seq<Leaf>)
    requires Kraft(s, top) && i < |s| && p < |s| && s[p].l == top && s[i].w <= s[p].w
    ensures Kraft(t, top) && |t| == |s| && Weights(t) == Weights(s)
    ensures Sum(Costs(t)) <= Sum(Costs(s))
    ensures t[i].l == top
    ensures forall k :: 0 <= k < |s| && k != i && k != p ==> t[k] == s[k]
    ensures s[i].l == top ==> t == s
  {
    if s[i].l == top {
      t := s;
    } else {
      t := Swap(s, i, p);
      SwapShares(s, top, i, p);
      SwapCosts(s, i, p);
      SwapWeights(s, i, p);
    }
  }

  lemma LightestPair(ws: seq<nat>, i: nat, j: nat)
    requires i < |ws| && j < |ws| && i != j
    requires forall k :: 0 <= k < |ws| ==> ws[i] <= ws[k]
    requires forall k :: 0 <= k < |ws| && k != i ==> ws[j] <= ws[k]
    ensures LightestTwo(multiset(ws), ws[i], ws[j])
  {
    hide Without;
    DropMultiset(ws, i);
    LightestOther(ws, i, j);
    LightestNow(ws, Without(ws, i), ws[i], ws[j]);
  }

  lemma LightestOther(ws: seq<nat>, i: nat, j: nat)
    requires i < |ws| && j < |ws| && i != j
    requires forall k :: 0 <= k < |ws| && k != i ==> ws[j] <= ws[k]
    ensures ws[j] in Without(ws, i) && forall x :: x in Without(ws, i) ==> ws[j] <= x
  {
    var rest := Without(ws, i);
    assert ws[j] == rest[if j < i then j else j - 1];
    forall x | x in rest
      ensures ws[j] <= x
    {
      var k :| 0 <= k < |rest| && rest[k] == x;
      assert x == ws[if k < i then k else k + 1];
    }
  }

  lemma LightestNow(ws: seq<nat>, rest: seq<nat>, a: nat, b: nat)
    requires a in ws && (forall x :: x in ws ==> a <= x) && multiset(rest) == multiset(ws) - multiset{a}
    requires b in rest && forall x :: x in rest ==> b <= x
    ensures LightestTwo(multiset(ws), a, b)
  {
    var others := multiset(ws) - multiset{a};
    assert a in multiset(ws) && b in multiset(rest);
    forall x | x in multiset(ws)
      ensures a <= x
    {
      assert x in ws;
    }
    forall x | x in others
      ensures b <= x
    {
      assert x in multiset(rest);
      assert x in rest;
    }
  }
}
