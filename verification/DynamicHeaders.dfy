/** The header of a dynamic block: what send_all_trees sends is what the decoder reads. */
module DynamicHeaders {
  import opened Optionals
  import opened Bits
  import opened Rfc1951
  import opened PrefixCodes
  import opened RunLengths
  import opened TreeHeaders

  /** The place of each symbol in the order of section 3.2.7. */
  function CodeLengthRank(s: nat): (r: nat)
    requires s < 19
    ensures r < 19
  {
    match s
    case 0 => 3 case 1 => 17 case 2 => 15 case 3 => 13 case 4 => 11 case 5 => 9 case 6 => 7
    case 7 => 5 case 8 => 4 case 9 => 6 case 10 => 8 case 11 => 10 case 12 => 12 case 13 => 14
    case 14 => 16 case 15 => 18 case 16 => 0 case 17 => 1 case _ => 2
  }

  lemma RankOfOrder(i: nat)
    requires i < 19
    ensures CodeLengthRank(CodeLengthOrder(i)) == i
  {
  }

  lemma OrderOfRank(s: nat)
    requires s < 19
    ensures CodeLengthOrder(CodeLengthRank(s)) == s
  {
  }

  /** The length sent in place i. */
  function Ranked(clens: seq<nat>, i: nat): nat
    requires |clens| == 19 && i < 19
  {
    clens[CodeLengthOrder(i)]
  }

  /** Nothing but zeros from place n on. */
  ghost predicate NoneFrom(clens: seq<nat>, n: nat) {
    |clens| == 19 && forall j :: n <= j < 19 ==> Ranked(clens, j) == 0
  }

  function LensBits(clens: seq<nat>, n: nat): (s: seq<bool>)
    requires |clens| == 19 && n <= 19
    ensures |s| == 3 * n
  {
    if n == 0 then [] else LensBits(clens, n - 1) + LsbBits(Ranked(clens, n - 1), 3)
  }

  /** The lengths in places before i have been read, the others are zero still. */
  ghost predicate ReadUpTo(lens: seq<nat>, clens: seq<nat>, i: nat) {
    && |lens| == |clens| == 19
    && forall j :: 0 <= j < 19 ==> Ranked(lens, j) == if j < i then Ranked(clens, j) else 0
  }

  lemma ReadOneMore(lens: seq<nat>, clens: seq<nat>, i: nat, next: nat)
    requires ReadUpTo(lens, clens, i) && i < 19 && next == i + 1
    ensures ReadUpTo(lens[CodeLengthOrder(i) := Ranked(clens, i)], clens, next)
  {
    RankOfOrder(i);
    var e := lens[CodeLengthOrder(i) := Ranked(clens, i)];
    forall j | 0 <= j < 19
      ensures Ranked(e, j) == if j < next then Ranked(clens, j) else 0
    {
      RankOfOrder(j);
    }
  }

  lemma ReadEnd(lens: seq<nat>, clens: seq<nat>, n: nat)
    requires ReadUpTo(lens, clens, n) && NoneFrom(clens, n)
    ensures lens == clens
  {
    forall s | 0 <= s < 19
      ensures lens[s] == clens[s]
    {
      OrderOfRank(s);
      assert Ranked(lens, CodeLengthRank(s)) == Ranked(clens, CodeLengthRank(s));
    }
  }

  /** Three-bit lengths. */
  ghost predicate Short(clens: seq<nat>) {
    |clens| == 19 && forall s :: 0 <= s < 19 ==> clens[s] < 8
  }

  lemma {:induction false} LensAt(bits: seq<bool>, pos: nat, clens: seq<nat>, i: nat, n: nat)
    requires |clens| == 19 && i < n <= 19 && At(bits, pos, LensBits(clens, n))
    ensures At(bits, pos + 3 * i, LsbBits(Ranked(clens, i), 3))
    decreases n
  {
    AtSplit(bits, pos, LensBits(clens, n - 1), LsbBits(Ranked(clens, n - 1), 3));
    if i < n - 1 { LensAt(bits, pos, clens, i, n - 1); }
  }

  lemma RankedShort(clens: seq<nat>, i: nat)
    requires Short(clens) && i < 19
    ensures Ranked(clens, i) < Pow2(3)
  {
    RankOfOrder(i);
    assert Pow2(3) == 8;
  }

  lemma {:induction false} LensDecode(bits: seq<bool>, pos: nat, clens: seq<nat>, i: nat, n: nat, lens: seq<nat>, here: nat)
    requires Short(clens) && i <= n <= 19 && here == pos + 3 * i
    requires At(bits, pos, LensBits(clens, n)) && ReadUpTo(lens, clens, i)
    requires NoneFrom(clens, n)
    ensures DecodeCodeLengthLens(bits, here, i, n, lens) == Some(clens)
    decreases n - i
  {
    if i == n {
      ReadEnd(lens, clens, n);
    } else {
      LensAt(bits, pos, clens, i, n);
      RankedShort(clens, i);
      ReadLsb(bits, here, Ranked(clens, i), 3);
      ReadOneMore(lens, clens, i, i + 1);
      LensDecode(bits, pos, clens, i + 1, n, lens[CodeLengthOrder(i) := Ranked(clens, i)], here + 3);
    }
  }

  // ----- the header as a whole

  /** Lengths that there are codes to send with. */
  ghost predicate Shaped(llens: seq<nat>, dlens: seq<nat>, clens: seq<nat>, n: nat) {
    && 257 <= |llens| <= 286 && 1 <= |dlens| <= 30 && 4 <= n <= 19
    && Sendable(clens, Items(llens)) && Sendable(clens, Items(dlens))
  }

  /** Lengths that a dynamic block can announce. */
  ghost predicate Announceable(llens: seq<nat>, dlens: seq<nat>, clens: seq<nat>, n: nat) {
    && Shaped(llens, dlens, clens, n)
    && Complete(llens) && Complete(dlens) && Complete(clens)
    && Short(clens) && NoneFrom(clens, n)
  }

  /** The three counts, five, five and four bits wide. */
  function CountBits(hlit: nat, hdist: nat, hclen: nat): (s: seq<bool>)
    ensures |s| == 14
  {
    LsbBits(hlit, 5) + LsbBits(hdist, 5) + LsbBits(hclen, 4)
  }

  ghost function TreeBits(llens: seq<nat>, dlens: seq<nat>, clens: seq<nat>): seq<bool>
    requires |llens| > 0 && |dlens| > 0
    requires Sendable(clens, Items(llens)) && Sendable(clens, Items(dlens))
  {
    ItemsBits(clens, Items(llens)) + ItemsBits(clens, Items(dlens))
  }

  ghost function HeaderBits(llens: seq<nat>, dlens: seq<nat>, clens: seq<nat>, n: nat): seq<bool>
    requires Shaped(llens, dlens, clens, n)
  {
    CountBits(|llens| - 257, |dlens| - 1, n - 4) + (LensBits(clens, n) + TreeBits(llens, dlens, clens))
  }

  lemma HeaderSize(llens: seq<nat>, dlens: seq<nat>, clens: seq<nat>, n: nat)
    requires Shaped(llens, dlens, clens, n)
    ensures |HeaderBits(llens, dlens, clens, n)| == 14 + 3 * n + |TreeBits(llens, dlens, clens)|
  {
  }

  /** The parts sent one after the other make up the header. */
  lemma HeaderJoins(start: seq<bool>, llens: seq<nat>, dlens: seq<nat>, clens: seq<nat>, n: nat)
    requires Shaped(llens, dlens, clens, n)
    ensures start + (CountBits(|llens| - 257, |dlens| - 1, n - 4) + LensBits(clens, n)) + TreeBits(llens, dlens, clens)
         == start + HeaderBits(llens, dlens, clens, n)
  {
    var c, l, t := CountBits(|llens| - 257, |dlens| - 1, n - 4), LensBits(clens, n), TreeBits(llens, dlens, clens);
    Assoc(start, c + l, t);
    Assoc(c, l, t);
  }

  lemma CountsDecode(bits: seq<bool>, pos: nat, hlit: nat, hdist: nat, hclen: nat)
    requires hlit <= 29 && hdist < 32 && hclen <= 15
    requires At(bits, pos, CountBits(hlit, hdist, hclen))
    ensures DecodeCounts(bits, pos) == Some(Counts(hlit + 257, hdist + 1, hclen + 4))
  {
    AtSplit(bits, pos, LsbBits(hlit, 5) + LsbBits(hdist, 5), LsbBits(hclen, 4));
    AtSplit(bits, pos, LsbBits(hlit, 5), LsbBits(hdist, 5));
    assert Pow2(5) == 32 && Pow2(4) == 16;
    ReadLsb(bits, pos, hlit, 5);
    ReadLsb(bits, pos + 5, hdist, 5);
    ReadLsb(bits, pos + 10, hclen, 4);
  }

  lemma CompleteLens(lens: seq<nat>)
    requires Complete(lens)
    ensures Lengths(lens) && Bounded(lens) && Space(lens) <= Pow2(MAX_BITS)
  {
  }

  lemma BothMean(llens: seq<nat>, dlens: seq<nat>)
    requires |llens| > 0 && |dlens| > 0 && Lengths(llens) && Lengths(dlens)
    ensures Unroll([], Items(llens) + Items(dlens)) == Some(llens + dlens)
  {
    ItemsMean([], llens);
    ItemsMean(llens, dlens);
    assert [] + llens == llens;
    UnrollAppend([], Items(llens), Items(dlens));
  }

  /** Both trees' lengths, one after the other. */
  lemma TreesDecode(bits: seq<bool>, pos: nat, llens: seq<nat>, dlens: seq<nat>, clens: seq<nat>, end: nat)
    requires |llens| > 0 && |dlens| > 0 && Lengths(llens) && Lengths(dlens)
    requires Bounded(clens) && Space(clens) <= Pow2(MAX_BITS)
    requires Sendable(clens, Items(llens)) && Sendable(clens, Items(dlens))
    requires At(bits, pos, TreeBits(llens, dlens, clens)) && end == pos + |TreeBits(llens, dlens, clens)|
    ensures DecodeLens(clens, bits, pos, [], |llens| + |dlens|) == Some((end, llens + dlens))
  {
    hide Pow2, DecodeLens, ReadBits, Repeats, RepeatExtra, At;
    var a, b := Items(llens), Items(dlens);
    BothMean(llens, dlens);
    ItemsBitsAppend(clens, a, b);
    ItemsDecode(clens, bits, pos, [], a + b, llens + dlens, |llens| + |dlens|, end);
  }

  lemma HeaderParts(bits: seq<bool>, pos: nat, llens: seq<nat>, dlens: seq<nat>, clens: seq<nat>, n: nat)
    requires Shaped(llens, dlens, clens, n)
    requires At(bits, pos, HeaderBits(llens, dlens, clens, n))
    ensures At(bits, pos, CountBits(|llens| - 257, |dlens| - 1, n - 4))
    ensures At(bits, pos + 14, LensBits(clens, n))
    ensures At(bits, pos + 14 + 3 * n, TreeBits(llens, dlens, clens))
    ensures |HeaderBits(llens, dlens, clens, n)| == 14 + 3 * n + |TreeBits(llens, dlens, clens)|
  {
    hide At, CountBits;
    AtSplit(bits, pos, CountBits(|llens| - 257, |dlens| - 1, n - 4), LensBits(clens, n) + TreeBits(llens, dlens, clens));
    AtSplit(bits, pos + 14, LensBits(clens, n), TreeBits(llens, dlens, clens));
  }

  lemma NothingRead(zeros: seq<nat>, clens: seq<nat>)
    requires |clens| == 19 && |zeros| == 19 && forall s :: 0 <= s < 19 ==> zeros[s] == 0
    ensures ReadUpTo(zeros, clens, 0)
  {
    forall j | 0 <= j < 19
      ensures Ranked(zeros, j) == 0
    {
      RankOfOrder(j);
    }
  }

  lemma ClensDecode(bits: seq<bool>, pos: nat, clens: seq<nat>, n: nat)
    requires Short(clens) && n <= 19 && Complete(clens)
    requires At(bits, pos, LensBits(clens, n))
    requires NoneFrom(clens, n)
    ensures DecodeClens(bits, pos, n) == Some(clens)
  {
    var zeros: seq<nat> := seq(19, _ => 0);
    NothingRead(zeros, clens);
    LensDecode(bits, pos, clens, 0, n, zeros, pos);
  }

  lemma LensSplit(pos: nat, llens: seq<nat>, dlens: seq<nat>)
    requires Complete(llens) && Complete(dlens)
    ensures SplitLens(pos, llens + dlens, |llens|) == Some(Trees(pos, llens, dlens))
  {
    assert (llens + dlens)[..|llens|] == llens && (llens + dlens)[|llens|..] == dlens;
  }

  lemma BothDecode(bits: seq<bool>, from: nat, llens: seq<nat>, dlens: seq<nat>, clens: seq<nat>, c: Counts, end: nat)
    requires |llens| > 0 && |dlens| > 0 && Complete(llens) && Complete(dlens) && Complete(clens)
    requires Sendable(clens, Items(llens)) && Sendable(clens, Items(dlens))
    requires c.hlit == |llens| && c.hdist == |dlens|
    requires At(bits, from, TreeBits(llens, dlens, clens)) && end == from + |TreeBits(llens, dlens, clens)|
    ensures DecodeBoth(bits, from, clens, c) == Some(Trees(end, llens, dlens))
  {
    hide At, Sendable, TreeBits, Complete, Items, DecodeBoth, SplitLens, DecodeLens, Bounded, Space;
    CompleteLens(llens);
    CompleteLens(dlens);
    CompleteLens(clens);
    TreesDecode(bits, from, llens, dlens, clens, end);
    LensSplit(end, llens, dlens);
    DecodeBothIs(bits, from, clens, c, llens + dlens, end, Trees(end, llens, dlens));
  }

  lemma DecodeBothIs(bits: seq<bool>, from: nat, clens: seq<nat>, c: Counts, lens: seq<nat>, end: nat, t: Trees)
    requires DecodeLens(clens, bits, from, [], c.hlit + c.hdist) == Some((end, lens)) && end <= |bits|
    requires SplitLens(end, lens, c.hlit) == Some(t)
    ensures DecodeBoth(bits, from, clens, c) == Some(t)
  {
    hide DecodeLens;
  }

  lemma DecodeTreesIs(bits: seq<bool>, pos: nat, c: Counts, clens: seq<nat>, from: nat, t: Trees)
    requires DecodeCounts(bits, pos) == Some(c) && c.hclen <= 19
    requires DecodeClens(bits, pos + 14, c.hclen) == Some(clens)
    requires from == pos + 14 + 3 * c.hclen && DecodeBoth(bits, from, clens, c) == Some(t)
    ensures DecodeTrees(bits, pos) == Some(t)
  {
  }

  lemma HeaderCounts(bits: seq<bool>, pos: nat, llens: seq<nat>, dlens: seq<nat>, clens: seq<nat>, n: nat)
    requires Shaped(llens, dlens, clens, n) && At(bits, pos, HeaderBits(llens, dlens, clens, n))
    ensures DecodeCounts(bits, pos) == Some(Counts(|llens|, |dlens|, n))
  {
    hide At, HeaderBits, Sendable, CountBits, TreeBits, LensBits, DecodeCounts, Complete;
    HeaderParts(bits, pos, llens, dlens, clens, n);
    CountsDecode(bits, pos, |llens| - 257, |dlens| - 1, n - 4);
  }

  lemma HeaderClens(bits: seq<bool>, pos: nat, llens: seq<nat>, dlens: seq<nat>, clens: seq<nat>, n: nat)
    requires Announceable(llens, dlens, clens, n) && At(bits, pos, HeaderBits(llens, dlens, clens, n))
    ensures DecodeClens(bits, pos + 14, n) == Some(clens)
  {
    HeaderParts(bits, pos, llens, dlens, clens, n);
    ClensDecode(bits, pos + 14, clens, n);
  }

  lemma HeaderBoth(bits: seq<bool>, pos: nat, llens: seq<nat>, dlens: seq<nat>, clens: seq<nat>, n: nat, from: nat, end: nat)
    requires Announceable(llens, dlens, clens, n) && At(bits, pos, HeaderBits(llens, dlens, clens, n))
    requires from == pos + 14 + 3 * n && end == pos + |HeaderBits(llens, dlens, clens, n)|
    ensures DecodeBoth(bits, from, clens, Counts(|llens|, |dlens|, n)) == Some(Trees(end, llens, dlens))
  {
    hide DecodeBoth, Complete, DecodeLens, TreeBits;
    HeaderParts(bits, pos, llens, dlens, clens, n);
    BothDecode(bits, from, llens, dlens, clens, Counts(|llens|, |dlens|, n), end);
  }

  /** The decoder reads from the header exactly the lengths that were announced. */
  lemma HeaderDecodes(bits: seq<bool>, pos: nat, llens: seq<nat>, dlens: seq<nat>, clens: seq<nat>, n: nat, end: nat)
    requires Announceable(llens, dlens, clens, n)
    requires At(bits, pos, HeaderBits(llens, dlens, clens, n)) && end == pos + |HeaderBits(llens, dlens, clens, n)|
    ensures DecodeTrees(bits, pos) == Some(Trees(end, llens, dlens))
  {
    var c, from := Counts(|llens|, |dlens|, n), pos + 14 + 3 * n;
    HeaderCounts(bits, pos, llens, dlens, clens, n);
    HeaderClens(bits, pos, llens, dlens, clens, n);
    HeaderBoth(bits, pos, llens, dlens, clens, n, from, end);
    DecodeTreesIs(bits, pos, c, clens, from, Trees(end, llens, dlens));
  }
}
