/** ct_init: the tables that map lengths and distances to codes, and the static trees. */
module CtInit {
  import opened Bits
  import opened Rfc1951
  import opened PrefixCodes
  import opened Heaps
  import opened Trees
  import opened AfterPass
  import opened CanonicalCodes
  import opened RunLengths
  import opened TreeScans
  import opened Tokens
  import opened FixedCodes

  // ----- lengths

  lemma {:induction false} LengthMono(a: nat, b: nat)
    requires a <= b < 28
    ensures LengthBase(a) <= LengthBase(b)
    decreases b - a
  {
    if a < b {
      LengthMono(a, b - 1);
      LengthRange(b - 1);
    }
  }

  /** A length in the range of code c has that code. */
  lemma {:induction false} LenSymIs(l: nat, c: nat, k: nat)
    requires c <= k < 28 && LengthBase(c) <= l + 3 < LengthBase(c) + Pow2(LengthExtra(c))
    ensures LenSymFrom(l, k) == c
  {
    hide LengthBase, LengthExtra;
    LengthRange(c);
    if k > c {
      LengthMono(c + 1, k);
      LenSymIs(l, c, k - 1);
    }
  }

  /** Lengths below n + 3 have their codes, the first k codes their least lengths. */
  ghost predicate LengthsSet(codes: seq<byte>, bases: seq<nat>, n: nat, k: nat) {
    && |codes| == 256 && |bases| == 29 && n <= 256 && k <= 28
    && (forall l :: 0 <= l < n ==> codes[l] == LenSymFrom(l, 27))
    && (forall c :: 0 <= c < k ==> bases[c] + 3 == LengthBase(c))
  }

  /** All tables of lengths are right. */
  ghost predicate LengthTables(codes: seq<byte>, bases: seq<nat>) {
    && |codes| == 256 && |bases| == 29
    && (forall l :: 0 <= l < 256 ==> codes[l] == LenSym(l))
    && (forall c :: 0 <= c < 28 ==> bases[c] + 3 == LengthBase(c))
  }

  lemma LengthSet(codes: seq<byte>, bases: seq<nat>, n: nat, next: nat, k: nat, c: byte)
    requires LengthsSet(codes, bases, n, k) && n < 256 && next == n + 1
    requires c < 28 && LengthBase(c) <= n + 3 < LengthBase(c) + Pow2(LengthExtra(c))
    ensures LengthsSet(codes[n := c], bases, next, k)
  {
    hide LengthBase, LengthExtra;
    LenSymIs(n, c, 27);
  }

  /** Where code c's lengths begin in the table, and where they end. */
  lemma LengthEnds(c: nat)
    requires c < 28
    ensures LengthBase(c) >= 3 && LengthBase(c) + Pow2(LengthExtra(c)) <= 259
    ensures c < 27 ==> LengthBase(c) + Pow2(LengthExtra(c)) == LengthBase(c + 1)
    ensures c == 27 ==> LengthBase(c) + Pow2(LengthExtra(c)) == 259
  {
    hide LengthBase, LengthExtra;
    LengthRange(c);
    LengthMono(0, c);
    LengthMono(c, 27);
    if c < 27 { LengthMono(c + 1, 27); }
    LengthRange(27);
    LengthRange(0);
  }

  /** The lengths of one code. */
  method FillLengths(lengthCode: array<byte>, baseLength: array<nat>, length0: nat, code: byte) returns (length: nat)
    requires code < 28 && length0 + 3 == LengthBase(code)
    requires LengthsSet(lengthCode[..], baseLength[..], length0, code + 1)
    modifies lengthCode
    ensures LengthsSet(lengthCode[..], baseLength[..], length, code + 1)
    ensures length + 3 == LengthBase(code) + Pow2(LengthExtra(code))
  {
    hide LengthBase, LengthExtra;
    LengthEnds(code);
    length := length0;
    var n, top := 0, Pow2(LengthExtra(code));
    while n < top
      invariant 0 <= n <= top && length == length0 + n
      invariant LengthsSet(lengthCode[..], baseLength[..], length, code + 1)
    {
      ghost var was := lengthCode[..];
      lengthCode[length] := code;
      assert lengthCode[..] == was[length := code];
      LengthSet(was, baseLength[..], length, length + 1, code + 1, code);
      length := length + 1;
      n := n + 1;
    }
  }

  lemma BaseSet(codes: seq<byte>, bases: seq<nat>, n: nat, c: nat, next: nat)
    requires LengthsSet(codes, bases, n, c) && c < 28 && n + 3 == LengthBase(c) && next == c + 1
    ensures LengthsSet(codes, bases[c := n], n, next)
  {
    hide LengthBase;
  }

  lemma LengthsDone(codes: seq<byte>, bases: seq<nat>)
    requires LengthsSet(codes, bases, 256, 28)
    ensures LengthTables(codes[255 := 28], bases)
  {
    hide LengthBase, LenSymFrom;
  }

  /** Fills in the length code of each match length less 3, and the least length of each code. */
  method InitLengths(lengthCode: array<byte>, baseLength: array<nat>)
    requires lengthCode.Length == 256 && baseLength.Length == 29
    modifies lengthCode, baseLength
    ensures LengthTables(lengthCode[..], baseLength[..])
  {
    hide LengthBase, LengthExtra;
    LengthEnds(0);
    LengthRange(0);
    var length, code := 0, 0;
    while code < 28
      invariant 0 <= code <= 28
      invariant LengthsSet(lengthCode[..], baseLength[..], length, code)
      invariant code < 28 ==> length + 3 == LengthBase(code)
      invariant code == 28 ==> length == 256
    {
      ghost var was := baseLength[..];
      baseLength[code] := length;
      assert baseLength[..] == was[code := length];
      BaseSet(lengthCode[..], was, length, code, code + 1);
      length := FillLengths(lengthCode, baseLength, length, code);
      LengthEnds(code);
      code := code + 1;
    }
    ghost var c := lengthCode[..];
    LengthsDone(c, baseLength[..]);
    lengthCode[length - 1] := code;
    assert lengthCode[..] == c[255 := 28];
  }

  // ----- distances

  lemma {:induction false} DistMono(a: nat, b: nat)
    requires a <= b < 30
    ensures DistBase(a) <= DistBase(b)
    decreases b - a
  {
    if a < b {
      DistMono(a, b - 1);
      DistRange(b - 1);
    }
  }

  lemma {:induction false} DistSymIs(d: nat, c: nat, k: nat)
    requires c <= k < 30 && DistBase(c) <= d + 1 < DistBase(c) + Pow2(DistExtra(c))
    ensures DistSymFrom(d, k) == c
  {
    hide DistBase, DistExtra;
    DistRange(c);
    if k > c {
      DistMono(c + 1, k);
      DistSymIs(d, c, k - 1);
    }
  }

  /** The first n entries serve one distance each, entries 256 + 2 up to 256 + m serve 128 distances each;
      the first k codes have their least distances. */
  ghost predicate DistsSet(codes: seq<byte>, bases: seq<nat>, n: nat, m: nat, k: nat) {
    && |codes| == 512 && |bases| == 30 && n <= 256 && m <= 256 && k <= 30
    && (forall d :: 0 <= d < n ==> codes[d] == DistSym(d))
    && (forall j :: 2 <= j < m ==> Upper(codes, j))
    && (forall c :: 0 <= c < k ==> bases[c] + 1 == DistBase(c))
  }

  ghost predicate Upper(codes: seq<byte>, j: nat)
    requires |codes| == 512 && j < 256
  {
    forall d :: 128 * j <= d < 128 * j + 128 ==> codes[256 + j] == DistSym(d)
  }

  ghost predicate DistTables(codes: seq<byte>, bases: seq<nat>) {
    DistsSet(codes, bases, 256, 256, 30)
  }

  lemma LowerSet(codes: seq<byte>, bases: seq<nat>, n: nat, next: nat, k: nat, c: byte)
    requires DistsSet(codes, bases, n, 2, k) && n < 256 && next == n + 1
    requires c < 30 && DistBase(c) <= n + 1 < DistBase(c) + Pow2(DistExtra(c))
    ensures DistsSet(codes[n := c], bases, next, 2, k)
  {
    hide DistBase, DistExtra;
    DistSymIs(n, c, 29);
  }

  lemma UpperSet(codes: seq<byte>, bases: seq<nat>, m: nat, next: nat, k: nat, c: byte)
    requires DistsSet(codes, bases, 256, m, k) && 2 <= m < 256 && next == m + 1
    requires c < 30 && DistBase(c) <= 128 * m + 1 && 128 * m + 128 < DistBase(c) + Pow2(DistExtra(c))
    ensures DistsSet(codes[256 + m := c], bases, 256, next, k)
  {
    hide DistBase, DistExtra;
    var codes' := codes[256 + m := c];
    forall d | 128 * m <= d < 128 * m + 128
      ensures codes'[256 + m] == DistSym(d)
    {
      DistSymIs(d, c, 29);
    }
    assert Upper(codes', m);
    forall j | 2 <= j < m
      ensures Upper(codes', j)
    {
      assert Upper(codes, j);
    }
  }

  /** Where a code's distances begin, and where they end. */
  lemma DistEnds(c: nat)
    requires c < 30
    ensures DistBase(c) >= 1 && DistBase(c) + Pow2(DistExtra(c)) <= 0x8001
    ensures c < 29 ==> DistBase(c) + Pow2(DistExtra(c)) == DistBase(c + 1)
    ensures c == 29 ==> DistBase(c) + Pow2(DistExtra(c)) == 0x8001
    ensures c < 16 ==> DistBase(c) + Pow2(DistExtra(c)) <= 257
    ensures c >= 16 ==> DistExtra(c) >= 7
    ensures DistBase(0) == 1 && DistBase(16) == 257
  {
    DistRange(c);
    DistMono(0, c);
    DistMono(c, 29);
    DistRange(29);
    if c < 29 { DistMono(c + 1, 29); }
    if c < 16 { DistMono(c + 1, 16); }
  }

  /** The distances of one of the first sixteen codes. */
  method FillNear(distCode: array<byte>, baseDist: array<nat>, dist0: nat, code: byte) returns (dist: nat)
    requires code < 16 && dist0 + 1 == DistBase(code)
    requires DistsSet(distCode[..], baseDist[..], dist0, 2, code + 1)
    modifies distCode
    ensures DistsSet(distCode[..], baseDist[..], dist, 2, code + 1)
    ensures dist + 1 == DistBase(code) + Pow2(DistExtra(code))
  {
    hide DistBase, DistExtra;
    DistEnds(code);
    dist := dist0;
    var n, top := 0, Pow2(DistExtra(code));
    while n < top
      invariant 0 <= n <= top && dist == dist0 + n
      invariant DistsSet(distCode[..], baseDist[..], dist, 2, code + 1)
    {
      ghost var was := distCode[..];
      distCode[dist] := code;
      assert distCode[..] == was[dist := code];
      LowerSet(was, baseDist[..], dist, dist + 1, code + 1, code);
      dist := dist + 1;
      n := n + 1;
    }
  }

  lemma PowerSplit(x: nat)
    requires x >= 7
    ensures Pow2(x) == 128 * Pow2(x - 7)
  {
    Pow2At7();
    Pow2Add(7, x - 7);
  }

  /** The distances of one of the other codes, by steps of 128. */
  method FillFar(distCode: array<byte>, baseDist: array<nat>, dist0: nat, code: byte) returns (dist: nat)
    requires 16 <= code < 30 && 2 <= dist0 && 128 * dist0 + 1 == DistBase(code)
    requires DistsSet(distCode[..], baseDist[..], 256, dist0, code + 1)
    modifies distCode
    ensures DistsSet(distCode[..], baseDist[..], 256, dist, code + 1) && dist >= 2
    ensures 128 * dist + 1 == DistBase(code) + Pow2(DistExtra(code))
  {
    hide DistBase, DistExtra, Pow2;
    DistEnds(code);
    PowerSplit(DistExtra(code));
    dist := dist0;
    var n, top := 0, Pow2(DistExtra(code) - 7);
    while n < top
      invariant 0 <= n <= top && dist == dist0 + n
      invariant DistsSet(distCode[..], baseDist[..], 256, dist, code + 1)
    {
      ghost var was := distCode[..];
      distCode[256 + dist] := code;
      assert distCode[..] == was[256 + dist := code];
      UpperSet(was, baseDist[..], dist, dist + 1, code + 1, code);
      dist := dist + 1;
      n := n + 1;
    }
  }

  lemma DistBaseSet(codes: seq<byte>, bases: seq<nat>, n: nat, m: nat, c: nat, next: nat, v: nat)
    requires DistsSet(codes, bases, n, m, c) && c < 30 && v + 1 == DistBase(c) && next == c + 1
    ensures DistsSet(codes, bases[c := v], n, m, next)
  {
    hide DistBase, DistSym;
  }

  /** Fills in the distance code of each distance less 1, and the least distance of each code. */
  method InitDists(distCode: array<byte>, baseDist: array<nat>)
    requires distCode.Length == 512 && baseDist.Length == 30
    modifies distCode, baseDist
    ensures DistTables(distCode[..], baseDist[..])
  {
    hide DistBase, DistExtra, DistSym, Pow2;
    DistEnds(0);
    var dist, code := 0, 0;
    while code < 16
      invariant 0 <= code <= 16 && dist + 1 == DistBase(code)
      invariant DistsSet(distCode[..], baseDist[..], dist, 2, code)
    {
      ghost var was := baseDist[..];
      baseDist[code] := dist;
      assert baseDist[..] == was[code := dist];
      DistBaseSet(distCode[..], was, dist, 2, code, code + 1, dist);
      dist := FillNear(distCode, baseDist, dist, code);
      DistEnds(code);
      code := code + 1;
    }
    DistEnds(16);
    dist := dist / 128;
    while code < 30
      invariant 16 <= code <= 30 && dist >= 2
      invariant code < 30 ==> 128 * dist + 1 == DistBase(code)
      invariant code == 30 ==> dist == 256
      invariant DistsSet(distCode[..], baseDist[..], 256, dist, code)
    {
      ghost var was := baseDist[..];
      baseDist[code] := 128 * dist;
      assert baseDist[..] == was[code := 128 * dist];
      DistBaseSet(distCode[..], was, 256, dist, code, code + 1, 128 * dist);
      dist := FillFar(distCode, baseDist, dist, code);
      DistEnds(code);
      code := code + 1;
    }
  }

  /** The macro D_CODE. */
  function DCode(distCode: seq<byte>, dist: nat): nat
    requires |distCode| == 512 && dist < 0x8000
  {
    if dist < 256 then distCode[dist] else distCode[256 + dist / 128]
  }

  lemma DCodeIs(distCode: seq<byte>, baseDist: seq<nat>, dist: nat)
    requires DistTables(distCode, baseDist) && dist < 0x8000
    ensures DCode(distCode, dist) == DistSym(dist)
  {
    hide DistSym, DistBase;
    if dist >= 256 {
      assert Upper(distCode, dist / 128);
    }
  }

  // ----- the static trees

  /** The lengths of the fixed literal code, run by run. */
  method SetStaticLens(dl: array<ush>)
    requires dl.Length == 288
    modifies dl
    ensures dl[..] == FixedLens()
  {
    var n := 0;
    n := SetRun(dl, n, 143, 8);
    n := SetRun(dl, n, 255, 9);
    n := SetRun(dl, n, 279, 7);
    n := SetRun(dl, n, 287, 8);
  }

  method SetRun(dl: array<ush>, n0: nat, last: nat, len: nat) returns (n: nat)
    requires n0 <= last < dl.Length && len < 16
    modifies dl
    ensures n == last + 1
    ensures forall i :: 0 <= i < n0 ==> dl[i] == old(dl[i])
    ensures forall i :: n0 <= i < n ==> dl[i] == len
  {
    n := n0;
    while n <= last
      invariant n0 <= n <= last + 1
      invariant forall i :: 0 <= i < n0 ==> dl[i] == old(dl[i])
      invariant forall i :: n0 <= i < n ==> dl[i] == len
    {
      dl[n] := len;
      n := n + 1;
    }
  }

  lemma StaticHistogram(bl: seq<nat>, d: seq<ush>)
    requires |bl| == 16 && d == FixedLens()
    requires bl[7] == 24 && bl[8] == 152 && bl[9] == 112
    requires forall b :: 0 <= b < 16 && b != 7 && b != 8 && b != 9 ==> bl[b] == 0
    ensures Histogram(bl, d, 287)
  {
    hide Count;
    assert d[..288] == FixedLens();
    forall b | 1 <= b < 16
      ensures bl[b] == Count(d[..288], b)
    {
      FixedCounts(b);
    }
  }

  /** The fixed literal codes get their lengths and their codes. */
  method InitStaticLits(tree: CtTree, blCount: array<nat>)
    requires tree.fc != tree.dl && tree.fc.Length == tree.dl.Length == 288 && blCount.Length == 16
    requires forall b :: 0 <= b < 16 ==> blCount[b] == 0
    modifies tree.fc, tree.dl, blCount
    ensures Codebook(tree.fc[..], tree.dl[..], FixedLens())
  {
    hide Count, Space, FixedLens, CodesUpTo, CodeOk;
    SetStaticLens(tree.dl);
    blCount[7] := 24;
    blCount[8] := 152;
    blCount[9] := 112;
    ghost var d := tree.dl[..];
    StaticHistogram(blCount[..], d);
    FixedSpace();
    assert d == tree.dl[..287 + 1];
    GenCodes(tree.fc, tree.dl, 287, blCount, FixedLens());
    StaticBook(tree.fc[..], tree.dl[..], FixedLens());
  }

  lemma StaticBook(fc: seq<ush>, dl: seq<ush>, lens: seq<nat>)
    requires Bounded(lens) && |lens| <= |fc| && lens == dl && CodesUpTo(fc, lens, |lens|)
    ensures Codebook(fc, dl, lens)
  {
    forall c | 0 <= c < |lens|
      ensures Entry(fc, dl, lens, c)
    {
      assert CodeOk(fc, lens, c);
    }
  }

  /** The fixed distance codes have five bits each. */
  method InitStaticDists(tree: CtTree)
    requires tree.fc != tree.dl && tree.fc.Length == tree.dl.Length == 30
    modifies tree.fc, tree.dl
    ensures Book(tree.fc[..], tree.dl[..], FixedDistLens(), 30)
  {
    var n := 0;
    while n < 30
      invariant 0 <= n <= 30
      invariant Book(tree.fc[..], tree.dl[..], FixedDistLens(), n)
    {
      ghost var f, d := tree.fc[..], tree.dl[..];
      tree.dl[n] := 5;
      var code := BiReverse(n, 5);
      PowersTo5();
      tree.fc[n] := code;
      assert tree.fc[..] == f[n := code] && tree.dl[..] == d[n := 5];
      FixedDistCode(n);
      DistEntry(f, d, n, n + 1, code);
      n := n + 1;
    }
  }

  lemma DistEntry(f: seq<ush>, d: seq<ush>, n: nat, next: nat, code: ush)
    requires n < 30 == |f| == |d| && next == n + 1 && Book(f, d, FixedDistLens(), n)
    requires code < Pow2(5) && LsbBits(code, 5) == CodeBits(FixedDistLens(), n)
    ensures Book(f[n := code], d[n := 5], FixedDistLens(), next)
  {
    hide CodeBits, LsbBits;
    var g, e := f[n := code], d[n := 5];
    forall c | 0 <= c < next
      ensures Entry(g, e, FixedDistLens(), c)
    {
      if c < n { assert Entry(f, d, FixedDistLens(), c); }
    }
  }
}
