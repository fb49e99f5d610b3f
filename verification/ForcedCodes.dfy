/** Codes that build_tree makes up cost nothing: what they would add to the block lengths has been
    taken off before. */
module ForcedCodes {
  import opened Bits
  import opened Sums
  import opened Rfc1951
  import opened Heaps
  import opened InitialHeap
  import opened TreeLengths
  import opened AfterPass

  /** Only codes with lengths take space, and each takes half at most. */
  lemma {:induction false} UsedSpace(f: seq<ush>, d: seq<ush>, maxLength: nat, n: nat, i: nat)
    requires n <= |f| && n <= |d| && n <= 0x10000
    requires forall k :: 0 <= k < n ==> LengthOk(f, d, maxLength, k)
    ensures Space(d[..n]) <= 0x4000 * |UsedIds(f, n)|
    ensures i < n && d[i] >= 2 ==> Space(d[..n]) < 0x4000 * |UsedIds(f, n)|
  {
    if n > 0 {
      UsedSpace(f, d, maxLength, n - 1, i);
      assert d[..n][..n - 1] == d[..n - 1];
      assert LengthOk(f, d, maxLength, n - 1);
      ShareAtMost(d[n - 1]);
    }
  }

  lemma ShareAtMost(b: nat)
    requires b <= 15
    ensures Share(b) <= 0x4000
    ensures b >= 2 ==> Share(b) < 0x4000
    ensures b == 0 ==> Share(b) == 0
  {
    Pow2At14();
    if b >= 1 { Pow2Mono(15 - b, 14); }
    if b >= 2 { Pow2Mono(15 - b, 13); }
  }

  lemma Pow2At14()
    ensures Pow2(14) == 0x4000 && Pow2(13) == 0x2000 && Pow2(15) == 0x8000
  {
    Pow2At8();
    Pow2Add(8, 5);
  }

  /** In a complete code of two symbols, both have one bit. */
  lemma OneBitEach(f: seq<ush>, d: seq<ush>, maxLength: nat, n: nat, i: nat)
    requires n <= |f| && n <= |d| && n <= 0x10000 && i < n && f[i] != 0
    requires forall k :: 0 <= k < n ==> LengthOk(f, d, maxLength, k)
    requires |UsedIds(f, n)| <= 2 && Space(d[..n]) == Pow2(15)
    ensures d[i] == 1
  {
    UsedSpace(f, d, maxLength, n, i);
    Pow2At14();
    assert LengthOk(f, d, maxLength, i);
  }

  /** The difference that the made-up codes make to a total. */
  lemma {:induction false} TotalBitsForced(f: seq<ush>, g: seq<ush>, made: seq<int>, vs: seq<ush>, xs: seq<nat>, elems: nat, n: nat)
    requires Forcing(f, g, made, elems) && n <= elems <= |vs| && n <= |xs|
    requires forall i :: 0 <= i < n && made[i] != 0 ==> xs[i] == 0
    ensures TotalBits(g, vs, xs, n) == TotalBits(f, vs, xs, n) + Sum(StaticTerms(made, vs)[..n])
  {
    var t := StaticTerms(made, vs);
    if n > 0 {
      TotalBitsForced(f, g, made, vs, xs, elems, n - 1);
      assert t[..n][..n - 1] == t[..n - 1];
      OneTerm(f[n - 1], g[n - 1], made[n - 1], vs[n - 1], xs[n - 1]);
    }
  }

  lemma OneTerm(f: nat, g: nat, made: int, v: nat, x: nat)
    requires made == 0 || (made == 1 && f == 0 && x == 0)
    requires g == f + made
    ensures g * (v + x) == f * (v + x) + made * v
  {
  }

  /** No made-up code lies beyond the greatest code. */
  lemma ForcedTail(f: seq<ush>, g: seq<ush>, made: seq<int>, vs: seq<ush>, elems: nat, n: nat)
    requires Forcing(f, g, made, elems) && n <= elems <= |vs|
    requires forall i :: n <= i < elems ==> g[i] == 0
    ensures Sum(StaticTerms(made, vs)) == Sum(StaticTerms(made, vs)[..n])
  {
    var t := StaticTerms(made, vs);
    forall i | n <= i < |t|
      ensures t[i] == 0
    {
      assert made[i] == 0;
    }
    SumTail(t, n);
  }

  lemma OneBitTerms(made: seq<int>, d: seq<ush>)
    requires |made| <= |d| && forall i :: 0 <= i < |made| ==> made[i] == 0 || d[i] == 1
    ensures Sum(StaticTerms(made, d)) == Sum(made)
  {
    var t := StaticTerms(made, d);
    forall i | 0 <= i < |made|
      ensures t[i] == made[i]
    {
      TimesOne(made[i], d[i]);
    }
    assert t == made;
  }

  lemma TimesOne(a: int, b: int)
    requires a == 0 || b == 1
    ensures a * b == a
  {
  }

  /** Counting with the codes made up and counting off what they cost is counting without them. */
  lemma ForcedCancels(now: nat, was: nat, then_: nat, off: int, f: seq<ush>, g: seq<ush>, made: seq<int>, vs: seq<ush>,
                      xs: seq<nat>, elems: nat, n: nat)
    requires Forcing(f, g, made, elems) && n <= elems <= |vs| && n <= |xs|
    requires forall i :: 0 <= i < n && made[i] != 0 ==> xs[i] == 0
    requires forall i :: n <= i < elems ==> g[i] == 0
    requires off == Sum(StaticTerms(made, vs)) && Discounted(now, was, off)
    requires then_ == U32(now + TotalBits(g, vs, xs, n))
    ensures then_ == U32(was + TotalBits(f, vs, xs, n))
  {
    hide TotalBits, Sum, U32;
    TotalBitsForced(f, g, made, vs, xs, elems, n);
    ForcedTail(f, g, made, vs, elems, n);
    U32Twice(was - off, TotalBits(g, vs, xs, n));
  }

  lemma {:induction false} FewForced(f: seq<ush>, g: seq<ush>, made: seq<int>, elems: nat, n: nat)
    requires Forcing(f, g, made, elems) && n <= elems <= 0x10000
    ensures 0 <= Sum(made[..n]) <= |UsedIds(g, n)|
    ensures Sum(g[..n]) == Sum(f[..n]) + Sum(made[..n])
  {
    if n > 0 {
      FewForced(f, g, made, elems, n - 1);
      assert made[..n][..n - 1] == made[..n - 1];
      assert f[..n][..n - 1] == f[..n - 1] && g[..n][..n - 1] == g[..n - 1];
    }
  }
}
