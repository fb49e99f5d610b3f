/** The fixed codes of section 3.2.6 of RFC 1951 are complete prefix codes. */
module FixedCodes {
  import opened Bits
  import opened Rfc1951
  import opened PrefixCodes
  import opened RunLengths

  lemma {:induction false} SpaceAppend(a: seq<nat>, b: seq<nat>)
    ensures Space(a + b) == Space(a) + Space(b)
  {
    if b == [] {
      assert a + b == a;
    } else {
      var n := |b| - 1;
      assert (a + b)[..|a + b| - 1] == a + b[..n];
      SpaceAppend(a, b[..n]);
    }
  }

  lemma {:induction false} CountAppend(a: seq<nat>, b: seq<nat>, v: nat)
    ensures Count(a + b, v) == Count(a, v) + Count(b, v)
  {
    if b == [] {
      assert a + b == a;
    } else {
      var n := |b| - 1;
      assert (a + b)[..|a + b| - 1] == a + b[..n];
      CountAppend(a, b[..n], v);
    }
  }

  lemma {:induction false} SpaceCopies(v: nat, n: nat)
    ensures Space(Copies(v, n)) == n * Share(v)
  {
    if n > 0 {
      assert Copies(v, n)[..n - 1] == Copies(v, n - 1);
      SpaceCopies(v, n - 1);
      MulDistrib(n - 1, 1, Share(v));
    }
  }

  lemma {:induction false} CountCopies(v: nat, n: nat, b: nat)
    ensures Count(Copies(v, n), b) == if b == v then n else 0
  {
    if n > 0 {
      assert Copies(v, n)[..n - 1] == Copies(v, n - 1);
      CountCopies(v, n - 1, b);
    }
  }

  /** The four runs of the fixed literal lengths. */
  function FixedRuns(): seq<nat> {
    Copies(8, 144) + Copies(9, 112) + Copies(7, 24) + Copies(8, 8)
  }

  lemma FixedAsRuns()
    ensures FixedLens() == FixedRuns()
  {
  }

  lemma FixedCounts(b: nat)
    ensures Count(FixedLens(), b) == if b == 7 then 24 else if b == 8 then 152 else if b == 9 then 112 else 0
  {
    hide Count, Copies, FixedLens;
    FixedAsRuns();
    var a, c, d, e := Copies(8, 144), Copies(9, 112), Copies(7, 24), Copies(8, 8);
    CountAppend(a + c + d, e, b);
    CountAppend(a + c, d, b);
    CountAppend(a, c, b);
    CountCopies(8, 144, b);
    CountCopies(9, 112, b);
    CountCopies(7, 24, b);
    CountCopies(8, 8, b);
  }

  lemma SomeShares()
    ensures Share(5) == 0x400 && Share(7) == 0x100 && Share(8) == 0x80 && Share(9) == 0x40 && Pow2(15) == 0x8000
  {
    Pow2At7();
    Pow2At8();
    Pow2Add(8, 2);
    Pow2Add(8, 7);
    assert Pow2(6) == 64;
  }

  lemma FixedSpace()
    ensures Space(FixedLens()) == Pow2(15) && Space(FixedDistLens()) == Pow2(15)
    ensures Bounded(FixedLens()) && Bounded(FixedDistLens())
  {
    SomeShares();
    FixedLitSpace();
    SpaceCopies(5, 32);
    assert FixedDistLens() == Copies(5, 32);
  }

  lemma FixedLitSpace()
    ensures Space(FixedLens()) == 144 * Share(8) + 112 * Share(9) + 24 * Share(7) + 8 * Share(8)
  {
    hide Space, Copies, FixedLens, Share;
    FixedAsRuns();
    var a, c, d, e := Copies(8, 144), Copies(9, 112), Copies(7, 24), Copies(8, 8);
    SpaceAppend(a + c + d, e);
    SpaceAppend(a + c, d);
    SpaceAppend(a, c);
    SpaceCopies(8, 144);
    SpaceCopies(9, 112);
    SpaceCopies(7, 24);
    SpaceCopies(8, 8);
  }

  lemma {:induction false} NoFirstCode(lens: seq<nat>, b: nat)
    requires forall c :: 1 <= c < b ==> Count(lens, c) == 0
    ensures FirstCode(lens, b) == 0
  {
    if b > 0 { NoFirstCode(lens, b - 1); }
  }

  /** Distance n has the code n. */
  lemma FixedDistCode(n: nat)
    requires n < 32
    ensures CodeBits(FixedDistLens(), n) == MsbBits(n, 5)
  {
    var lens := FixedDistLens();
    assert lens == Copies(5, 32) && lens[..n] == Copies(5, n);
    forall c | 1 <= c < 5
      ensures Count(lens, c) == 0
    {
      CountCopies(5, 32, c);
    }
    NoFirstCode(lens, 5);
    CountCopies(5, n, 5);
  }
}
