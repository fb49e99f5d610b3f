/** Canonical codes of section 3.2.2 of RFC 1951 are prefix codes: each symbol owns
    an interval of a code space of size 2^15, and the intervals follow one another. */
module PrefixCodes {
  import opened Optionals
  import opened Bits
  import opened Rfc1951

  predicate Bounded(lens: seq<nat>) {
    forall i :: 0 <= i < |lens| ==> lens[i] <= MAX_BITS
  }

  /** The code space taken by all codes shorter than b bits. */
  function Shorter(lens: seq<nat>, b: nat): nat {
    if lens == [] then 0
    else
      var last := lens[|lens| - 1];
      Shorter(lens[..|lens| - 1], b) + (if last < b then Share(last) else 0)
  }

  lemma {:induction false} ShorterStep(lens: seq<nat>, b: nat)
    ensures Shorter(lens, b + 1) == Shorter(lens, b) + Count(lens, b) * Share(b)
  {
    if lens != [] {
      var rest, last := lens[..|lens| - 1], lens[|lens| - 1];
      ShorterStep(rest, b);
      MulDistrib(Count(rest, b), 1, Share(b));
    }
  }

  lemma {:induction false} ShorterAll(lens: seq<nat>, b: nat)
    requires b > MAX_BITS
    ensures Shorter(lens, b) == Space(lens)
  {
    if lens != [] { ShorterAll(lens[..|lens| - 1], b); }
  }

  lemma {:induction false} ShorterMono(lens: seq<nat>, b: nat, c: nat)
    requires b <= c
    ensures Shorter(lens, b) <= Shorter(lens, c)
    decreases c - b
  {
    if b < c {
      ShorterMono(lens, b, c - 1);
      ShorterStep(lens, c - 1);
      MulNat(Count(lens, c - 1), Share(c - 1));
    }
  }

  lemma ShareStep(b: nat)
    requires 1 <= b < MAX_BITS
    ensures Share(b) == 2 * Share(b + 1)
  {
  }

  /** The first code of b bits starts where the shorter codes end. */
  lemma {:induction false} FirstCodeStart(lens: seq<nat>, b: nat)
    requires 1 <= b <= MAX_BITS
    ensures FirstCode(lens, b) * Share(b) == Shorter(lens, b)
  {
    if b == 1 {
      NothingShorter(lens);
    } else {
      FirstCodeStart(lens, b - 1);
      ShorterStep(lens, b - 1);
      ShareStep(b - 1);
      CodeStep(FirstCode(lens, b - 1), Count(lens, b - 1), Share(b - 1), Share(b));
    }
  }

  lemma CodeStep(f: nat, c: nat, v: nat, w: nat)
    requires v == 2 * w
    ensures (2 * (f + c)) * w == f * v + c * v
  {
    assert (2 * (f + c)) * w == (f + c) * v;
    MulDistrib(f, c, v);
  }

  lemma {:induction false} NothingShorter(lens: seq<nat>)
    ensures FirstCode(lens, 1) == 0 && Shorter(lens, 1) == 0
  {
    if lens != [] { NothingShorter(lens[..|lens| - 1]); }
  }

  lemma {:induction false} CountMono(lens: seq<nat>, i: nat, j: nat, b: nat)
    requires i <= j <= |lens|
    ensures Count(lens[..i], b) <= Count(lens[..j], b)
    ensures i < j && lens[i] == b ==> Count(lens[..i], b) + 1 <= Count(lens[..j], b)
    decreases j - i
  {
    if i < j {
      assert lens[..j][..j - 1] == lens[..j - 1];
      CountMono(lens, i, j - 1, b);
    }
  }

  /** Where the interval of symbol n begins. */
  function Start(lens: seq<nat>, n: nat): nat
    requires n < |lens|
  {
    CodeOf(lens, n) * Share(lens[n])
  }

  predicate Coded(lens: seq<nat>, n: nat) {
    n < |lens| && 1 <= lens[n] <= MAX_BITS
  }

  lemma StartIs(lens: seq<nat>, n: nat)
    requires Coded(lens, n)
    ensures Start(lens, n) == Shorter(lens, lens[n]) + Count(lens[..n], lens[n]) * Share(lens[n])
  {
    FirstCodeStart(lens, lens[n]);
    MulDistrib(FirstCode(lens, lens[n]), Count(lens[..n], lens[n]), Share(lens[n]));
  }

  /** An interval ends before the codes one bit longer begin. */
  lemma EndsBefore(lens: seq<nat>, n: nat)
    requires Coded(lens, n)
    ensures Start(lens, n) + Share(lens[n]) <= Shorter(lens, lens[n] + 1)
  {
    var b := lens[n];
    StartIs(lens, n);
    CountMono(lens, n, |lens|, b);
    assert lens[..|lens|] == lens;
    ShorterStep(lens, b);
    MulStep(Count(lens[..n], b), Count(lens, b), Share(b));
  }

  lemma Disjoint(lens: seq<nat>, i: nat, j: nat)
    requires Coded(lens, i) && Coded(lens, j)
    requires lens[i] < lens[j] || (lens[i] == lens[j] && i < j)
    ensures Start(lens, i) + Share(lens[i]) <= Start(lens, j)
  {
    StartIs(lens, i);
    StartIs(lens, j);
    if lens[i] == lens[j] {
      CountMono(lens, i, j, lens[i]);
      MulStep(Count(lens[..i], lens[i]), Count(lens[..j], lens[i]), Share(lens[i]));
    } else {
      EndsBefore(lens, i);
      ShorterMono(lens, lens[i] + 1, lens[j]);
      MulNat(Count(lens[..j], lens[j]), Share(lens[j]));
    }
  }

  /** Section 3.2.2: a code of b bits fits in b bits. */
  lemma CodeFits(lens: seq<nat>, n: nat)
    requires Coded(lens, n) && Space(lens) <= Pow2(MAX_BITS)
    ensures CodeOf(lens, n) < Pow2(lens[n])
  {
    var b := lens[n];
    EndsBefore(lens, n);
    ShorterMono(lens, b + 1, MAX_BITS + 1);
    ShorterAll(lens, MAX_BITS + 1);
    Pow2Add(b, MAX_BITS - b);
    Squeeze(CodeOf(lens, n), Pow2(b), Share(b));
  }

  lemma Squeeze(c: nat, p: nat, w: nat)
    requires c * w + w <= p * w && w > 0
    ensures c < p
  {
    if c >= p {
      MulMono(p, c, w);
    }
  }

  // ----- bit strings read most significant bit first

  lemma {:induction false} MsbPrefix(v: nat, n: nat, m: nat)
    ensures MsbBits(v, n + m)[..n] == MsbBits(Shr(v, m), n)
  {
    if m > 0 {
      MsbPrefix(v / 2, n, m - 1);
      assert MsbBits(v, n + m)[..n] == MsbBits(v / 2, n + m - 1)[..n];
    } else {
      assert MsbBits(v, n)[..n] == MsbBits(v, n);
    }
  }

  lemma {:induction false} MsbInjective(v: nat, w: nat, n: nat)
    requires v < Pow2(n) && w < Pow2(n)
    requires MsbBits(v, n) == MsbBits(w, n)
    ensures v == w
  {
    if n > 0 {
      var a, b := MsbBits(v / 2, n - 1), MsbBits(w / 2, n - 1);
      assert a == MsbBits(v, n)[..n - 1] && b == MsbBits(w, n)[..n - 1];
      MsbInjective(v / 2, w / 2, n - 1);
      assert (v % 2 == 1) == MsbBits(v, n)[n - 1];
      assert (w % 2 == 1) == MsbBits(w, n)[n - 1];
    }
  }

  lemma {:induction false} ShrRange(v: nat, n: nat)
    ensures Shr(v, n) * Pow2(n) <= v < Shr(v, n) * Pow2(n) + Pow2(n)
  {
    if n > 0 {
      ShrRange(v / 2, n - 1);
      Doubled(Shr(v, n), Pow2(n - 1));
    }
  }

  lemma Doubled(s: nat, p: nat)
    ensures s * (2 * p) == 2 * (s * p)
  {
  }

  /** No code is a prefix of another symbol's code. */
  lemma CodesPrefixFree(lens: seq<nat>, i: nat, j: nat)
    requires Coded(lens, i) && Coded(lens, j) && Space(lens) <= Pow2(MAX_BITS)
    requires lens[i] <= lens[j]
    requires CodeBits(lens, j)[..lens[i]] == CodeBits(lens, i)
    ensures i == j
  {
    hide Space, CodeOf, Pow2, Shr;
    var a, b := lens[i], lens[j];
    var c, d := CodeOf(lens, i), CodeOf(lens, j);
    CodeFits(lens, i);
    CodeFits(lens, j);
    MsbPrefix(d, a, b - a);
    ShrBound(d, b - a, a);
    MsbInjective(c, Shr(d, b - a), a);
    ShrRange(d, b - a);
    SharesOverlap(c, d, a, b);
    if i != j {
      if a < b || i < j { Disjoint(lens, i, j); } else { Disjoint(lens, j, i); }
      SharePositive(a);
      SharePositive(b);
      assert false;
    }
  }

  lemma SharePositive(b: nat)
    requires 1 <= b <= MAX_BITS
    ensures Share(b) > 0
  {
  }

  /** A code that begins with c lies in the interval of c. */
  lemma SharesOverlap(c: nat, d: nat, a: nat, b: nat)
    requires 1 <= a <= b <= MAX_BITS
    requires c * Pow2(b - a) <= d < c * Pow2(b - a) + Pow2(b - a)
    ensures c * Share(a) <= d * Share(b) < c * Share(a) + Share(a)
  {
    hide Pow2;
    var p, w := Pow2(b - a), Share(b);
    Pow2Add(b - a, MAX_BITS - b);
    assert Share(a) == p * w;
    MulAssoc(c, p, w);
    MulMono(c * p, d, w);
    MulStep(d, c * p + p, w);
    MulDistrib(c * p, p, w);
    SharePositive(b);
  }

  /** Two codes that stand at the same place belong to the same symbol. */
  lemma SameSymbol(lens: seq<nat>, bits: seq<bool>, pos: nat, i: nat, j: nat)
    requires Coded(lens, i) && Coded(lens, j) && Space(lens) <= Pow2(MAX_BITS)
    requires At(bits, pos, CodeBits(lens, i)) && At(bits, pos, CodeBits(lens, j))
    ensures i == j
  {
    if lens[i] <= lens[j] {
      assert bits[pos..pos + lens[i]] == bits[pos..pos + lens[j]][..lens[i]];
      CodesPrefixFree(lens, i, j);
    } else {
      assert bits[pos..pos + lens[j]] == bits[pos..pos + lens[i]][..lens[j]];
      CodesPrefixFree(lens, j, i);
    }
  }

  /** Unique decodability: the decoder finds exactly the symbol that was sent. */
  lemma {:induction false} SymbolDecodes(lens: seq<nat>, bits: seq<bool>, pos: nat, n: nat, from: nat := 0)
    requires Bounded(lens) && Space(lens) <= Pow2(MAX_BITS)
    requires from <= n < |lens| && lens[n] > 0
    requires At(bits, pos, CodeBits(lens, n))
    ensures DecodeSymbol(lens, bits, pos, from) == Some(n)
    decreases n - from
  {
    if from < n {
      if lens[from] > 0 && At(bits, pos, CodeBits(lens, from)) {
        SameSymbol(lens, bits, pos, from, n);
        assert false;
      }
      SymbolDecodes(lens, bits, pos, n, from + 1);
    }
  }
}
