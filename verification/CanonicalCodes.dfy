/** gen_codes: canonical codes from lengths, reversed for a writer that sends low bits first. */
module CanonicalCodes {
  import opened Bits
  import opened Rfc1951
  import opened PrefixCodes
  import opened Heaps
  import opened AfterPass

  lemma {:induction false} OrNothing(b: nat)
    ensures BitOr(b, 0) == b
  {
    if b != 0 { OrNothing(b / 2); }
  }

  lemma OrLowBit(r: nat, bit: nat)
    requires bit < 2
    ensures BitOr(2 * r, bit) == 2 * r + bit
  {
    OrNothing(r);
    assert BitOr(2 * r, bit) == bit + 2 * BitOr(r, 0);
  }

  /** The bit in front of the n low ones. */
  lemma {:induction false} MsbFirst(v: nat, n: nat)
    ensures MsbBits(v, n + 1) == [Shr(v, n) % 2 == 1] + MsbBits(v, n)
  {
    if n > 0 {
      MsbFirst(v / 2, n - 1);
      Assoc([Shr(v, n) % 2 == 1], MsbBits(v / 2, n - 1), [v % 2 == 1]);
    }
  }

  lemma ShrStep(v: nat, n: nat, next: nat)
    requires next == n + 1
    ensures Shr(Shr(v, n), 1) == Shr(v, next)
  {
    ShrAdd(v, n, 1);
  }

  lemma ReverseStep(v: nat, n: nat, r: nat, bit: nat)
    requires LsbBits(r, n) == MsbBits(v, n) && r < Pow2(n) && bit == Shr(v, n) % 2
    ensures LsbBits(2 * r + bit, n + 1) == MsbBits(v, n + 1) && 2 * r + bit < Pow2(n + 1)
  {
    MsbFirst(v, n);
  }

  /** bi_reverse: the bits of a code in the opposite order. */
  method BiReverse(code0: nat, len0: nat) returns (res: nat)
    requires len0 >= 1
    ensures LsbBits(res, len0) == MsbBits(code0, len0)
    ensures res < Pow2(len0)
  {
    var code, len := code0, len0;
    res := 0;
    ghost var r, n := 0, 0;
    while true
      invariant res == 2 * r && n + len == len0 && len >= 1
      invariant code == Shr(code0, n)
      invariant LsbBits(r, n) == MsbBits(code0, n) && r < Pow2(n)
      decreases len
    {
      OrLowBit(r, code % 2);
      ReverseStep(code0, n, r, code % 2);
      res := BitOr(res, code % 2);
      len := len - 1;
      if len <= 0 { return; }
      code := Shr(code, 1);
      r, n := res, n + 1;
      ShrStep(code0, n - 1, n);
      res := 2 * res;
    }
  }

  // ----- the codes of a tree

  /** Symbol i's code, sent low bit first, is its canonical code. */
  ghost predicate CodeOk(fc: seq<ush>, lens: seq<nat>, i: nat) {
    && i < |fc| && i < |lens|
    && (lens[i] > 0 ==> fc[i] < Pow2(lens[i]) && LsbBits(fc[i], lens[i]) == CodeBits(lens, i))
  }

  ghost predicate CodesUpTo(fc: seq<ush>, lens: seq<nat>, n: nat) {
    forall i :: 0 <= i < n ==> CodeOk(fc, lens, i)
  }

  /** next[b] is what the next symbol of b bits gets. */
  ghost predicate NextCodes(next: seq<nat>, lens: seq<nat>, n: nat) {
    && |next| == 16 && n <= |lens|
    && forall b :: 1 <= b < 16 ==> next[b] == FirstCode(lens, b) + Count(lens[..n], b)
  }

  /** Every first code is a number of at most b bits, so nothing is lost in 32. */
  lemma FirstCodeFits(lens: seq<nat>, b: nat)
    requires Space(lens) <= Pow2(MAX_BITS) && 1 <= b <= MAX_BITS
    ensures FirstCode(lens, b) <= Pow2(b) <= 0x10000
  {
    FirstCodeStart(lens, b);
    ShorterMono(lens, b, MAX_BITS + 1);
    ShorterAll(lens, MAX_BITS + 1);
    Pow2Add(b, MAX_BITS - b);
    SharePositive(b);
    NoMore(FirstCode(lens, b), Pow2(b), Share(b));
    Pow2Mono(b, 16);
    Pow2At16();
  }

  lemma NoMore(c: nat, p: nat, w: nat)
    requires c * w <= p * w && w > 0
    ensures c <= p
  {
    if c > p { MulStep(p, c, w); }
  }

  lemma FirstCodeStep(lens: seq<nat>, b: nat, prev: nat, count: nat)
    requires b == prev + 1 && (if prev == 0 then count == 0 else count == Count(lens, prev))
    ensures FirstCode(lens, b) == 2 * (FirstCode(lens, prev) + count)
  {
  }

  ghost predicate FirstAt(next: seq<nat>, lens: seq<nat>, b: nat) {
    b < |next| && next[b] == FirstCode(lens, b) <= 0x10000
  }

  /** The first code of each length, as section 3.2.2 of RFC 1951 computes them. */
  method FirstCodes(blCount: array<nat>, ghost lens: seq<nat>) returns (next: array<nat>)
    requires blCount.Length == 16 && blCount[0] == 0
    requires forall b :: 1 <= b < 16 ==> blCount[b] == Count(lens, b)
    requires Space(lens) <= Pow2(MAX_BITS)
    ensures fresh(next) && next.Length == 16
    ensures forall b :: 1 <= b < 16 ==> FirstAt(next[..], lens, b)
  {
    next := new nat[16](_ => 0);
    var code, bits := 0, 1;
    while bits <= 15
      invariant 1 <= bits <= 16 && next.Length == 16
      invariant code == FirstCode(lens, bits - 1)
      invariant forall b :: 1 <= b < bits ==> FirstAt(next[..], lens, b)
    {
      FirstCodeStep(lens, bits, bits - 1, blCount[bits - 1]);
      FirstCodeFits(lens, bits);
      code := SetNext(next, bits, 2 * (code + blCount[bits - 1]), lens);
      bits := bits + 1;
    }
  }

  method SetNext(next: array<nat>, bits: nat, value: nat, ghost lens: seq<nat>) returns (code: nat)
    requires 1 <= bits < next.Length && value == FirstCode(lens, bits) <= 0x10000
    requires forall b :: 1 <= b < bits ==> FirstAt(next[..], lens, b)
    modifies next
    ensures code == value
    ensures forall b :: 1 <= b < bits + 1 ==> FirstAt(next[..], lens, b)
  {
    ghost var was := next[..];
    code := value;
    next[bits] := code;
    forall b | 1 <= b < bits + 1
      ensures FirstAt(next[..], lens, b)
    {
      if b < bits { assert FirstAt(was, lens, b); }
    }
  }

  lemma NextCodesStart(next: seq<nat>, lens: seq<nat>)
    requires |next| == 16 && forall b :: 1 <= b < 16 ==> FirstAt(next, lens, b)
    ensures NextCodes(next, lens, 0)
  {
    assert lens[..0] == [];
    forall b | 1 <= b < 16
      ensures next[b] == FirstCode(lens, b) + Count(lens[..0], b)
    {
      assert FirstAt(next, lens, b);
    }
  }

  lemma CountNext(lens: seq<nat>, n: nat, next: nat, b: nat)
    requires n < |lens| && next == n + 1
    ensures Count(lens[..next], b) == Count(lens[..n], b) + (if lens[n] == b then 1 else 0)
  {
    assert lens[..next][..n] == lens[..n];
  }

  lemma NextCodesStep(next: seq<nat>, lens: seq<nat>, n: nat, n': nat)
    requires NextCodes(next, lens, n) && n < |lens| && n' == n + 1 && lens[n] < 16
    ensures lens[n] == 0 ==> NextCodes(next, lens, n')
    ensures lens[n] > 0 ==> NextCodes(next[lens[n] := next[lens[n]] + 1], lens, n')
  {
    forall b | 1 <= b < 16
      ensures Count(lens[..n'], b) == Count(lens[..n], b) + (if lens[n] == b then 1 else 0)
    {
      CountNext(lens, n, n', b);
    }
  }

  /** One symbol's code. */
  method GiveCode(fc: array<ush>, next: array<nat>, n: nat, len: nat, ghost lens: seq<nat>)
    requires n < |lens| && len == lens[n] && n < fc.Length && 1 <= len <= 15
    requires Space(lens) <= Pow2(MAX_BITS)
    requires NextCodes(next[..], lens, n) && CodesUpTo(fc[..], lens, n)
    modifies fc, next
    ensures next[..] == old(next[..])[len := old(next[len]) + 1]
    ensures CodesUpTo(fc[..], lens, n + 1)
  {
    hide Space, CodesUpTo, Count;
    ghost var f := fc[..];
    CodeFits(lens, n);
    Pow2Mono(len, 15);
    Pow2At16();
    var code := BiReverse(next[len], len);
    next[len] := next[len] + 1;
    fc[n] := code;
    CodesStep(f, lens, n, n + 1, code);
    assert fc[..] == f[n := code];
  }

  lemma CodesStep(f: seq<ush>, lens: seq<nat>, n: nat, next: nat, code: ush)
    requires CodesUpTo(f, lens, n) && n < |f| && n < |lens| && lens[n] > 0
    requires code < Pow2(lens[n]) && LsbBits(code, lens[n]) == CodeBits(lens, n) && next == n + 1
    ensures CodesUpTo(f[n := code], lens, next)
  {
    var g := f[n := code];
    forall i | 0 <= i < next
      ensures CodeOk(g, lens, i)
    {
      if i < n { assert CodeOk(f, lens, i); }
    }
  }

  lemma CodesSkip(f: seq<ush>, lens: seq<nat>, n: nat, next: nat)
    requires CodesUpTo(f, lens, n) && n < |f| && n < |lens| && lens[n] == 0 && next == n + 1
    ensures CodesUpTo(f, lens, next)
  {
    assert CodeOk(f, lens, n);
  }

  /** Every symbol with a length gets its canonical code, with its bits reversed for the writer. */
  method GenCodes(fc: array<ush>, dl: array<ush>, maxCode: nat, blCount: array<nat>, ghost lens: seq<nat>)
    requires fc != dl && maxCode < dl.Length && maxCode < fc.Length && blCount.Length == 16
    requires lens == dl[..maxCode + 1] && Bounded(lens)
    requires Histogram(blCount[..], dl[..], maxCode) && Space(lens) <= Pow2(MAX_BITS)
    modifies fc
    ensures CodesUpTo(fc[..], lens, |lens|)
  {
    hide Pow2, Count, Share, NextCodes;
    var next := FirstCodes(blCount, lens);
    NextCodesStart(next[..], lens);
    var n := 0;
    while n <= maxCode
      invariant 0 <= n <= maxCode + 1 && dl[..maxCode + 1] == lens
      invariant NextCodes(next[..], lens, n)
      invariant CodesUpTo(fc[..], lens, n)
    {
      var len := dl[n];
      assert len == lens[n];
      ghost var was, codes := n, next[..];
      if len == 0 {
        n := n + 1;
        CodesSkip(fc[..], lens, was, n);
        NextCodesStep(codes, lens, was, n);
        continue;
      }
      GiveCode(fc, next, n, len, lens);
      n := n + 1;
      NextCodesStep(codes, lens, was, n);
    }
  }
}
