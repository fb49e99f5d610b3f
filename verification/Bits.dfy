/** Bit strings, as RFC 1951 section 3.1.1 packs them into bytes: numbers go out
    least significant bit first, Huffman codes most significant bit first. */
module Bits {

  type byte = x: int | 0 <= x < 256


  function Pow2(n: nat): (p: nat)
    ensures p > 0
  {
    if n == 0 then 1 else 2 * Pow2(n - 1)
  }

  /** Unsigned 32-bit wrap-around. */
  function U32(x: int): (r: nat)
    ensures r < 0x1_0000_0000
  {
    x % 0x1_0000_0000
  }

  lemma U32Twice(a: int, b: int)
    ensures U32(U32(a) + b) == U32(a + b)
  {
    assert a == U32(a) + (a / 0x1_0000_0000) * 0x1_0000_0000;
    U32Shift(U32(a) + b, a / 0x1_0000_0000);
  }

  lemma U32Shift(a: int, k: int)
    ensures U32(a + k * 0x1_0000_0000) == U32(a)
  {
  }

  /** The C operator `|` on unsigned numbers. */
  function BitOr(a: nat, b: nat): nat {
    if a == 0 && b == 0 then 0
    else (if a % 2 == 1 || b % 2 == 1 then 1 else 0) + 2 * BitOr(a / 2, b / 2)
  }

  /** The C operator `>>` on unsigned numbers. */
  function Shr(v: nat, n: nat): nat {
    if n == 0 then v else Shr(v / 2, n - 1)
  }

  /** The n low bits of v, least significant first. */
  function LsbBits(v: nat, n: nat): (s: seq<bool>)
    ensures |s| == n
  {
    if n == 0 then [] else [v % 2 == 1] + LsbBits(v / 2, n - 1)
  }

  /** The n low bits of v, most significant first. */
  function MsbBits(v: nat, n: nat): (s: seq<bool>)
    ensures |s| == n
  {
    if n == 0 then [] else MsbBits(v / 2, n - 1) + [v % 2 == 1]
  }

  /** The number whose bits, least significant first, are s. */
  function Value(s: seq<bool>): nat {
    if s == [] then 0 else (if s[0] then 1 else 0) + 2 * Value(s[1..])
  }

  function BytesBits(s: seq<byte>): (r: seq<bool>)
    ensures |r| == 8 * |s|
  {
    if s == [] then [] else BytesBits(s[..|s| - 1]) + LsbBits(s[|s| - 1], 8)
  }

  function Zeros(n: nat): (s: seq<bool>)
    ensures |s| == n
  {
    seq(n, _ => false)
  }

  // ----- powers of two

  lemma {:induction false} Pow2Add(a: nat, b: nat)
    ensures Pow2(a + b) == Pow2(a) * Pow2(b)
  {
    if a != 0 {
      Pow2Add(a - 1, b);
      assert Pow2(a + b) == 2 * Pow2(a - 1 + b);
    }
  }

  lemma {:induction false} Pow2Mono(a: nat, b: nat)
    requires a <= b
    ensures Pow2(a) <= Pow2(b)
    ensures a < b ==> 2 * Pow2(a) <= Pow2(b)
    decreases b - a
  {
    if a < b { Pow2Mono(a, b - 1); }
  }

  // ----- products, one law at a time

  lemma MulDistrib(a: nat, b: nat, c: nat)
    ensures (a + b) * c == a * c + b * c
  {
  }

  lemma MulAssoc(a: nat, b: nat, c: nat)
    ensures a * (b * c) == a * b * c
  {
  }

  lemma MulMono(a: nat, b: nat, c: nat)
    requires a <= b
    ensures a * c <= b * c
  {
  }

  lemma MulStep(a: nat, b: nat, c: nat)
    requires a < b
    ensures a * c + c <= b * c
  {
    MulDistrib(a, 1, c);
    MulMono(a + 1, b, c);
  }

  lemma MulNat(a: nat, b: nat)
    ensures a * b >= 0
  {
  }

  // One value at a time: the solver unrolls every numeral it sees.
  lemma Pow2At8()
    ensures Pow2(8) == 256
  {
  }

  lemma Pow2At16()
    ensures Pow2(16) == 0x10000
  {
    Pow2At8();
    Pow2Add(8, 8);
  }

  lemma Pow2At32()
    ensures Pow2(32) == 0x1_0000_0000
  {
    Pow2At16();
    Pow2Add(16, 16);
  }

  lemma Assoc<T>(a: seq<T>, b: seq<T>, c: seq<T>)
    ensures (a + b) + c == a + (b + c)
  {
  }

  // ----- splitting and joining bit strings

  // Below, p is the power of two 2^n, which the caller often knows as a numeral.

  lemma Halve(a: nat, b: nat, p: nat, q: nat)
    requires p == 2 * q
    ensures (a + b * p) % 2 == a % 2 && (a + b * p) / 2 == a / 2 + b * q
  {
    assert b * p == 2 * (b * q);
  }

  lemma {:induction false} LsbJoin(v: nat, a: nat, n: nat, p: nat, b: nat, m: nat)
    requires p == Pow2(n) && a < p && v == a + b * p
    ensures LsbBits(v, n + m) == LsbBits(a, n) + LsbBits(b, m)
  {
    if n == 0 {
      assert v == b;
    } else {
      var q := Pow2(n - 1);
      Halve(a, b, p, q);
      LsbJoin(v / 2, a / 2, n - 1, q, b, m);
    }
  }

  lemma {:induction false} LsbSplit(v: nat, n: nat, m: nat)
    ensures LsbBits(v, n + m) == LsbBits(v, n) + LsbBits(Shr(v, n), m)
  {
    if n > 0 {
      LsbSplit(v / 2, n - 1, m);
    }
  }

  /** Only v modulo 2^n matters to its n low bits. */
  lemma {:induction false} LsbMod(v: nat, a: nat, n: nat, p: nat, k: nat)
    requires p == Pow2(n) && v == a + k * p
    ensures LsbBits(v, n) == LsbBits(a, n)
  {
    if n > 0 {
      var q := Pow2(n - 1);
      Halve(a, k, p, q);
      LsbMod(v / 2, a / 2, n - 1, q, k);
    }
  }

  lemma {:induction false} ShrAdd(v: nat, a: nat, b: nat)
    ensures Shr(v, a + b) == Shr(Shr(v, a), b)
  {
    if a > 0 { ShrAdd(v / 2, a - 1, b); }
  }

  lemma {:induction false} ShrJoin(v: nat, a: nat, n: nat, p: nat, b: nat)
    requires p == Pow2(n) && a < p && v == a + b * p
    ensures Shr(v, n) == b
  {
    if n == 0 {
      assert v == b;
    } else {
      var q := Pow2(n - 1);
      Halve(a, b, p, q);
      ShrJoin(v / 2, a / 2, n - 1, q, b);
    }
  }

  lemma {:induction false} ShrBound(v: nat, n: nat, m: nat)
    requires v < Pow2(n + m)
    ensures Shr(v, n) < Pow2(m)
  {
    if n > 0 { ShrBound(v / 2, n - 1, m); }
  }

  lemma {:induction false} ValueOfLsb(v: nat, n: nat)
    requires v < Pow2(n)
    ensures Value(LsbBits(v, n)) == v
  {
    if n > 0 {
      ValueOfLsb(v / 2, n - 1);
      assert LsbBits(v, n)[1..] == LsbBits(v / 2, n - 1);
    }
  }

  lemma {:induction false} LsbZero(n: nat)
    ensures LsbBits(0, n) == Zeros(n)
  {
    if n > 0 {
      LsbZero(n - 1);
    }
  }

  lemma {:induction false} OrIsSum(a: nat, n: nat, p: nat, b: nat, c: nat)
    requires p == Pow2(n) && a < p && c == b * p
    ensures BitOr(a, c) == a + c
  {
    if n == 0 {
      OrZero(c);
    } else {
      var q := Pow2(n - 1);
      Halve(0, b, p, q);
      OrIsSum(a / 2, n - 1, q, b, c / 2);
    }
  }

  lemma {:induction false} OrZero(b: nat)
    ensures BitOr(0, b) == b
  {
    if b != 0 { OrZero(b / 2); }
  }

  lemma {:induction false} BytesBitsAppend(s: seq<byte>, t: seq<byte>)
    ensures BytesBits(s + t) == BytesBits(s) + BytesBits(t)
  {
    if t == [] {
      assert s + t == s;
    } else {
      var t' := t[..|t| - 1];
      assert (s + t)[..|s + t| - 1] == s + t';
      BytesBitsAppend(s, t');
    }
  }

  lemma BytesBitsOne(s: seq<byte>, b: byte)
    ensures BytesBits(s + [b]) == BytesBits(s) + LsbBits(b, 8)
  {
    assert (s + [b])[..|s|] == s;
  }

  // ----- finding one bit string inside another

  /** The bits e stand in s at position p. */
  predicate At(s: seq<bool>, p: nat, e: seq<bool>) {
    p + |e| <= |s| && s[p..p + |e|] == e
  }

  lemma AtSplit(s: seq<bool>, p: nat, e: seq<bool>, f: seq<bool>)
    ensures At(s, p, e + f) <==> At(s, p, e) && At(s, p + |e|, f)
  {
    if At(s, p, e + f) {
      assert s[p..p + |e|] == s[p..p + |e + f|][..|e|] == e;
      assert s[p + |e|..p + |e| + |f|] == s[p..p + |e + f|][|e|..] == f;
    }
    if At(s, p, e) && At(s, p + |e|, f) {
      assert s[p..p + |e + f|] == s[p..p + |e|] + s[p + |e|..p + |e| + |f|];
    }
  }
}
