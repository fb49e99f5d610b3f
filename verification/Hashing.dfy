/** The rolling hash of three bytes that finds earlier occurrences. */
module Hashing {
  import opened Bits
  import opened Tokens

  const HASH_SIZE: nat := 8192
  const MIN_MATCH: nat := 3

  /** The C operator `^` on unsigned numbers. */
  function BitXor(a: nat, b: nat): nat {
    if a == 0 && b == 0 then 0
    else (if a % 2 != b % 2 then 1 else 0) + 2 * BitXor(a / 2, b / 2)
  }

  /** The macro UPDATE_HASH: ((h << H_SHIFT) ^ c) & HASH_MASK. */
  function Update(h: nat, c: byte): (r: nat)
    ensures r < HASH_SIZE
  {
    BitXor(32 * h, c) % 8192
  }

  /** The hash of the three bytes that begin at i. */
  function Hash(win: seq<byte>, i: nat): (r: nat)
    requires i + 2 < |win|
    ensures r < HASH_SIZE
  {
    Update(Update(Update(0, win[i]), win[i + 1]), win[i + 2])
  }

  lemma XorUnfold(a: nat, b: nat)
    ensures BitXor(a, b) % 2 == (if a % 2 != b % 2 then 1 else 0)
    ensures BitXor(a, b) / 2 == BitXor(a / 2, b / 2)
  {
  }

  /** The n low bits depend on the n low bits only. */
  lemma {:induction false} XorLow(a: nat, a': nat, b: nat, n: nat)
    requires LsbBits(a, n) == LsbBits(a', n)
    ensures LsbBits(BitXor(a, b), n) == LsbBits(BitXor(a', b), n)
  {
    if n > 0 {
      LsbHalves(a, a', n);
      XorUnfold(a, b);
      XorUnfold(a', b);
      XorLow(a / 2, a' / 2, b / 2, n - 1);
    }
  }

  lemma LsbHalves(a: nat, b: nat, n: nat)
    requires n > 0 && LsbBits(a, n) == LsbBits(b, n)
    ensures a % 2 == b % 2 && LsbBits(a / 2, n - 1) == LsbBits(b / 2, n - 1)
  {
    assert LsbBits(a, n)[0] == LsbBits(b, n)[0];
    assert LsbBits(a, n)[1..] == LsbBits(a / 2, n - 1);
    assert LsbBits(b, n)[1..] == LsbBits(b / 2, n - 1);
  }

  /** Equal results on equal left sides mean equal right sides. */
  lemma {:induction false} XorCancel(a: nat, b: nat, c: nat, n: nat)
    requires LsbBits(BitXor(a, b), n) == LsbBits(BitXor(a, c), n)
    ensures LsbBits(b, n) == LsbBits(c, n)
  {
    if n > 0 {
      LsbHalves(BitXor(a, b), BitXor(a, c), n);
      XorUnfold(a, b);
      XorUnfold(a, c);
      XorCancel(a / 2, b / 2, c / 2, n - 1);
    }
  }

  lemma ShiftLow(h: nat, h': nat, n: nat)
    requires n > 5 ==> LsbBits(h, n - 5) == LsbBits(h', n - 5)
    ensures LsbBits(32 * h, n) == LsbBits(32 * h', n)
  {
    hide Pow2;
    Pow2Is32();
    if n > 5 {
      LsbJoin(32 * h, 0, 5, 32, h, n - 5);
      LsbJoin(32 * h', 0, 5, 32, h', n - 5);
    } else {
      Pow2Add(n, 5 - n);
      ShiftAway(h, n, Pow2(n), Pow2(5 - n));
      ShiftAway(h', n, Pow2(n), Pow2(5 - n));
    }
  }

  lemma Pow2Is32()
    ensures Pow2(5) == 32 && Pow2(13) == 8192
  {
    PowersTo5();
    PowersTo13();
  }

  lemma ShiftAway(h: nat, n: nat, p: nat, q: nat)
    requires p == Pow2(n) && p * q == 32
    ensures LsbBits(32 * h, n) == LsbBits(0, n)
  {
    assert 32 * h == 0 + (q * h) * p;
    LsbMod(32 * h, 0, n, p, q * h);
  }

  lemma UpdateBits(h: nat, c: byte, n: nat)
    requires n <= 13
    ensures LsbBits(Update(h, c), n) == LsbBits(BitXor(32 * h, c), n)
  {
    var v := BitXor(32 * h, c);
    Pow2Is32();
    LsbMod(v, v % 8192, 13, 8192, v / 8192);
    LsbPrefix(v, v % 8192, n, 13);
  }

  lemma {:induction false} LsbPrefix(a: nat, b: nat, n: nat, m: nat)
    requires n <= m && LsbBits(a, m) == LsbBits(b, m)
    ensures LsbBits(a, n) == LsbBits(b, n)
  {
    if n > 0 {
      LsbHalves(a, b, m);
      LsbPrefix(a / 2, b / 2, n - 1, m - 1);
    }
  }

  /** Five bits of history are forgotten with every update. */
  lemma UpdateLow(h: nat, h': nat, c: byte, n: nat)
    requires n <= 13 && (n > 5 ==> LsbBits(h, n - 5) == LsbBits(h', n - 5))
    ensures LsbBits(Update(h, c), n) == LsbBits(Update(h', c), n)
  {
    hide Update, LsbBits, BitXor;
    ShiftLow(h, h', n);
    XorLow(32 * h, 32 * h', c, n);
    UpdateBits(h, c, n);
    UpdateBits(h', c, n);
  }

  lemma SameHash(h: nat, h': nat)
    requires h < HASH_SIZE && h' < HASH_SIZE && LsbBits(h, 13) == LsbBits(h', 13)
    ensures h == h'
  {
    hide LsbBits;
    Pow2Is32();
    ValueOfLsb(h, 13);
    ValueOfLsb(h', 13);
  }

  /** h already contains the two bytes at i, as far as it matters. */
  ghost predicate Primed(h: nat, win: seq<byte>, i: nat) {
    && i + 1 < |win| && h < HASH_SIZE
    && LsbBits(h, 8) == LsbBits(Update(Update(0, win[i]), win[i + 1]), 8)
  }

  /** Adding the third byte completes the hash and prepares the next one. */
  lemma HashStep(h: nat, win: seq<byte>, i: nat)
    requires Primed(h, win, i) && i + 2 < |win|
    ensures Update(h, win[i + 2]) == Hash(win, i)
    ensures Primed(Update(h, win[i + 2]), win, i + 1)
  {
    hide Update, LsbBits;
    var g := Update(Update(0, win[i]), win[i + 1]);
    UpdateLow(h, g, win[i + 2], 13);
    SameHash(Update(h, win[i + 2]), Hash(win, i));
    UpdateLow(Update(0, win[i]), 0, win[i + 1], 3);
    UpdateLow(g, Update(0, win[i + 1]), win[i + 2], 8);
  }

  lemma PrimedStart(win: seq<byte>)
    requires |win| >= 2
    ensures Primed(Update(Update(0, win[0]), win[1]), win, 0)
  {
  }

  /** Equal hashes and two equal bytes force the third. */
  lemma ThirdByte(win: seq<byte>, i: nat, j: nat)
    requires i + 2 < |win| && j + 2 < |win|
    requires Hash(win, i) == Hash(win, j) && win[i] == win[j] && win[i + 1] == win[j + 1]
    ensures win[i + 2] == win[j + 2]
  {
    hide Update, LsbBits, BitXor;
    var g := Update(Update(0, win[i]), win[i + 1]);
    UpdateBits(g, win[i + 2], 13);
    UpdateBits(g, win[j + 2], 13);
    XorCancel(32 * g, win[i + 2], win[j + 2], 13);
    Pow2Is32();
    ValueOfLsb(win[i + 2], 13);
    ValueOfLsb(win[j + 2], 13);
  }

  /** Only the bytes matter. */
  lemma HashSame(win: seq<byte>, i: nat, win': seq<byte>, j: nat)
    requires i + 2 < |win| && j + 2 < |win'|
    requires win[i] == win'[j] && win[i + 1] == win'[j + 1] && win[i + 2] == win'[j + 2]
    ensures Hash(win, i) == Hash(win', j)
  {
  }
}
