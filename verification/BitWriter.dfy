/** The "bit string" routines: an output buffer of bytes, and a 32-bit
    accumulator that is filled from its least significant end. */
module BitWriters {
  import opened Bits

  const OUTBUFSIZ: nat := 8192
  const BUF_SIZE: nat := 32

  class BitWriter {
    var written: seq<byte>        // what xwrite() has put on the output descriptor
    const outbuf: array<byte>
    var outcnt: nat
    var biBuf: nat
    var biValid: nat

    /** Holds between calls: neither buffer is full, no stray bit above bi_valid. */
    ghost predicate Valid()
      reads this, outbuf
    {
      && Room()
      && biValid < BUF_SIZE
      && biBuf < Pow2(biValid)
    }

    ghost predicate Room()
      reads this
    {
      outbuf.Length == OUTBUFSIZ && outcnt < OUTBUFSIZ
    }

    /** All bytes output so far, whether or not they have left the buffer. */
    ghost function Bytes(): seq<byte>
      reads this, outbuf
      requires outcnt <= outbuf.Length
    {
      written + outbuf[..outcnt]
    }

    /** All bits sent so far, in order. */
    ghost function Stream(): seq<bool>
      reads this, outbuf
      requires outcnt <= outbuf.Length
    {
      BytesBits(Bytes()) + LsbBits(biBuf, biValid)
    }

    lemma Drained()
      requires outcnt <= outbuf.Length && biValid == 0
      ensures Stream() == BytesBits(Bytes())
    {
      NoBits(BytesBits(Bytes()), biBuf);
    }

    constructor ()
      ensures Valid() && fresh(outbuf)
      ensures Bytes() == [] && Stream() == [] && biValid == 0
    {
      written := [];
      outbuf := new byte[OUTBUFSIZ];
      outcnt, biBuf, biValid := 0, 0, 0;
    }

    method FlushOutbuf()
      requires outcnt <= outbuf.Length
      modifies this`written, this`outcnt
      ensures outcnt == 0
      ensures Bytes() == old(Bytes())
    {
      if outcnt == 0 { return; }
      written := written + outbuf[..outcnt];
      outcnt := 0;
    }

    method Put8bit(c: byte)
      requires Room()
      modifies this`written, this`outcnt, outbuf
      ensures Room()
      ensures Bytes() == old(Bytes()) + [c]
    {
      outbuf[outcnt] := c;
      outcnt := outcnt + 1;
      assert outbuf[..outcnt] == old(outbuf[..outcnt]) + [c];
      if outcnt == OUTBUFSIZ {
        FlushOutbuf();
      }
    }

    method Put16bit(w: nat)
      requires Room()
      requires w < 0x10000
      modifies this`written, this`outcnt, outbuf
      ensures Room()
      ensures Bytes() == old(Bytes()) + Le16(w)
    {
      var cnt := outcnt;
      if cnt < OUTBUFSIZ - 2 {
        outbuf[cnt], outbuf[cnt + 1] := w % 256, w / 256;
        outcnt := cnt + 2;
        assert outbuf[..outcnt] == old(outbuf[..outcnt]) + Le16(w);
        return;
      }
      outbuf[cnt] := w % 256;
      cnt := cnt + 1;
      outcnt := cnt;
      assert outbuf[..outcnt] == old(outbuf[..outcnt]) + [w % 256];
      if cnt == OUTBUFSIZ {
        FlushOutbuf();
      }
      Put8bit(w / 256);
      assert [w % 256] + [w / 256] == Le16(w);
    }

    method Put32bit(n: nat)
      requires Room()
      requires n < 0x1_0000_0000
      modifies this`written, this`outcnt, outbuf
      ensures Room()
      ensures Bytes() == old(Bytes()) + Le32(n)
    {
      Put16bit(n % 0x10000);
      Put16bit(n / 0x10000);
    }

    /** Appends exactly the `length` low bits of `value` to the stream. */
    method SendBits(value: nat, length: nat)
      requires Valid()
      requires length <= 16 && value < Pow2(length)
      modifies this, outbuf
      ensures Valid()
      ensures Stream() == old(Stream()) + LsbBits(value, length)
    {
      hide BytesBits, LsbBits, BitOr;
      ghost var bytes, buf, valid := Bytes(), biBuf, biValid;
      // the shift drops what does not fit in 32 bits
      var newBuf := BitOr(biBuf, U32(value * Pow2(biValid)));
      var len := length + biValid;
      if len >= BUF_SIZE {
        var rest := Shr(value, BUF_SIZE - biValid);
        Spill(bytes, buf, valid, value, length, newBuf);
        Put32bit(newBuf);
        newBuf := rest;
        len := len - BUF_SIZE;
      } else {
        Accumulate(bytes, buf, valid, value, length, newBuf);
      }
      biBuf := newBuf;
      biValid := len;
    }

    /** Pads with zero bits up to a byte boundary. */
    method Windup()
      requires Valid()
      modifies this, outbuf
      ensures Valid() && biValid == 0
      ensures Stream() == BytesBits(Bytes()) == Padded(old(Stream()))
    {
      hide BytesBits, LsbBits, Shr, Padded, Pow2, Zeros, ByteCount;
      var bits := biBuf;
      var cnt: int := biValid;
      ghost var want := Padded(Stream());
      ghost var left := ByteCount(biValid);
      PadBits(Bytes(), bits, biValid, left);
      ghost var extra := 8 * left - cnt;
      while cnt > 0
        invariant Room()
        invariant left >= 0 && 8 * left == cnt + extra && 0 <= extra < 8
        invariant Draining(Bytes(), bits, left, want)
      {
        OneByte(Bytes(), bits, left, want);
        Put8bit(bits % 256);
        bits := Shr(bits, 8);
        cnt := cnt - 8;
        left := left - 1;
      }
      NoBits(BytesBits(Bytes()), bits);
      biBuf := 0;
      biValid := 0;
      Drained();
    }

    /** The copying loop of a stored block. */
    method PutBytes(buf: seq<byte>)
      requires Room()
      modifies this`written, this`outcnt, outbuf
      ensures Room()
      ensures Bytes() == old(Bytes()) + buf
    {
      ghost var start := Bytes();
      var i := 0;
      while i < |buf|
        invariant 0 <= i <= |buf|
        invariant Room()
        invariant Bytes() == start + buf[..i]
      {
        Put8bit(buf[i]);
        assert buf[..i + 1] == buf[..i] + [buf[i]];
        Assoc(start, buf[..i], [buf[i]]);
        i := i + 1;
      }
      assert buf[..i] == buf;
    }

    /** Writes a stored block body: pad, the 16-bit length and its complement, the bytes. */
    method CopyBlock(buf: seq<byte>)
      requires Valid()
      requires |buf| <= 0xffff
      modifies this, outbuf
      ensures Valid() && biValid == 0
      ensures Stream() == Padded(old(Stream()))
                        + (LsbBits(|buf|, 16) + (LsbBits(0xffff - |buf|, 16) + BytesBits(buf)))
    {
      hide Padded, BitWriter.Bytes, Pow2, BytesBits, BitWriter.Stream, BitOr, Le32, Zeros;
      Windup();
      ghost var start := Bytes();
      var v := LenWord(|buf|);
      Put32bit(v);
      PutBytes(buf);
      Drained();
      assert Bytes() == start + Le32(v) + buf;
      StoredWords(start, |buf|, buf);
    }
  }

  function Le16(w: nat): (s: seq<byte>)
    requires w < 0x10000
    ensures |s| == 2
  {
    [w % 256, w / 256]
  }

  function Le32(n: nat): (s: seq<byte>)
    requires n < 0x1_0000_0000
    ensures |s| == 4
  {
    Le16(n % 0x10000) + Le16(n / 0x10000)
  }

  /** s followed by the zero bits that complete its last byte. */
  function Padded(s: seq<bool>): seq<bool> {
    s + Zeros(8 * ByteCount(|s|) - |s|)
  }

  // ----- bytes written low end first are bits written low end first

  lemma Le16Bits(s: seq<byte>, w: nat)
    requires w < 0x10000
    ensures BytesBits(s + Le16(w)) == BytesBits(s) + LsbBits(w, 16)
  {
    var lo, hi := w % 256, w / 256;
    assert s + Le16(w) == s + [lo] + [hi];
    BytesBitsOne(s, lo);
    BytesBitsOne(s + [lo], hi);
    Pow2At8();
    LsbJoin(w, lo, 8, 256, hi, 8);
    Assoc(BytesBits(s), LsbBits(lo, 8), LsbBits(hi, 8));
  }

  lemma Le32Bits(s: seq<byte>, n: nat)
    requires n < 0x1_0000_0000
    ensures BytesBits(s + Le32(n)) == BytesBits(s) + LsbBits(n, 32)
  {
    var lo, hi := n % 0x10000, n / 0x10000;
    Assoc(s, Le16(lo), Le16(hi));
    Le16Bits(s, lo);
    Le16Bits(s + Le16(lo), hi);
    Pow2At16();
    LsbJoin(n, lo, 16, 0x10000, hi, 16);
    Assoc(BytesBits(s), LsbBits(lo, 16), LsbBits(hi, 16));
  }

  /** The bytes written and the n bytes still in the accumulator make up want. */
  ghost predicate Draining(s: seq<byte>, bits: nat, n: nat, want: seq<bool>) {
    BytesBits(s) + LsbBits(bits, 8 * n) == want
  }

  /** One byte moves from the accumulator to the buffer. */
  lemma OneByte(s: seq<byte>, bits: nat, n: nat, want: seq<bool>)
    requires n > 0 && Draining(s, bits, n, want)
    ensures Draining(s + [bits % 256], Shr(bits, 8), n - 1, want)
  {
    BytesBitsOne(s, bits % 256);
    LsbSplit(bits, 8, 8 * (n - 1));
    Pow2At8();
    LsbMod(bits, bits % 256, 8, 256, bits / 256);
    Assoc(BytesBits(s), LsbBits(bits, 8), LsbBits(Shr(bits, 8), 8 * (n - 1)));
  }

  /** The bytes that n bits occupy. */
  function ByteCount(n: nat): (r: nat)
    ensures n <= 8 * r < n + 8
  {
    (n + 7) / 8
  }

  lemma NoBits(s: seq<bool>, v: nat)
    ensures s + LsbBits(v, 0) == s
  {
  }

  /** Zero bits above the top of v are v's own. */
  lemma PadLsb(v: nat, n: nat, r: nat)
    requires v < Pow2(n) && n <= r
    ensures LsbBits(v, n) + Zeros(r - n) == LsbBits(v, r)
  {
    var fill := r - n;
    LsbJoin(v, v, n, Pow2(n), 0, fill);
    LsbZero(fill);
  }

  lemma PadBits(s: seq<byte>, v: nat, n: nat, r: nat)
    requires v < Pow2(n) && r == ByteCount(n)
    ensures Draining(s, v, r, Padded(BytesBits(s) + LsbBits(v, n)))
  {
    hide BytesBits, LsbBits;
    PadLsb(v, n, 8 * r);
    Assoc(BytesBits(s), LsbBits(v, n), Zeros(8 * r - n));
    assert ByteCount(8 * |s| + n) == |s| + r;
  }

  // ----- arithmetic of the accumulator

  lemma ShiftBound(value: nat, length: nat, shift: nat)
    requires value < Pow2(length)
    ensures value * Pow2(shift) + Pow2(shift) <= Pow2(length + shift)
  {
    Pow2Add(length, shift);
    MulStep(value, Pow2(length), Pow2(shift));
  }

  lemma {:induction false} Divide(v: nat, q: nat) returns (hi: nat, lo: nat)
    requires q > 0
    ensures v == hi * q + lo && lo < q
  {
    if v < q {
      hi, lo := 0, v;
    } else {
      hi, lo := Divide(v - q, q);
      assert (hi + 1) * q == hi * q + q;
      hi := hi + 1;
    }
  }

  lemma Distribute(hi: nat, q: nat, lo: nat, p: nat)
    ensures (hi * q + lo) * p == lo * p + hi * (p * q)
  {
    assert (hi * q + lo) * p == hi * q * p + lo * p;
  }

  lemma ModAdd(v: nat, a: nat, k: nat)
    requires a < 0x1_0000_0000 && v == a + k * 0x1_0000_0000
    ensures U32(v) == a
  {
  }

  /** Cutting value << valid to 32 bits keeps the low 32 - valid bits of value. */
  lemma ShiftedWord(valid: nat, value: nat) returns (lo: nat, hi: nat)
    requires valid < 32
    ensures value * Pow2(valid) == lo * Pow2(valid) + hi * 0x1_0000_0000
    ensures lo * Pow2(valid) + Pow2(valid) <= 0x1_0000_0000
    ensures U32(value * Pow2(valid)) == lo * Pow2(valid)
  {
    var p, q := Pow2(valid), Pow2(32 - valid);
    WordParts(valid);
    hi, lo := Divide(value, q);
    Distribute(hi, q, lo, p);
    ShiftParts(lo, p, q);
    ModAdd(value * p, lo * p, hi);
  }

  lemma WordParts(valid: nat)
    requires valid < 32
    ensures Pow2(valid) * Pow2(32 - valid) == 0x1_0000_0000
  {
    Pow2At32();
    Pow2Add(valid, 32 - valid);
  }

  lemma ShiftParts(lo: nat, p: nat, q: nat)
    requires lo < q
    ensures lo * p + p <= p * q
  {
    MulStep(lo, q, p);
  }

  /** The accumulator after the OR is the sum, cut to 32 bits. */
  lemma OrWord(buf: nat, valid: nat, value: nat)
    requires valid < 32 && buf < Pow2(valid)
    ensures BitOr(buf, U32(value * Pow2(valid))) == U32(buf + value * Pow2(valid))
  {
    var lo, hi := ShiftedWord(valid, value);
    var p := Pow2(valid);
    OrIsSum(buf, valid, p, lo, lo * p);
    ModAdd(buf + value * p, buf + lo * p, hi);
  }

  /** The common branch: everything still fits in the accumulator. */
  lemma U32Fits(v: nat)
    requires v < 0x1_0000_0000
    ensures U32(v) == v
  {
  }

  lemma Accumulate(s: seq<byte>, buf: nat, valid: nat, value: nat, length: nat, word: nat)
    requires valid < 32 && buf < Pow2(valid) && value < Pow2(length)
    requires length + valid < 32
    requires word == BitOr(buf, U32(value * Pow2(valid)))
    ensures word < Pow2(length + valid)
    ensures BytesBits(s) + LsbBits(word, length + valid)
         == BytesBits(s) + LsbBits(buf, valid) + LsbBits(value, length)
  {
    hide Pow2, BitOr, U32, LsbBits, BytesBits;
    OrWord(buf, valid, value);
    ShiftBound(value, length, valid);
    Pow2Mono(length + valid, 32);
    Pow2At32();
    U32Fits(buf + value * Pow2(valid));
    LsbJoin(word, buf, valid, Pow2(valid), value, length);
    Assoc(BytesBits(s), LsbBits(buf, valid), LsbBits(value, length));
  }

  /** The full branch: 32 bits leave as four bytes and the rest stays behind. */
  lemma Spill(s: seq<byte>, buf: nat, valid: nat, value: nat, length: nat, word: nat)
    requires valid < 32 && buf < Pow2(valid) && value < Pow2(length)
    requires length + valid >= 32
    requires word == BitOr(buf, U32(value * Pow2(valid)))
    ensures word < 0x1_0000_0000
    ensures var rest, left := Shr(value, 32 - valid), length + valid - 32;
            && rest < Pow2(left)
            && BytesBits(s + Le32(word)) + LsbBits(rest, left)
            == BytesBits(s) + LsbBits(buf, valid) + LsbBits(value, length)
  {
    hide BitOr, U32, LsbBits, BytesBits, Shr, Le32, Pow2;
    OrWord(buf, valid, value);
    var rest, left := Shr(value, 32 - valid), length + valid - 32;
    ShrBound(value, 32 - valid, left);
    var total := buf + value * Pow2(valid);
    LsbJoin(total, buf, valid, Pow2(valid), value, length);
    ShrAdd(total, valid, 32 - valid);
    ShrJoin(total, buf, valid, Pow2(valid), value);
    CutWord(total, word, left);
    Le32Bits(s, word);
    Assoc(BytesBits(s), LsbBits(word, 32), LsbBits(rest, left));
    Assoc(BytesBits(s), LsbBits(buf, valid), LsbBits(value, length));
  }

  lemma CutWord(total: nat, word: nat, left: nat)
    requires word == U32(total)
    ensures LsbBits(total, 32 + left) == LsbBits(word, 32) + LsbBits(Shr(total, 32), left)
  {
    Pow2At32();
    LsbSplit(total, 32, left);
    LsbMod(total, word, 32, 0x1_0000_0000, total / 0x1_0000_0000);
  }

  // ----- stored block headers

  /** (uint16_t)len | ((~len) << 16): the complement's high half falls off the top. */
  function LenWord(len: nat): (v: nat)
    requires len <= 0xffff
    ensures v == len + (0xffff - len) * 0x10000
  {
    Pow2At16();
    ModAdd((0xffff_ffff - len) * 0x10000, (0xffff - len) * 0x10000, 0xffff);
    OrIsSum(len, 16, 0x10000, 0xffff - len, (0xffff - len) * 0x10000);
    BitOr(len % 0x10000, U32((0xffff_ffff - len) * 0x10000))
  }

  lemma LenBits(len: nat, word: nat)
    requires len <= 0xffff && word == LenWord(len)
    ensures LsbBits(word, 32) == LsbBits(len, 16) + LsbBits(0xffff - len, 16)
  {
    Pow2At16();
    LsbJoin(word, len, 16, 0x10000, 0xffff - len, 16);
  }

  lemma StoredWords(s: seq<byte>, len: nat, buf: seq<byte>)
    requires len <= 0xffff
    ensures BytesBits(s + Le32(LenWord(len)) + buf)
         == BytesBits(s) + (LsbBits(len, 16) + (LsbBits(0xffff - len, 16) + BytesBits(buf)))
  {
    var word := LenWord(len);
    BytesBitsAppend(s + Le32(word), buf);
    Le32Bits(s, word);
    LenBits(len, word);
    var a, b := LsbBits(len, 16), LsbBits(0xffff - len, 16);
    Assoc(BytesBits(s), a + b, BytesBits(buf));
    Assoc(a, b, BytesBits(buf));
  }
}
