/** The buffers l_buf, d_buf and flag_buf: a block's tokens as ct_tally packs them. */
module TokenBuffers {
  import opened Bits
  import opened Heaps
  import opened Tokens

  const LIT_BUFSIZE: nat := 8192

  function IsMatch(t: Token): nat {
    if t.Match? then 1 else 0
  }

  /** What l_buf holds for a token. */
  function Lc(t: Token): byte {
    match t
    case Literal(b) => b
    case Match(l, _) => l
  }

  function Matches(ts: seq<Token>): nat {
    if ts == [] then 0 else Matches(ts[..|ts| - 1]) + IsMatch(ts[|ts| - 1])
  }

  lemma MatchesSnoc(ts: seq<Token>, t: Token)
    ensures Matches(ts + [t]) == Matches(ts) + IsMatch(t)
  {
    assert (ts + [t])[..|ts|] == ts;
  }

  lemma {:induction false} MatchesBound(ts: seq<Token>)
    ensures Matches(ts) <= |ts|
  {
    if ts != [] { MatchesBound(ts[..|ts| - 1]); }
  }

  lemma {:induction false} MatchesMono(ts: seq<Token>, i: nat, j: nat)
    requires i <= j <= |ts|
    ensures Matches(ts[..i]) <= Matches(ts[..j])
    ensures i < j && ts[i].Match? ==> Matches(ts[..i]) < Matches(ts[..j])
    decreases j - i
  {
    if i < j {
      assert ts[..j][..j - 1] == ts[..j - 1];
      MatchesMono(ts, i, j - 1);
    }
  }

  /** The flags of some tokens as a number, the first in the lowest bit. */
  function Flags(ts: seq<Token>): nat {
    if ts == [] then 0 else IsMatch(ts[0]) + 2 * Flags(ts[1..])
  }

  lemma {:induction false} FlagsBound(ts: seq<Token>)
    ensures Flags(ts) < Pow2(|ts|)
  {
    if ts != [] { FlagsBound(ts[1..]); }
  }

  lemma {:induction false} FlagsSnoc(ts: seq<Token>, t: Token)
    ensures Flags(ts + [t]) == Flags(ts) + IsMatch(t) * Pow2(|ts|)
  {
    if ts == [] {
      assert [t][1..] == [];
      assert ts + [t] == [t];
    } else {
      FlagsSnoc(ts[1..], t);
      assert (ts + [t])[1..] == ts[1..] + [t];
    }
  }

  function Least(a: nat, b: nat): nat {
    if a <= b then a else b
  }

  /** The g-th group of eight tokens, or what there is of it. */
  function Group(ts: seq<Token>, g: nat): seq<Token>
    requires 8 * g <= |ts|
  {
    ts[8 * g..Least(8 * g + 8, |ts|)]
  }

  lemma GroupSnoc(ts: seq<Token>, t: Token, g: nat)
    requires 8 * g <= |ts|
    ensures 8 * g + 8 <= |ts| ==> Group(ts + [t], g) == Group(ts, g)
    ensures |ts| < 8 * g + 8 ==> Group(ts + [t], g) == Group(ts, g) + [t]
  {
  }

  /** The literal and the distance buffer hold ts. */
  ghost predicate Buffered(lb: seq<byte>, db: seq<ush>, ts: seq<Token>) {
    && |lb| == |db| == LIT_BUFSIZE && |ts| <= LIT_BUFSIZE && TokensOk(ts)
    && (forall i :: 0 <= i < |ts| ==> TokenAt(lb, db, ts, i))
  }

  ghost predicate TokenAt(lb: seq<byte>, db: seq<ush>, ts: seq<Token>, i: nat)
    requires i < |ts|
  {
    && i < |lb| && lb[i] == Lc(ts[i])
    && (ts[i].Match? ==> Matches(ts[..i]) < |db| && db[Matches(ts[..i])] == ts[i].dist)
  }

  /** Of the flags, the first `full` groups are in the buffer. */
  ghost predicate Flagged(fb: seq<byte>, ts: seq<Token>, full: nat) {
    && |fb| == 1024 && full <= 1024 && 8 * full <= |ts| + 7
    && (forall g :: 0 <= g < full ==> 8 * g <= |ts| && fb[g] == Flags(Group(ts, g)))
  }

  lemma BufferMore(lb: seq<byte>, db: seq<ush>, ts: seq<Token>, t: Token, lb': seq<byte>, db': seq<ush>)
    requires Buffered(lb, db, ts) && |ts| < LIT_BUFSIZE && TokenOk(t)
    requires lb' == lb[|ts| := Lc(t)]
    requires t.Literal? ==> db' == db
    requires t.Match? ==> Matches(ts) < |db| && db' == db[Matches(ts) := t.dist]
    ensures Buffered(lb', db', ts + [t])
  {
    hide Matches;
    var us := ts + [t];
    forall i | 0 <= i < |us|
      ensures TokenAt(lb', db', us, i)
    {
      assert us[..i] == ts[..i];
      if i < |ts| {
        assert TokenAt(lb, db, ts, i);
        if ts[i].Match? {
          MatchesMono(ts, i, |ts|);
          assert ts[..|ts|] == ts;
        }
      } else {
        assert us[..i] == ts;
      }
    }
  }

  lemma FlagsMore(fb: seq<byte>, ts: seq<Token>, t: Token, full: nat)
    requires Flagged(fb, ts, full) && 8 * full <= |ts|
    ensures Flagged(fb, ts + [t], full)
  {
    hide Flags, Group;
    forall g | 0 <= g < full
      ensures 8 * g <= |ts| && fb[g] == Flags(Group(ts + [t], g))
    {
      GroupSnoc(ts, t, g);
    }
  }

  /** The group being filled. */
  ghost predicate Filling(flags: nat, flagBit: nat, ts: seq<Token>, full: nat) {
    && 8 * full <= |ts| < 8 * full + 8
    && flags == Flags(Group(ts, full)) && flagBit == Pow2(|ts| - 8 * full)
  }

  /** flags |= flag_bit for a match; the bit above the others. */
  lemma FlagSet(flags: nat, flagBit: nat, ts: seq<Token>, full: nat, t: Token)
    requires Filling(flags, flagBit, ts, full)
    ensures BitOr(flags, flagBit) == flags + flagBit
    ensures Flags(Group(ts + [t], full)) == flags + IsMatch(t) * flagBit
    ensures Flags(Group(ts + [t], full)) < 256
    ensures flagBit <= 128 && (|ts| + 1 == 8 * full + 8 <==> flagBit == 128)
  {
    var n := |ts| - 8 * full;
    GroupSnoc(ts, t, full);
    FlagsBound(Group(ts, full));
    OrIsSum(flags, n, Pow2(n), 1, flagBit);
    FlagsSnoc(Group(ts, full), t);
    FlagsBound(Group(ts + [t], full));
    Pow2Mono(n + 1, 8);
    Pow2Mono(n, 7);
    if n < 7 { Pow2Mono(n, 6); }
    SmallBytes();
  }

  lemma SmallBytes()
    ensures Pow2(6) == 64 && Pow2(7) == 128 && Pow2(8) == 256
  {
  }

  class TokenBuffer {
    const lBuf: array<byte>
    const dBuf: array<ush>
    const flagBuf: array<byte>
    var lastLit: nat
    var lastDist: nat
    var lastFlags: nat
    var flags: byte
    var flagBit: byte
    ghost var tokens: seq<Token>

    /** The buffers hold the tokens of the current block. */
    ghost predicate Valid()
      reads this, lBuf, dBuf, flagBuf
    {
      && lBuf != flagBuf
      && lastLit == |tokens| && lastDist == Matches(tokens)
      && Buffered(lBuf[..], dBuf[..], tokens)
      && Flagged(flagBuf[..], tokens, lastFlags)
      && Filling(flags, flagBit, tokens, lastFlags)
    }

    constructor ()
      ensures Valid() && tokens == []
      ensures fresh(lBuf) && fresh(dBuf) && fresh(flagBuf)
    {
      lBuf := new byte[LIT_BUFSIZE];
      dBuf := new ush[LIT_BUFSIZE];
      flagBuf := new byte[LIT_BUFSIZE / 8];
      lastLit, lastDist, lastFlags, flags, flagBit := 0, 0, 0, 0, 1;
      tokens := [];
    }

    /** What init_block does here. */
    method Clear()
      requires lBuf != flagBuf && lBuf.Length == dBuf.Length == LIT_BUFSIZE && flagBuf.Length == 1024
      modifies this
      ensures Valid() && tokens == []
    {
      lastLit, lastDist, lastFlags, flags, flagBit := 0, 0, 0, 0, 1;
      tokens := [];
    }

    /** The storing half of ct_tally: lc, and the distance less 1 of a match. */
    method Put(lc: byte, isMatch: bool, dist: nat)
      requires Valid() && |tokens| < LIT_BUFSIZE - 1
      requires isMatch ==> dist < 0x8000
      modifies this`lastLit, this`lastDist, this`flags, this`tokens, lBuf, dBuf
      ensures tokens == old(tokens) + [if isMatch then Match(lc, dist) else Literal(lc)]
      ensures lastLit == |tokens| && lastDist == Matches(tokens)
      ensures Buffered(lBuf[..], dBuf[..], tokens)
      ensures Flagged(flagBuf[..], tokens, lastFlags) && 8 * lastFlags <= |tokens|
      ensures flags == Flags(Group(tokens, lastFlags)) && flagBit <= 128
      ensures |tokens| == 8 * lastFlags + 8 <==> flagBit == 128
      ensures flagBit == Pow2(|tokens| - 1 - 8 * lastFlags) && |tokens| <= 8 * lastFlags + 8
    {
      hide Matches, Flags, Group, BitOr, Pow2;
      ghost var ts, t := tokens, if isMatch then Match(lc, dist) else Literal(lc);
      ghost var lb, db := lBuf[..], dBuf[..];
      FlagSet(flags, flagBit, ts, lastFlags, t);
      MatchesSnoc(ts, t);
      MatchesBound(ts);
      lBuf[lastLit] := lc;
      lastLit := lastLit + 1;
      if isMatch {
        dBuf[lastDist] := dist;
        lastDist := lastDist + 1;
        flags := BitOr(flags, flagBit);
      }
      tokens := tokens + [t];
      BufferMore(lb, db, ts, t, lBuf[..], dBuf[..]);
      FlagsMore(flagBuf[..], ts, t, lastFlags);
    }

    /** One more token is in the buffers; a full byte of flags is stored and the next one begun. */
    method Add(lc: byte, isMatch: bool, dist: nat)
      requires Valid() && |tokens| < LIT_BUFSIZE - 1
      requires isMatch ==> dist < 0x8000
      modifies this, lBuf, dBuf, flagBuf
      ensures Valid()
      ensures tokens == old(tokens) + [if isMatch then Match(lc, dist) else Literal(lc)]
    {
      hide Matches, Flags, Group, Pow2, Buffered;
      Put(lc, isMatch, dist);
      ghost var fb, bit := flagBuf[..], flagBit;
      flagBit := 2 * flagBit % 256;
      if lastLit % 8 == 0 {
        EightFlags(|tokens|, lastFlags);
        flagBuf[lastFlags] := flags;
        lastFlags := lastFlags + 1;
        flags := 0;
        flagBit := 1;
        GroupDone(fb, flagBuf[..], tokens, lastFlags - 1, lastFlags);
      } else {
        NotEight(tokens, lastFlags, bit, flagBit);
      }
    }
  }

  lemma EightFlags(n: nat, full: nat)
    requires 8 * full < n <= 8 * full + 8 && n % 8 == 0 && n < LIT_BUFSIZE
    ensures n == 8 * full + 8 && full < 1024
  {
  }

  lemma NotEight(ts: seq<Token>, full: nat, bit: nat, next: nat)
    requires 8 * full < |ts| <= 8 * full + 8 && |ts| % 8 != 0
    requires bit == Pow2(|ts| - 1 - 8 * full) && bit <= 128 && (|ts| == 8 * full + 8 <==> bit == 128)
    requires next == 2 * bit % 256
    ensures 8 * full <= |ts| < 8 * full + 8 && next == Pow2(|ts| - 8 * full)
  {
    assert Pow2(|ts| - 8 * full) == 2 * bit;
    var n := |ts| - 1 - 8 * full;
    SmallBytes();
    Pow2Mono(n, 6);
  }

  lemma GroupDone(fb: seq<byte>, fb': seq<byte>, ts: seq<Token>, full: nat, next: nat)
    requires Flagged(fb, ts, full) && |ts| == 8 * full + 8 && next == full + 1 && full < 1024
    requires Flags(Group(ts, full)) < 256 && fb' == fb[full := Flags(Group(ts, full))]
    ensures Flagged(fb', ts, next) && Filling(0, 1, ts, next)
  {
    assert Group(ts, next) == [];
  }
}
