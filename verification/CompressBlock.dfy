/** compress_block: reading the buffered tokens back and sending them with the given trees. */
module CompressBlocks {
  import opened Bits
  import opened BitWriters
  import opened Rfc1951
  import opened Heaps
  import opened TreeScans
  import opened Tokens
  import opened TokenPrices
  import opened TokenBuffers
  import opened CtInit

  /** The tables that ct_init fills once for all blocks. */
  class CtTables {
    const lengthCode: array<byte>
    const baseLength: array<nat>
    const distCode: array<byte>
    const baseDist: array<nat>

    ghost predicate Ready()
      reads lengthCode, baseLength, distCode, baseDist
    {
      LengthTables(lengthCode[..], baseLength[..]) && DistTables(distCode[..], baseDist[..])
    }

    constructor ()
      ensures Ready() && fresh(lengthCode) && fresh(baseLength) && fresh(distCode) && fresh(baseDist)
    {
      lengthCode := new byte[256];
      baseLength := new nat[29](_ => 0);
      distCode := new byte[512];
      baseDist := new nat[30];
      new;
      InitLengths(lengthCode, baseLength);
      InitDists(distCode, baseDist);
    }
  }

  lemma LengthEntryIs(codes: seq<byte>, bases: seq<nat>, l: byte)
    requires LengthTables(codes, bases)
    ensures codes[l] == LenSym(l) < 29
    ensures LengthExtra(LenSym(l)) != 0 ==>
              LenSym(l) < 28 && l >= bases[LenSym(l)] && LenRest(l) == l - bases[LenSym(l)]
    ensures LengthExtra(LenSym(l)) == 0 ==> LenRest(l) == 0
  {
    hide LenSym, LengthBase;
    NoExtraLast();
    var x := LenRest(l);
    assert LengthBase(LenSym(l)) + x == l + 3 && x < Pow2(LengthExtra(LenSym(l)));
  }

  lemma NoExtraLast()
    ensures LengthExtra(28) == 0
    ensures forall c :: 0 <= c < 29 ==> LengthExtra(c) <= 5
    ensures forall c :: 0 <= c < 30 ==> DistExtra(c) <= 13
  {
  }

  lemma DistEntryIs(codes: seq<byte>, bases: seq<nat>, d: nat)
    requires DistTables(codes, bases) && d < 0x8000
    ensures DCode(codes, d) == DistSym(d) < 30
    ensures DistExtra(DistSym(d)) != 0 ==> d >= bases[DistSym(d)] && DistRest(d) == d - bases[DistSym(d)]
    ensures DistExtra(DistSym(d)) == 0 ==> DistRest(d) == 0
  {
    hide DistBase, DistSym;
    DCodeIs(codes, bases, d);
    var x := DistRest(d);
    assert DistBase(DistSym(d)) + x == d + 1 && x < Pow2(DistExtra(DistSym(d)));
  }

  /** extra != 0: the extra bits, otherwise nothing. */
  method SendExtra(w: BitWriter, x: nat, extra: nat)
    requires w.Valid() && extra <= 13 && x < Pow2(extra)
    modifies w, w.outbuf
    ensures w.Valid() && w.Stream() == old(w.Stream()) + LsbBits(x, extra)
  {
    if extra != 0 {
      w.SendBits(x, extra);
    } else {
      assert w.Stream() + [] == w.Stream();
    }
  }

  /** Sends the length code and the extra length bits. */
  method SendLength(w: BitWriter, t: CtTables, fc: array<ush>, dl: array<ush>, lc: byte, ghost llens: seq<nat>, ghost n: nat)
    requires w.Valid() && t.Ready() && t.lengthCode != w.outbuf
    requires Book(fc[..], dl[..], llens, n) && LenSym(lc) + 257 < n <= |llens| && llens[LenSym(lc) + 257] > 0
    modifies w, w.outbuf
    ensures w.Valid()
    ensures w.Stream() == old(w.Stream()) + LengthBits(llens, lc)
  {
    hide LenSym, LengthExtra, LengthBase, LenRest, LsbBits, CodeBits, Entry;
    ghost var start := w.Stream();
    LengthEntryIs(t.lengthCode[..], t.baseLength[..], lc);
    NoExtraLast();
    var code: nat := t.lengthCode[lc];
    assert Entry(fc[..], dl[..], llens, code + 257);
    SendCode(w, fc, dl, code + 257, llens);
    var extra := LengthExtra(code);
    var x := 0;
    if extra != 0 { x := lc - t.baseLength[code]; }
    SendExtra(w, x, extra);
    Assoc(start, CodeBits(llens, code + 257), LsbBits(x, extra));
  }

  /** Sends the distance code and the extra distance bits. */
  method SendDist(w: BitWriter, t: CtTables, fc: array<ush>, dl: array<ush>, dist: nat, ghost dlens: seq<nat>, ghost n: nat)
    requires w.Valid() && t.Ready() && t.distCode != w.outbuf && dist < 0x8000
    requires Book(fc[..], dl[..], dlens, n) && DistSym(dist) < n <= |dlens| && dlens[DistSym(dist)] > 0
    modifies w, w.outbuf
    ensures w.Valid()
    ensures w.Stream() == old(w.Stream()) + DistBits(dlens, dist)
  {
    hide DistSym, DistExtra, DistBase, DistRest, LsbBits, CodeBits, Entry, Pow2, LengthTables, BitWriter.Stream;
    ghost var start := w.Stream();
    DistEntryIs(t.distCode[..], t.baseDist[..], dist);
    NoExtraLast();
    var code := DCode(t.distCode[..], dist);
    assert Entry(fc[..], dl[..], dlens, code);
    SendCode(w, fc, dl, code, dlens);
    var extra := DistExtra(code);
    var x := 0;
    if extra != 0 { x := dist - t.baseDist[code]; }
    SendExtra(w, x, extra);
    Assoc(start, CodeBits(dlens, code), LsbBits(x, extra));
  }

  // ----- reading the tokens back

  /** All flags are in the buffer, those of the last group too. */
  ghost predicate FlagsSaved(fb: seq<byte>, ts: seq<Token>) {
    |fb| == 1024 && forall g :: 0 <= g && 8 * g < |ts| ==> g < 1024 && fb[g] == Flags(Group(ts, g))
  }

  /** Once the last byte of flags is stored too, all flags are in the buffer. */
  lemma SaveLast(fb: seq<byte>, fb': seq<byte>, ts: seq<Token>, full: nat, flags: byte, bit: nat)
    requires Flagged(fb, ts, full) && Filling(flags, bit, ts, full) && full < 1024
    requires fb' == fb[full := flags]
    ensures FlagsSaved(fb', ts)
  {
    hide Flags, Group;
    forall g | 0 <= g && 8 * g < |ts|
      ensures g < 1024 && fb'[g] == Flags(Group(ts, g))
    {
      assert g <= full;
    }
  }

  /** Before token lx; dx matches are behind, j flags of the current byte are used up. */
  ghost predicate Reading(ts: seq<Token>, lx: nat, dx: nat, fx: nat, j: nat, flag: nat) {
    && lx <= |ts| && dx == Matches(ts[..lx]) && j <= 8 && lx + 8 == 8 * fx + j
    && (j < 8 ==> lx <= Least(8 * fx, |ts|) && flag == Flags(ts[lx..Least(8 * fx, |ts|)]))
  }

  lemma Reload(fb: seq<byte>, ts: seq<Token>, lx: nat, dx: nat, fx: nat, flag: nat, next: nat)
    requires FlagsSaved(fb, ts) && Reading(ts, lx, dx, fx, 8, flag) && lx < |ts| && next == fx + 1
    ensures fx < 1024 && Reading(ts, lx, dx, next, 0, fb[fx])
  {
    hide Flags, Matches;
  }

  lemma ReadOne(ts: seq<Token>, lx: nat, dx: nat, fx: nat, j: nat, flag: nat, lx': nat, dx': nat, j': nat)
    requires Reading(ts, lx, dx, fx, j, flag) && lx < |ts| && j < 8
    requires lx' == lx + 1 && j' == j + 1 && dx' == dx + IsMatch(ts[lx])
    ensures flag % 2 == IsMatch(ts[lx])
    ensures Reading(ts, lx', dx', fx, j', flag / 2)
  {
    hide Matches;
    var s := ts[lx..Least(8 * fx, |ts|)];
    assert s[1..] == ts[lx'..Least(8 * fx, |ts|)];
    assert ts[..lx'] == ts[..lx] + [ts[lx]];
    MatchesSnoc(ts[..lx], ts[lx]);
  }

  lemma PartSendable(llens: seq<nat>, dlens: seq<nat>, ts: seq<Token>, n: nat)
    requires CanSendAll(llens, dlens, ts) && n <= |ts|
    ensures CanSendAll(llens, dlens, ts[..n])
  {
  }

  lemma ReadStart(ts: seq<Token>)
    ensures Reading(ts, 0, 0, 0, 8, 0)
  {
    assert ts[..0] == [];
  }

  /** One more token has been sent. */
  lemma SentOne(start: seq<bool>, llens: seq<nat>, dlens: seq<nat>, ts: seq<Token>, n: nat, next: nat)
    requires CanSendAll(llens, dlens, ts) && n < |ts| && next == n + 1
    requires CanSendAll(llens, dlens, ts[..n]) && CanSendAll(llens, dlens, ts[..next])
    ensures start + TokensBits(llens, dlens, ts[..n]) + TokenBits(llens, dlens, ts[n])
         == start + TokensBits(llens, dlens, ts[..next])
  {
    hide TokenBits, CanSend;
    assert ts[..next][..n] == ts[..n];
    Assoc(start, TokensBits(llens, dlens, ts[..n]), TokenBits(llens, dlens, ts[n]));
  }

  /** Both trees have codes for the tokens. */
  ghost predicate TreesServe(lfc: seq<ush>, ldl: seq<ush>, dfc: seq<ush>, ddl: seq<ush>,
                             llens: seq<nat>, dlens: seq<nat>, n: nat, m: nat, ts: seq<Token>) {
    && 256 < n <= |llens| && m <= |dlens|
    && Book(lfc, ldl, llens, n) && Book(dfc, ddl, dlens, m)
    && CanSendAll(llens, dlens, ts) && Fits(ts, n, m)
  }

  /** Sends one token: a literal byte, or a length and a distance. */
  method SendToken(w: BitWriter, t: CtTables, buf: TokenBuffer, lfc: array<ush>, ldl: array<ush>, dfc: array<ush>, ddl: array<ush>,
                   isMatch: bool, lc: byte, dx: nat,
                   ghost llens: seq<nat>, ghost dlens: seq<nat>, ghost n: nat, ghost m: nat, ghost tok: Token)
    requires w.Valid() && t.Ready() && w.outbuf != t.lengthCode && w.outbuf != t.distCode
    requires n <= |llens| && m <= |dlens| && Book(lfc[..], ldl[..], llens, n) && Book(dfc[..], ddl[..], dlens, m)
    requires CanSend(llens, dlens, tok) && FitsOne(tok, n, m)
    requires isMatch == tok.Match? && lc == Lc(tok)
    requires isMatch ==> dx < buf.dBuf.Length && buf.dBuf[dx] == tok.dist
    modifies w, w.outbuf
    ensures w.Valid()
    ensures w.Stream() == old(w.Stream()) + TokenBits(llens, dlens, tok)
  {
    hide LenSym, DistSym, LengthBits, DistBits, CodeBits, Entry;
    ghost var start := w.Stream();
    if !isMatch {
      assert Entry(lfc[..], ldl[..], llens, lc);
      SendCode(w, lfc, ldl, lc, llens);
    } else {
      SendLength(w, t, lfc, ldl, lc, llens, n);
      SendDist(w, t, dfc, ddl, buf.dBuf[dx], dlens, m);
      Assoc(start, LengthBits(llens, lc), DistBits(dlens, tok.dist));
    }
  }

  /** Adds to the stream the codes and extra bits of all buffered tokens, and the end of the block. */
  method CompressBlock(w: BitWriter, t: CtTables, buf: TokenBuffer, lfc: array<ush>, ldl: array<ush>,
                       dfc: array<ush>, ddl: array<ush>,
                       ghost llens: seq<nat>, ghost dlens: seq<nat>, ghost n: nat, ghost m: nat)
    requires w.Valid() && t.Ready()
    requires {w.outbuf} !! {t.lengthCode, t.distCode, buf.lBuf, buf.flagBuf}
    requires buf.lastLit == |buf.tokens| && Buffered(buf.lBuf[..], buf.dBuf[..], buf.tokens)
    requires FlagsSaved(buf.flagBuf[..], buf.tokens)
    requires TreesServe(lfc[..], ldl[..], dfc[..], ddl[..], llens, dlens, n, m, buf.tokens)
    modifies w, w.outbuf
    ensures w.Valid()
    ensures w.Stream() == old(w.Stream()) + BodyBits(llens, dlens, buf.tokens)
  {
    hide Matches, Flags, Group, Entry, CanSend, FitsOne, TokenBits, TokensBits, CodeBits, BitWriter.Bytes, Pow2,
      LsbBits, CodeOf, BitWriter.Stream;
    ghost var start, ts, fb := w.Stream(), buf.tokens, buf.flagBuf[..];
    var lx, dx, fx, flag: nat := 0, 0, 0, 0;
    ghost var j := 8;
    assert ts[..0] == [];
    NothingYet(start, llens, dlens);
    ReadStart(ts);
    while lx < buf.lastLit
      invariant 1 <= j <= 8 && w.Valid() && t.Ready() && buf.flagBuf[..] == fb
      invariant Buffered(buf.lBuf[..], buf.dBuf[..], ts)
      invariant Book(lfc[..], ldl[..], llens, n) && Book(dfc[..], ddl[..], dlens, m)
      invariant Reading(ts, lx, dx, fx, j, flag)
      invariant CanSendAll(llens, dlens, ts[..lx])
      invariant w.Stream() == start + TokensBits(llens, dlens, ts[..lx])
    {
      assert j == 8 <==> lx % 8 == 0;
      if lx % 8 == 0 {
        Reload(fb, ts, lx, dx, fx, flag, fx + 1);
        flag := buf.flagBuf[fx];
        fx, j := fx + 1, 0;
      }
      ReadOne(ts, lx, dx, fx, j, flag, lx + 1, dx + IsMatch(ts[lx]), j + 1);
      assert TokenAt(buf.lBuf[..], buf.dBuf[..], ts, lx);
      PartSendable(llens, dlens, ts, lx + 1);
      SentOne(start, llens, dlens, ts, lx, lx + 1);
      SendToken(w, t, buf, lfc, ldl, dfc, ddl, flag % 2 == 1, buf.lBuf[lx], dx, llens, dlens, n, m, ts[lx]);
      if flag % 2 == 1 { dx := dx + 1; }
      flag := flag / 2;
      lx, j := lx + 1, j + 1;
    }
    assert ts[..lx] == ts;
    assert Entry(lfc[..], ldl[..], llens, 256);
    SendCode(w, lfc, ldl, 256, llens);
    Assoc(start, TokensBits(llens, dlens, ts), CodeBits(llens, 256));
  }

  lemma NothingYet(start: seq<bool>, llens: seq<nat>, dlens: seq<nat>)
    requires CanSendAll(llens, dlens, [])
    ensures start + TokensBits(llens, dlens, []) == start
  {
  }
}