/** The coder's whole state (struct globals2), init_block, ct_tally and flush_block on it. */
module Coders {
  import opened Optionals
  import opened Bits
  import opened BitWriters
  import opened Rfc1951
  import opened Heaps
  import opened Trees
  import opened TreeHeaders
  import opened TreeScans
  import opened DynamicHeaders
  import opened TreeBuilder
  import opened BlTrees
  import opened Tokens
  import opened TokenPrices
  import opened TokenBuffers
  import opened CtInit
  import opened CompressBlocks
  import opened BlockTrees
  import opened Blocks
  import opened FlushBlocks
  import opened BlockSizes
  import opened BlockChoices

  ghost function TreeSet(g: TreeSpace, l: CtTree, d: CtTree, b: CtTree): set<object> {
    {g, g.heap, g.depth, g.blCount, l.fc, l.dl, d.fc, d.dl, b.fc, b.dl}
  }

  ghost function BufSet(buf: TokenBuffer): set<object> {
    {buf, buf.lBuf, buf.dBuf, buf.flagBuf}
  }

  ghost function StaticSet(tables: CtTables, s: CtTree, t: CtTree): set<object> {
    {tables, tables.lengthCode, tables.baseLength, tables.distCode, tables.baseDist, s.fc, s.dl, t.fc, t.dl}
  }

  /** The arrays of the dynamic trees have their sizes, and none is another one. */
  ghost predicate TreesApart(g: TreeSpace, l: CtTree, d: CtTree, b: CtTree) {
    && g.Valid() && l.fc.Length == l.dl.Length == 573
    && d.fc.Length == d.dl.Length == 61 && b.fc.Length == b.dl.Length == 39
    && g.heap !in {l.fc, l.dl, d.fc, d.dl, b.fc, b.dl}
    && l.fc !in {l.dl, d.fc, d.dl, b.fc, b.dl}
    && l.dl !in {d.fc, d.dl, b.fc, b.dl}
    && d.fc !in {d.dl, b.fc, b.dl}
    && d.dl !in {b.fc, b.dl}
    && b.fc != b.dl
  }

  ghost predicate StaticsApart(tables: CtTables, s: CtTree, t: CtTree) {
    && s.fc.Length == s.dl.Length == 288 && t.fc.Length == t.dl.Length == 30
    && s.fc !in {s.dl, t.fc, t.dl} && s.dl !in {t.fc, t.dl} && t.fc != t.dl
  }

  ghost predicate BufApart(buf: TokenBuffer) {
    && buf.lBuf.Length == buf.dBuf.Length == LIT_BUFSIZE && buf.flagBuf.Length == 1024
    && buf.lBuf != buf.flagBuf
  }

  /** Storage for the trees of a file's blocks. */
  method NewTrees(ghost before: set<object>) returns (g: TreeSpace, l: CtTree, d: CtTree, b: CtTree)
    ensures TreesApart(g, l, d, b) && fresh(TreeSet(g, l, d, b)) && TreeSet(g, l, d, b) !! before
    ensures forall k :: 0 <= k < 16 ==> g.blCount[k] == 0
  {
    g := new TreeSpace();
    l := new CtTree(573);
    d := new CtTree(61);
    b := new CtTree(39);
  }

  method NewStatics(ghost before: set<object>) returns (tables: CtTables, s: CtTree, t: CtTree)
    ensures StaticsApart(tables, s, t) && fresh(StaticSet(tables, s, t)) && StaticSet(tables, s, t) !! before && tables.Ready()
  {
    hide CtTables.Ready;
    tables := new CtTables();
    s := new CtTree(288);
    t := new CtTree(30);
  }

  method NewBuffer(ghost before: set<object>) returns (buf: TokenBuffer)
    ensures BufApart(buf) && fresh(BufSet(buf)) && BufSet(buf) !! before
  {
    buf := new TokenBuffer();
  }

  /** A coder that writes to w; pack_gzip lays it out. */
  method NewCoder(w: BitWriter) returns (c: Coder)
    ensures c.w == w && c.Laid() && c.tables.Ready()
    ensures fresh(c) && fresh(c.TreeStorage()) && fresh(c.BufStorage()) && fresh(c.Statics())
    ensures forall b :: 0 <= b < 16 ==> c.g.blCount[b] == 0
  {
    hide TreesApart, StaticsApart, BufApart, CtTables.Ready, Coder.Laid, Coder.Statics, Coder.BufStorage,
      Coder.TreeStorage, TreeSet, BufSet, StaticSet;
    ghost var before: set<object> := {w, w.outbuf};
    var g, l, d, b := NewTrees(before);
    before := before + TreeSet(g, l, d, b);
    var tables, s, t := NewStatics(before);
    before := before + StaticSet(tables, s, t);
    var buf := NewBuffer(before);
    c := new Coder(w, g, tables, buf, l, d, b, s, t);
  }

  class Coder {
    const w: BitWriter
    const g: TreeSpace
    const tables: CtTables
    const buf: TokenBuffer
    const ltree: CtTree
    const dtree: CtTree
    const bltree: CtTree
    const slit: CtTree
    const sdist: CtTree
    const lDesc: TreeDesc
    const dDesc: TreeDesc
    const blDesc: TreeDesc

    constructor (w: BitWriter, g: TreeSpace, tables: CtTables, buf: TokenBuffer,
                 l: CtTree, d: CtTree, b: CtTree, s: CtTree, t: CtTree)
      requires TreesApart(g, l, d, b) && StaticsApart(tables, s, t) && BufApart(buf)
      requires {w, w.outbuf} !! TreeSet(g, l, d, b) && {w, w.outbuf} !! BufSet(buf) && {w, w.outbuf} !! StaticSet(tables, s, t)
      requires TreeSet(g, l, d, b) !! BufSet(buf) && TreeSet(g, l, d, b) !! StaticSet(tables, s, t)
      requires BufSet(buf) !! StaticSet(tables, s, t)
      ensures this.w == w && this.g == g && this.tables == tables && this.buf == buf
      ensures Laid() && BufStorage() == BufSet(buf)
      ensures fresh({lDesc, dDesc, blDesc}) && TreeStorage() == TreeSet(g, l, d, b) + {lDesc, dDesc, blDesc}
      ensures Statics() == StaticSet(tables, s, t)
    {
      this.w, this.g, this.tables, this.buf := w, g, tables, buf;
      ltree, dtree, bltree, slit, sdist := l, d, b, s, t;
      lDesc := new TreeDesc(l, s, LengthExtras(), 257, 286, 15);
      dDesc := new TreeDesc(d, t, DistanceExtras(), 0, 30, 15);
      blDesc := new TreeDesc(b, null, RepeatExtras(), 0, 19, 7);
    }

    /** The rest of ct_init. */
    method Init()
      requires Laid() && tables.Ready() && forall b :: 0 <= b < 16 ==> g.blCount[b] == 0
      modifies TreeStorage(), BufStorage(), Statics()
      ensures Initialized() && Counted() && buf.Valid() && buf.tokens == []
    {
      hide CtTables.Ready, Coder.Initialized, Coder.Counted, TokenBuffer.Valid, LitDesc, DistDesc, BlDesc, TreesApart,
        StaticsApart, BufApart;
      InitStatic();
      InitBlock();
    }

    /** The static trees of ct_init. */
    method InitStatic()
      requires Laid() && tables.Ready() && forall b :: 0 <= b < 16 ==> g.blCount[b] == 0
      modifies g.blCount, slit.fc, slit.dl, sdist.fc, sdist.dl
      ensures Initialized()
    {
      hide CtTables.Ready, FixedLens, LitDesc, DistDesc, BlDesc, BufApart, Codebook;
      InitStaticLits(slit, g.blCount);
      ghost var f, d := slit.fc[..], slit.dl[..];
      InitStaticDists(sdist);
      assert slit.fc[..] == f && slit.dl[..] == d;
      BookLens(f, d, FixedLens());
      forall i | 0 <= i < 30
        ensures sdist.dl[i] == 5
      {
        assert Entry(sdist.fc[..], sdist.dl[..], FixedDistLens(), i);
      }
    }

    /** No symbol has occurred yet but the end of the block. */
    method ClearTrees(ghost none: seq<Token>)
      requires Laid() && none == []
      modifies TreeStorage()
      ensures LitFreqs(ltree.fc[..], none) && DistFreqs(dtree.fc[..], none)
      ensures bltree.fc.Length >= 19 && (forall s :: 0 <= s < 19 ==> bltree.fc[s] == 0)
      ensures g.optLen == 0 && g.staticLen == 0
    {
      hide LitDesc, DistDesc, BlDesc, StaticsApart, BufApart, Coder.Statics, Coder.BufStorage;
      ClearFreqs(ltree.fc, 286);
      ClearFreqs(dtree.fc, 30);
      ClearFreqs(bltree.fc, 19);
      ltree.fc[256] := 1;
      g.optLen, g.staticLen := 0, 0;
    }

    /** Initializes a new block. */
    method InitBlock()
      requires Laid()
      modifies TreeStorage(), BufStorage()
      ensures Counted() && buf.Valid() && buf.tokens == []
    {
      hide LitFreqs, DistFreqs, LitDesc, DistDesc, BlDesc, StaticsApart, TokenBuffer.Valid;
      ClearTrees([]);
      buf.Clear();
    }

    /** What building trees changes. */
    ghost function TreeStorage(): set<object> {
      TreeSet(g, ltree, dtree, bltree) + {lDesc, dDesc, blDesc}
    }

    /** What holds the tokens of a block. */
    ghost function BufStorage(): set<object> {
      BufSet(buf)
    }

    /** What never changes after ct_init. */
    ghost function Statics(): set<object> {
      StaticSet(tables, slit, sdist)
    }

    /** No two parts overlap. */
    ghost predicate Distinct() {
      && {w, w.outbuf} !! TreeStorage() !! BufStorage() !! Statics()
      && TreesApart(g, ltree, dtree, bltree) && StaticsApart(tables, slit, sdist) && BufApart(buf)
      && lDesc != dDesc && lDesc != blDesc && dDesc != blDesc
    }

    /** The descriptors name the trees they belong to. */
    ghost predicate Laid() {
      && LitDesc(lDesc) && DistDesc(dDesc) && BlDesc(blDesc)
      && lDesc.dyn == ltree && dDesc.dyn == dtree && blDesc.dyn == bltree
      && lDesc.stat == slit && dDesc.stat == sdist
      && Distinct()
    }

    /** What ct_init has set up for good. */
    ghost predicate Initialized()
      reads Statics()
    {
      && tables.Ready()
      && slit.dl[..] == FixedLens() && Codebook(slit.fc[..], slit.dl[..], FixedLens())
      && sdist.dl.Length == 30 && (forall i :: 0 <= i < 30 ==> sdist.dl[i] == 5)
      && Book(sdist.fc[..], sdist.dl[..], FixedDistLens(), 30)
    }

    /** The frequencies are those of the tokens in the buffer. */
    ghost predicate Counted()
      reads this.g, ltree.fc, dtree.fc, bltree.fc, buf
    {
      && LitFreqs(ltree.fc[..], buf.tokens) && DistFreqs(dtree.fc[..], buf.tokens)
      && bltree.fc.Length >= 19 && (forall s :: 0 <= s < 19 ==> bltree.fc[s] == 0)
      && g.optLen == 0 && g.staticLen == 0
    }

    /** The trees for literals and distances are there, the one for the code lengths is not; the sizes are those of
        both bodies. */
    ghost predicate HalfBuilt(ts: seq<Token>, lf: seq<ush>, df: seq<ush>, llens: seq<nat>, dlens: seq<nat>)
      reads this.g, ltree.fc, ltree.dl, dtree.fc, dtree.dl, bltree.fc, lDesc, dDesc
    {
      && lDesc.maxCode + 1 == |llens| <= ltree.dl.Length && dDesc.maxCode + 1 == |dlens| <= dtree.dl.Length
      && llens == ltree.dl[..|llens|] && dlens == dtree.dl[..|dlens|] && Complete(llens) && Complete(dlens)
      && Codebook(ltree.fc[..], ltree.dl[..], llens) && Codebook(dtree.fc[..], dtree.dl[..], dlens)
      && LitCodes(llens, ts) && DistCodes(dlens, ts) && Priced2(llens, dlens, ts, g.optLen, g.staticLen) && g.Words()
      && LitFreqs(lf, ts) && HuffmanCoded(lf, llens, 286, 15) && DistFreqs(df, ts) && HuffmanCoded(df, dlens, 30, 15)
      && bltree.fc.Length >= 19 && (forall s :: 0 <= s < 19 ==> bltree.fc[s] == 0)
    }

    /** Builds the trees for literals and distances. */
    method BuildTwo(ghost ts: seq<Token>) returns (ghost llens: seq<nat>, ghost dlens: seq<nat>)
      requires Laid() && Initialized() && Counted()
      requires ts == buf.tokens && TokensOk(ts) && |ts| < LIT_BUFSIZE
      modifies TreeStorage()
      ensures HalfBuilt(ts, old(ltree.fc[..]), old(dtree.fc[..]), llens, dlens)
    {
      hide FixedLens, FixedDistLens, Codebook, Book, LitFreqs, DistFreqs, TreeGrown, LitCodes, DistCodes, LitExtras,
        DistExtras, Complete, Priced2, CtTables.Ready, HuffmanCoded;
      ghost var lf, df := ltree.fc[..], dtree.fc[..];
      ghost var lxs, dxs;
      llens, lxs := BuildLitTree(g, lDesc, ts);
      ghost var lc, ld, opt1, sta1, lmax := ltree.fc[..], ltree.dl[..], g.optLen, g.staticLen, lDesc.maxCode;
      TreesKnown(lc, ld, llens, lmax, lf, FixedLens(), lxs, opt1, 0, sta1, 0);
      assert dtree.fc[..] == df;
      dlens, dxs := BuildDistTree(g, dDesc, ts);
      ghost var dc, dd, opt2, sta := dtree.fc[..], dtree.dl[..], g.optLen, g.staticLen;
      assert ltree.fc[..] == lc && ltree.dl[..] == ld;
      BothPricedNow(lc, ld, llens, lmax, lf, lxs, dc, dd, dlens, dDesc.maxCode, df, dxs, ts, opt2, opt1, sta, sta1);
      TreesKnown(dc, dd, dlens, dDesc.maxCode, df, FixedDistLens(), dxs, opt2, opt1, sta, sta1);
    }

    /** All three trees are there, opt_len and static_len are the sizes of the two blocks that they and the fixed
        codes make of the tokens. */
    ghost predicate TreesDone(ts: seq<Token>, llens: seq<nat>, dlens: seq<nat>, clens: seq<nat>, maxBlindex: nat)
      reads this.g, ltree.fc, ltree.dl, dtree.fc, dtree.dl, bltree.fc, bltree.dl, lDesc, dDesc
    {
      && lDesc.maxCode + 1 == |llens| && dDesc.maxCode + 1 == |dlens|
      && HeaderTables(ltree.dl[..], dtree.dl[..], bltree.fc[..], bltree.dl[..], llens, dlens, clens)
      && TreesServe(ltree.fc[..], ltree.dl[..], dtree.fc[..], dtree.dl[..], llens, dlens, |llens|, |dlens|, ts)
      && Exact(llens, dlens, clens, maxBlindex + 1, ts, g.optLen, g.staticLen)
      && g.optLen <= 400_000 && g.staticLen <= 31 * 8191 + 7
    }

    /** Builds the tree for the code lengths of the other two. */
    method BuildThird(ghost ts: seq<Token>, ghost lf: seq<ush>, ghost df: seq<ush>, ghost llens: seq<nat>, ghost dlens: seq<nat>)
      returns (maxBlindex: nat, ghost clens: seq<nat>)
      requires Laid() && HalfBuilt(ts, lf, df, llens, dlens) && |ts| < LIT_BUFSIZE
      modifies TreeStorage()
      ensures TreesDone(ts, llens, dlens, clens, maxBlindex) && TreesFor(ts, llens, dlens, clens, maxBlindex + 1)
    {
      hide FixedLens, FixedDistLens, Codebook, LitFreqs, DistFreqs, LitCodes, DistCodes, Complete, Priced2, HeaderReady,
        Exact, Guarded, TreesServe, HuffmanCoded, ClensFor, TreesFor, LitDesc, DistDesc, Ranked, StaticsApart, BufApart;
      ghost var lc, ld, dc, dd, opt2, sta := ltree.fc[..], ltree.dl[..], dtree.fc[..], dtree.dl[..], g.optLen, g.staticLen;
      Bounds(llens, dlens, ts);
      maxBlindex, clens := BuildBlTree(g, ltree.dl, lDesc.maxCode, dtree.dl, dDesc.maxCode, blDesc, llens, dlens);
      assert ltree.fc[..] == lc && dtree.fc[..] == dc;
      ExactNow(llens, dlens, clens, maxBlindex + 1, ts, g.optLen, opt2, g.staticLen);
      ServeNow(lc, ld, ltree.dl[..], dc, dd, dtree.dl[..], llens, dlens, ts, opt2, sta);
      TreesNow(lf, df, ts, llens, dlens, clens, maxBlindex + 1);
    }

    /** Builds all three trees of the block. */
    method BuildTrees(ghost ts: seq<Token>)
      returns (maxBlindex: nat, ghost llens: seq<nat>, ghost dlens: seq<nat>, ghost clens: seq<nat>)
      requires Laid() && Initialized() && Counted()
      requires ts == buf.tokens && TokensOk(ts) && |ts| < LIT_BUFSIZE
      modifies TreeStorage()
      ensures TreesDone(ts, llens, dlens, clens, maxBlindex) && TreesFor(ts, llens, dlens, clens, maxBlindex + 1)
    {
      hide Coder.Laid, Coder.Initialized, Coder.Counted, Coder.HalfBuilt, Coder.TreesDone, TreesFor, TokensOk;
      ghost var lf, df := ltree.fc[..], dtree.fc[..];
      llens, dlens := BuildTwo(ts);
      maxBlindex, clens := BuildThird(ts, lf, df, llens, dlens);
    }

    /** Adds one to the frequencies that the token belongs to. */
    method CountToken(lc: byte, isMatch: bool, dist: nat, ghost ts: seq<Token>, ghost tok: Token)
      requires Laid() && tables.Ready() && LitFreqs(ltree.fc[..], ts) && DistFreqs(dtree.fc[..], ts)
      requires |ts| < LIT_BUFSIZE && (isMatch ==> dist < 0x8000)
      requires tok == if isMatch then Match(lc, dist) else Literal(lc)
      modifies ltree.fc, dtree.fc
      ensures LitFreqs(ltree.fc[..], ts + [tok]) && DistFreqs(dtree.fc[..], ts + [tok])
    {
      hide LitFreqs, DistFreqs, LitSym, DistSym, LenSym, LitDesc, DistDesc, BlDesc, DistBase, LengthBase, DCode;
      ghost var lf, df := ltree.fc[..], dtree.fc[..];
      FreqBounds(lf, df, ts);
      var sym: nat := lc;
      if isMatch {
        LengthEntryIs(tables.lengthCode[..], tables.baseLength[..], lc);
        DistEntryIs(tables.distCode[..], tables.baseDist[..], dist);
        sym := CodeSymbol(tables.lengthCode[lc]);
        var d := DCode(tables.distCode[..], dist);
        dtree.fc[d] := Add(dtree.fc[d], 1);
      }
      ltree.fc[sym] := Add(ltree.fc[sym], 1);
      SymbolIs(tok, sym);
      assert ltree.fc[..] == lf[sym := Add(lf[sym], 1)];
      LitFreqsMore(lf, ltree.fc[..], ts, tok);
      DistFreqsMore(df, dtree.fc[..], ts, tok);
    }

    /** Whether matches are rare and the tokens, at eight bits each and five and the extra bits for each distance,
        still take less than half as many bytes as the input: then the block may end early. */
    method StopHere(inLength: nat) returns (stop: bool)
      requires Laid()
      ensures stop <==> buf.lastDist < buf.lastLit / 2
                        && U32(8 * buf.lastLit + DistCost(dtree.fc[..], 30)) / 8 < inLength / 2
    {
      hide LitDesc, DistDesc, BlDesc, DistExtra, U32;
      var outLength := U32(8 * buf.lastLit);
      var dcode := 0;
      while dcode < 30
        invariant 0 <= dcode <= 30
        invariant outLength == U32(8 * buf.lastLit + DistCost(dtree.fc[..], dcode))
      {
        U32Twice(8 * buf.lastLit + DistCost(dtree.fc[..], dcode), dtree.fc[dcode] * (5 + DistExtra(dcode)));
        outLength := U32(outLength + dtree.fc[dcode] * (5 + DistExtra(dcode)));
        dcode := dcode + 1;
      }
      stop := buf.lastDist < buf.lastLit / 2 && outLength / 8 < inLength / 2;
    }

    /** Whether the block should end: the buffer is full, or, looked at once in 4096 tokens, it does well. */
    method EndsHere(inLength: nat) returns (flush: bool)
      requires Laid() && buf.Valid() && |buf.tokens| < LIT_BUFSIZE && Counted()
      ensures flush <==> |buf.tokens| == 8191 ||
                         (|buf.tokens| % 4096 == 0 && Matches(buf.tokens) < |buf.tokens| / 2
                          && U32(8 * |buf.tokens| + MatchBits(buf.tokens)) / 8 < inLength / 2)
    {
      hide LitDesc, DistDesc, BlDesc, Matches, Buffered, Flagged, Filling, DistCost, MatchBits, U32, DistFreqs,
        LitFreqs;
      FewMatches(buf.tokens);
      CostIs(dtree.fc[..], buf.tokens);
      flush := buf.lastLit == LIT_BUFSIZE - 1 || buf.lastDist == LIT_BUFSIZE;
      if buf.lastLit % 0x1000 == 0 {
        var stop := StopHere(inLength);
        if stop { flush := true; }
      }
    }

    /** One more token, a literal where dist0 is 0, is buffered and counted; the answer is whether the block should
        end. */
    method CtTally(dist0: nat, lc: byte, strstart: nat, blockStart: int) returns (flush: bool)
      requires Laid() && Initialized() && Counted() && buf.Valid() && |buf.tokens| < LIT_BUFSIZE - 1
      requires dist0 <= 0x8000 && blockStart <= strstart
      modifies TreeStorage(), BufStorage()
      ensures Counted() && buf.Valid()
      ensures buf.tokens == old(buf.tokens) + [if dist0 == 0 then Literal(lc) else Match(lc, dist0 - 1)]
      ensures flush <==> |buf.tokens| == 8191 ||
                         (|buf.tokens| % 4096 == 0 && Matches(buf.tokens) < |buf.tokens| / 2
                          && U32(8 * |buf.tokens| + MatchBits(buf.tokens)) / 8 < (strstart - blockStart) / 2)
    {
      hide LitFreqs, DistFreqs, LitDesc, DistDesc, BlDesc, CtTables.Ready, Codebook, Book, FixedLens, Matches, Buffered,
        Flagged, Filling, MatchBits, U32;
      ghost var ts := buf.tokens;
      var isMatch := dist0 != 0;
      var dist := if isMatch then dist0 - 1 else 0;
      CountToken(lc, isMatch, dist, ts, if isMatch then Match(lc, dist) else Literal(lc));
      ghost var lf, df := ltree.fc[..], dtree.fc[..];
      buf.Add(lc, isMatch, dist);
      assert ltree.fc[..] == lf && dtree.fc[..] == df;
      flush := EndsHere(strstart - blockStart);
    }

    /** The three bits at the head of a block. */
    method SendType(kind: nat, eof: bool)
      requires w.Valid() && kind < 3
      modifies w, w.outbuf
      ensures w.Valid() && w.Stream() == old(w.Stream()) + TypeBits(kind, eof)
    {
      var v := 2 * kind + (if eof then 1 else 0);
      TypeWord(kind, eof, v);
      w.SendBits(v, 3);
    }

    /** The last byte of flags joins the others, even if it is not full. */
    method SaveFlags()
      requires buf.Valid() && |buf.tokens| < LIT_BUFSIZE
      modifies BufStorage()
      ensures buf.tokens == old(buf.tokens)
      ensures FlagsSaved(buf.flagBuf[..], buf.tokens)
      ensures buf.lastLit == |buf.tokens| && Buffered(buf.lBuf[..], buf.dBuf[..], buf.tokens)
    {
      hide Flags, Group, Matches, Buffered;
      ghost var fb, lb := buf.flagBuf[..], buf.lBuf[..];
      buf.flagBuf[buf.lastFlags] := buf.flags;
      assert buf.flagBuf[..] == fb[buf.lastFlags := buf.flags];
      assert buf.lBuf[..] == lb;
      SaveLast(fb, buf.flagBuf[..], buf.tokens, buf.lastFlags, buf.flags, buf.flagBit);
    }

    method SendStored(data: seq<byte>, eof: bool) returns (ghost b: Block)
      requires w.Valid() && |data| <= 0xffff
      modifies w, w.outbuf
      ensures w.Valid() && b == Stored(data) && BlockOk(b)
      ensures w.Stream() == old(w.Stream()) + BlockBits(b, eof, |old(w.Stream())|)
    {
      hide BytesBits, LsbBits;
      ghost var start := w.Stream();
      b := Stored(data);
      SendType(0, eof);
      w.CopyBlock(data);
      StoredJoins(start, eof, data);
    }

    method SendStatic(eof: bool, ghost ts: seq<Token>) returns (ghost b: Block)
      requires w.Valid() && Laid() && Initialized() && ts == buf.tokens && buf.lastLit == |ts|
      requires TokensOk(ts) && Buffered(buf.lBuf[..], buf.dBuf[..], ts) && FlagsSaved(buf.flagBuf[..], ts)
      modifies w, w.outbuf
      ensures w.Valid() && b == Fixed(ts) && BlockOk(b)
      ensures w.Stream() == old(w.Stream()) + BlockBits(b, eof, |old(w.Stream())|)
    {
      hide CtTables.Ready, FixedLens, FixedDistLens, Codebook, Buffered, FlagsSaved, BodyBits, TypeBits, CanSendAll;
      ghost var start := w.Stream();
      b := Fixed(ts);
      FixedServe(ts);
      FixedTrees(slit.fc[..], slit.dl[..], sdist.fc[..], sdist.dl[..], ts);
      SendType(1, eof);
      CompressBlock(w, tables, buf, slit.fc, slit.dl, sdist.fc, sdist.dl, FixedLens(), FixedDistLens(), 288, 30);
      Assoc(start, TypeBits(1, eof), BodyBits(FixedLens(), FixedDistLens(), ts));
    }

    /** The type and the trees of a dynamic block. */
    method SendHeader(eof: bool, maxBlindex: nat, ghost llens: seq<nat>, ghost dlens: seq<nat>, ghost clens: seq<nat>)
      requires w.Valid() && Shaped(llens, dlens, clens, maxBlindex + 1) && Short(clens)
      requires lDesc.maxCode + 1 == |llens| && dDesc.maxCode + 1 == |dlens|
      requires HeaderTables(ltree.dl[..], dtree.dl[..], bltree.fc[..], bltree.dl[..], llens, dlens, clens)
      modifies w, w.outbuf
      ensures w.Valid()
      ensures w.Stream() == old(w.Stream()) + (TypeBits(2, eof) + HeaderBits(llens, dlens, clens, maxBlindex + 1))
    {
      hide HeaderBits, TypeBits, HeaderTables, Sendable, Short;
      ghost var start := w.Stream();
      SendType(2, eof);
      SendAllTrees(w, ltree.dl, dtree.dl, bltree.fc, bltree.dl, lDesc.maxCode + 1, dDesc.maxCode + 1, maxBlindex + 1,
                   llens, dlens, clens);
      Assoc(start, TypeBits(2, eof), HeaderBits(llens, dlens, clens, maxBlindex + 1));
    }

    method SendDynamic(eof: bool, maxBlindex: nat, ghost ts: seq<Token>,
                       ghost llens: seq<nat>, ghost dlens: seq<nat>, ghost clens: seq<nat>, ghost n: nat)
      returns (ghost b: Block)
      requires w.Valid() && Laid() && tables.Ready() && ts == buf.tokens && buf.lastLit == |ts|
      requires Buffered(buf.lBuf[..], buf.dBuf[..], ts) && FlagsSaved(buf.flagBuf[..], ts)
      requires n == maxBlindex + 1 && Announceable(llens, dlens, clens, n) && CanSendAll(llens, dlens, ts)
      requires lDesc.maxCode + 1 == |llens| && dDesc.maxCode + 1 == |dlens|
      requires HeaderTables(ltree.dl[..], dtree.dl[..], bltree.fc[..], bltree.dl[..], llens, dlens, clens)
      requires TreesServe(ltree.fc[..], ltree.dl[..], dtree.fc[..], dtree.dl[..], llens, dlens, |llens|, |dlens|, ts)
      modifies w, w.outbuf
      ensures w.Valid() && b == Dynamic(llens, dlens, clens, n, ts) && BlockOk(b)
      ensures w.Stream() == old(w.Stream()) + BlockBits(b, eof, |old(w.Stream())|)
    {
      hide CtTables.Ready, Buffered, FlagsSaved, BodyBits, HeaderBits, TypeBits, TreesServe, HeaderTables, CanSendAll,
        Complete, Shaped, NoneFrom, LitDesc, DistDesc, BlDesc, TreesApart, Short;
      ghost var start := w.Stream();
      b := Dynamic(llens, dlens, clens, n, ts);
      SendHeader(eof, maxBlindex, llens, dlens, clens);
      CompressBlock(w, tables, buf, ltree.fc, ltree.dl, dtree.fc, dtree.dl, llens, dlens, |llens|, |dlens|);
      DynamicJoins(start, TypeBits(2, eof), HeaderBits(llens, dlens, clens, n), BodyBits(llens, dlens, ts));
    }

    /** The tokens are in the buffers, with all their flags, and the trees for them are there. */
    ghost predicate Planned(ts: seq<Token>, llens: seq<nat>, dlens: seq<nat>, clens: seq<nat>, maxBlindex: nat)
      reads this.g, ltree.fc, ltree.dl, dtree.fc, dtree.dl, bltree.fc, bltree.dl, lDesc, dDesc
      reads buf, buf.lBuf, buf.dBuf, buf.flagBuf
    {
      && ts == buf.tokens && buf.lastLit == |ts| && TokensOk(ts)
      && Buffered(buf.lBuf[..], buf.dBuf[..], ts) && FlagsSaved(buf.flagBuf[..], ts)
      && TreesDone(ts, llens, dlens, clens, maxBlindex)
    }

    /** Sends the block in the form that the test picks. */
    method SendChosen(data: Option<seq<byte>>, storedLen: nat, eof: bool, maxBlindex: nat, ghost ts: seq<Token>,
                      ghost llens: seq<nat>, ghost dlens: seq<nat>, ghost clens: seq<nat>)
      returns (ghost b: Block, ghost opt: nat, ghost sta: nat)
      requires w.Valid() && Laid() && Initialized() && Planned(ts, llens, dlens, clens, maxBlindex)
      requires data.Some? ==> |data.value| == storedLen
      modifies w, w.outbuf
      ensures w.Valid() && BlockOk(b)
      ensures Exact(llens, dlens, clens, maxBlindex + 1, ts, opt, sta)
      ensures Chosen(data, ts, b, Dynamic(llens, dlens, clens, maxBlindex + 1, ts), ByteSize(opt), ByteSize(sta))
      ensures w.Stream() == old(w.Stream()) + BlockBits(b, eof, |old(w.Stream())|)
    {
      hide CtTables.Ready, Codebook, Buffered, FlagsSaved, TreesServe, HeaderTables, BlockBits, CanSendAll, Book,
        FixedLens, FixedDistLens, BlockOk, HeaderBits, BodyBits, Announceable, Coder.Laid, BitWriter.Stream;
      opt, sta := g.optLen, g.staticLen;
      var optLenb, staticLenb := ByteSize(g.optLen), ByteSize(g.staticLen);
      if staticLenb <= optLenb {
        optLenb := staticLenb;
      }
      if storedLen + 4 <= optLenb && data.Some? {
        b := SendStored(data.value, eof);
      } else if staticLenb == optLenb {
        b := SendStatic(eof, ts);
      } else {
        b := SendDynamic(eof, maxBlindex, ts, llens, dlens, clens, maxBlindex + 1);
      }
    }

    /** Saves the last flags and builds the trees. */
    method PlanBlock(ghost ts: seq<Token>)
      returns (maxBlindex: nat, ghost llens: seq<nat>, ghost dlens: seq<nat>, ghost clens: seq<nat>)
      requires Laid() && Initialized() && Counted() && buf.Valid() && ts == buf.tokens && |ts| < LIT_BUFSIZE
      modifies TreeStorage(), BufStorage()
      ensures Initialized() && Planned(ts, llens, dlens, clens, maxBlindex) && TreesFor(ts, llens, dlens, clens, maxBlindex + 1)
    {
      hide CtTables.Ready, Codebook, Book, Buffered, Flagged, FlagsSaved, Filling, FixedLens, LitFreqs, DistFreqs,
        Matches, LitDesc, DistDesc, BlDesc, TreesApart, StaticsApart, TreesFor, TokensOk, Coder.TreesDone,
        Coder.Initialized;
      BufferedOk(buf.lBuf[..], buf.dBuf[..], ts);
      SaveFlags();
      maxBlindex, llens, dlens, clens := BuildTrees(ts);
    }

    /** Builds the trees and sends the block. */
    method EncodeBlock(data: Option<seq<byte>>, storedLen: nat, eof: bool, ghost s: seq<bool>) returns (ghost b: Block)
      requires Laid() && Initialized() && Counted() && buf.Valid() && w.Valid() && w.Stream() == s
      requires |buf.tokens| < LIT_BUFSIZE
      requires data.Some? ==> |data.value| == storedLen
      modifies w, w.outbuf, TreeStorage(), BufStorage()
      ensures Initialized() && w.Valid()
      ensures Flushed(data, old(buf.tokens), b, |s|)
      ensures Appended(s, w.Stream(), b, eof)
    {
      hide BlockBits, BlockOk, Exact, ByteSize, LitDesc, DistDesc, BlDesc, TreesApart, StaticsApart, BufApart,
        BitWriter.Valid, BitWriter.Stream, Chosen, Flushed, TreesFor, Coder.Initialized, Coder.Counted, Coder.Planned,
        TokenBuffer.Valid;
      ghost var ts := buf.tokens;
      var maxBlindex;
      ghost var llens, dlens, clens, opt, sta;
      maxBlindex, llens, dlens, clens := PlanBlock(ts);
      b, opt, sta := SendChosen(data, storedLen, eof, maxBlindex, ts, llens, dlens, clens);
      FlushedNow(data, ts, b, llens, dlens, clens, maxBlindex + 1, opt, sta, |s|);
    }

    /** Sends the block and starts a new one. */
    method FinishBlock(data: Option<seq<byte>>, storedLen: nat, eof: bool, ghost s: seq<bool>) returns (ghost b: Block)
      requires Laid() && Initialized() && Counted() && buf.Valid() && w.Valid() && w.Stream() == s
      requires |buf.tokens| < LIT_BUFSIZE
      requires data.Some? ==> |data.value| == storedLen
      modifies w, w.outbuf, TreeStorage(), BufStorage()
      ensures Initialized() && Counted() && buf.Valid() && w.Valid() && buf.tokens == []
      ensures Flushed(data, old(buf.tokens), b, |s|)
      ensures Appended(s, w.Stream(), b, eof)
    {
      hide Coder.Initialized, Coder.Counted, TokenBuffer.Valid, BitWriter.Valid, BitWriter.Stream, BlockBits, BlockOk,
        LitDesc, DistDesc, BlDesc, TreeSpace.Valid, Flushed, Appended;
      b := EncodeBlock(data, storedLen, eof, s);
      InitBlock();
    }

    /** Sends the tokens gathered so far as one block and starts the next; `data` is None where deflate passes a
        null pointer. */
    method FlushBlock(data: Option<seq<byte>>, storedLen: nat, eof: bool, ghost s: seq<bool>) returns (ghost b: Block)
      requires Laid() && Initialized() && Counted() && buf.Valid() && w.Valid() && w.Stream() == s
      requires |buf.tokens| < LIT_BUFSIZE
      requires data.Some? ==> |data.value| == storedLen
      modifies w, w.outbuf, TreeStorage(), BufStorage()
      ensures Initialized() && Counted() && buf.Valid() && w.Valid() && buf.tokens == []
      ensures Flushed(data, old(buf.tokens), b, |s|)
      ensures SentBlock(s, w.Stream(), b, eof)
      ensures eof ==> w.biValid == 0 && w.Stream() == BytesBits(w.Bytes())
    {
      hide Coder.Initialized, Coder.Counted, TokenBuffer.Valid, BitWriter.Valid, BitWriter.Stream, BlockBits, BlockOk,
        LitDesc, DistDesc, BlDesc, TreeSpace.Valid, Padded, BytesBits, Flushed, TreesApart, StaticsApart;
      b := FinishBlock(data, storedLen, eof, s);
      if eof {
        w.Windup();
      }
    }
  }

  ghost predicate Appended(s: seq<bool>, t: seq<bool>, b: Block, eof: bool) {
    BlockOk(b) && t == s + BlockBits(b, eof, |s|)
  }

  /** The block has been added to the stream s; after the last one the last byte is filled up. */
  ghost predicate SentBlock(s: seq<bool>, t: seq<bool>, b: Block, eof: bool) {
    && BlockOk(b)
    && t == if eof then Padded(s + BlockBits(b, eof, |s|)) else s + BlockBits(b, eof, |s|)
  }

  lemma BufferedOk(lb: seq<byte>, db: seq<ush>, ts: seq<Token>)
    requires Buffered(lb, db, ts)
    ensures TokensOk(ts)
  {
  }

  /** Length codes follow the bytes and the end-of-block symbol. */
  function CodeSymbol(code: byte): nat {
    code + 257
  }

  lemma {:induction false} FewMatches(ts: seq<Token>)
    ensures Matches(ts) <= |ts|
  {
    if ts != [] { FewMatches(ts[..|ts| - 1]); }
  }

  /** Five bits for the distance code of each match, and its extra bits. */
  function MatchBits(ts: seq<Token>): nat {
    if ts == [] then 0
    else
      var t := ts[|ts| - 1];
      MatchBits(ts[..|ts| - 1]) + (if t.Match? then 5 + DistExtra(DistSym(t.dist)) else 0)
  }

  function CountCost(ts: seq<Token>, n: nat): nat
    requires n <= 30
  {
    if n == 0 then 0 else CountCost(ts, n - 1) + DistCount(ts, n - 1) * (5 + DistExtra(n - 1))
  }

  lemma {:induction false} CostOfCounts(f: seq<ush>, ts: seq<Token>, n: nat)
    requires DistFreqs(f, ts) && n <= 30
    ensures DistCost(f, n) == CountCost(ts, n)
  {
    hide DistExtra;
    if n > 0 { CostOfCounts(f, ts, n - 1); }
  }

  lemma {:induction false} CostOfOne(ts: seq<Token>, n: nat)
    requires ts != [] && n <= 30
    ensures var t := ts[|ts| - 1];
      CountCost(ts, n) == CountCost(ts[..|ts| - 1], n) + (if t.Match? && DistSym(t.dist) < n then 5 + DistExtra(DistSym(t.dist)) else 0)
  {
    hide DistExtra, DistSym;
    if n > 0 {
      CostOfOne(ts, n - 1);
      var t, m, p := ts[|ts| - 1], DistCount(ts[..|ts| - 1], n - 1), 5 + DistExtra(n - 1);
      assert (m + 1) * p == m * p + p;
    }
  }

  lemma {:induction false} CountCostIs(ts: seq<Token>)
    ensures CountCost(ts, 30) == MatchBits(ts)
    decreases |ts|
  {
    hide DistExtra, DistSym, CountCost;
    if ts == [] {
      NoCost(30);
    } else {
      CostOfOne(ts, 30);
      CountCostIs(ts[..|ts| - 1]);
    }
  }

  lemma {:induction false} NoCost(n: nat)
    requires n <= 30
    ensures CountCost([], n) == 0
  {
    hide DistExtra;
    if n > 0 { NoCost(n - 1); }
  }

  lemma CostIs(f: seq<ush>, ts: seq<Token>)
    requires DistFreqs(f, ts)
    ensures DistCost(f, 30) == MatchBits(ts)
  {
    hide DistCost, CountCost, DistFreqs;
    CostOfCounts(f, ts, 30);
    CountCostIs(ts);
  }

  function DistCost(f: seq<ush>, n: nat): nat
    requires n <= 30 && n <= |f|
  {
    if n == 0 then 0 else DistCost(f, n - 1) + f[n - 1] * (5 + DistExtra(n - 1))
  }

  lemma SymbolIs(tok: Token, sym: nat)
    requires tok.Literal? ==> sym == tok.b
    requires tok.Match? ==> sym == LenSym(tok.lc) + 257
    ensures LitSym(tok) == sym < 286
  {
    hide LenSym;
  }

  /** No counter is full. */
  lemma FreqBounds(lf: seq<ush>, df: seq<ush>, ts: seq<Token>)
    requires LitFreqs(lf, ts) && DistFreqs(df, ts) && |ts| < LIT_BUFSIZE
    ensures |lf| >= 286 && forall s :: 0 <= s < 286 ==> lf[s] < 0xffff
    ensures |df| >= 30 && forall s :: 0 <= s < 30 ==> df[s] < 0xffff
  {
    hide LitCount, DistCount;
    forall s | 0 <= s < 286
      ensures lf[s] < 0xffff
    {
      LitCountBound(ts, s);
    }
    forall s | 0 <= s < 30
      ensures df[s] < 0xffff
    {
      DistCountBound(ts, s);
    }
  }

  lemma LitFreqsMore(f: seq<ush>, g: seq<ush>, ts: seq<Token>, tok: Token)
    requires LitFreqs(f, ts) && LitSym(tok) < 286 && f[LitSym(tok)] < 0xffff
    requires g == f[LitSym(tok) := Add(f[LitSym(tok)], 1)]
    ensures LitFreqs(g, ts + [tok])
  {
    hide LitSym, LitCount;
    forall s | 0 <= s < 286
      ensures g[s] == LitCount(ts + [tok], s) + (if s == 256 then 1 else 0)
    {
      LitCountSnoc(ts, tok, s);
    }
  }

  lemma DistFreqsMore(f: seq<ush>, g: seq<ush>, ts: seq<Token>, tok: Token)
    requires DistFreqs(f, ts)
    requires tok.Literal? ==> g == f
    requires tok.Match? ==> f[DistSym(tok.dist)] < 0xffff && g == f[DistSym(tok.dist) := Add(f[DistSym(tok.dist)], 1)]
    ensures DistFreqs(g, ts + [tok])
  {
    hide DistSym, DistCount;
    forall s | 0 <= s < 30
      ensures g[s] == DistCount(ts + [tok], s)
    {
      DistCountSnoc(ts, tok, s);
    }
  }

  lemma TypeWord(kind: nat, eof: bool, v: nat)
    requires kind < 3 && v == 2 * kind + (if eof then 1 else 0)
    ensures v < Pow2(3) && LsbBits(v, 3) == TypeBits(kind, eof)
  {
    assert Pow2(3) == 8 && Pow2(1) == 2;
    LsbJoin(v, v - 2 * kind, 1, 2, kind, 2);
  }

  lemma StoredJoins(start: seq<bool>, eof: bool, data: seq<byte>)
    requires |data| <= 0xffff
    ensures Padded(start + TypeBits(0, eof)) + StoredBits(data)
         == start + BlockBits(Stored(data), eof, |start|)
  {
    hide BytesBits, LsbBits, StoredBits, TypeBits;
    var t, z := TypeBits(0, eof), Zeros(ByteBoundary(|start| + 3) - (|start| + 3));
    assert Padded(start + t) == start + t + z;
    Assoc(start + t, z, StoredBits(data));
    Assoc(start, t, z + StoredBits(data));
  }

  lemma DynamicJoins(s: seq<bool>, t: seq<bool>, h: seq<bool>, b: seq<bool>)
    ensures s + (t + h) + b == s + (t + (h + b))
  {
    Assoc(s, t + h, b);
    Assoc(t, h, b);
  }

  lemma FixedTrees(lf: seq<ush>, ld: seq<ush>, df: seq<ush>, dd: seq<ush>, ts: seq<Token>)
    requires Codebook(lf, ld, FixedLens()) && Book(df, dd, FixedDistLens(), 30)
    requires CanSendAll(FixedLens(), FixedDistLens(), ts)
    ensures TreesServe(lf, ld, df, dd, FixedLens(), FixedDistLens(), 288, 30, ts)
  {
    hide LenSym, DistSym, Entry;
    forall i | 0 <= i < |ts|
      ensures FitsOne(ts[i], 288, 30)
    {
      LitSymBound(ts[i]);
    }
  }

  method ClearFreqs(fc: array<ush>, n: nat)
    requires n <= fc.Length
    modifies fc
    ensures forall i :: 0 <= i < n ==> fc[i] == 0
  {
    var i := 0;
    while i < n
      invariant 0 <= i <= n
      invariant forall k :: 0 <= k < i ==> fc[k] == 0
    {
      fc[i] := 0;
      i := i + 1;
    }
  }

  lemma BookLens(fc: seq<ush>, d: seq<ush>, lens: seq<nat>)
    requires Codebook(fc, d, lens) && |d| == |lens|
    ensures d == lens
  {
    forall c | 0 <= c < |lens|
      ensures d[c] == lens[c]
    {
      assert Entry(fc, d, lens, c);
    }
  }

  lemma TreesKnown(codes: seq<ush>, d: seq<ush>, lens: seq<nat>, maxCode: int, f0: seq<ush>, slens: seq<nat>, xs: seq<nat>,
                   opt: nat, opt0: nat, sta: nat, sta0: nat)
    requires TreeGrown(codes, d, lens, maxCode, f0, slens, xs, opt, opt0, sta, sta0)
    ensures maxCode + 1 == |lens| && 0 < |lens| <= |d| && lens == d[..|lens|]
    ensures Complete(lens) && Codebook(codes, d, lens) && |lens| <= |codes|
    ensures opt < 0x1_0000_0000 && sta < 0x1_0000_0000
  {
    hide Complete, Codebook;
  }

  /** The guards do not disturb the codes. */
  lemma ServeNow(lc: seq<ush>, ld: seq<ush>, ld': seq<ush>, dc: seq<ush>, dd: seq<ush>, dd': seq<ush>,
                 llens: seq<nat>, dlens: seq<nat>, ts: seq<Token>, opt: nat, sta: nat)
    requires Codebook(lc, ld, llens) && Codebook(dc, dd, dlens) && Guarded(ld', llens) && Guarded(dd', dlens)
    requires Priced2(llens, dlens, ts, opt, sta)
    ensures TreesServe(lc, ld', dc, dd', llens, dlens, |llens|, |dlens|, ts)
  {
    hide BodyBits, CanSendAll, FixedLens, FixedDistLens, Fits;
    BookStays(lc, ld, ld', llens);
    BookStays(dc, dd, dd', dlens);
  }

  lemma BookStays(fc: seq<ush>, d: seq<ush>, d': seq<ush>, lens: seq<nat>)
    requires Codebook(fc, d, lens) && Guarded(d', lens)
    ensures Book(fc, d', lens, |lens|)
  {
    forall c | 0 <= c < |lens|
      ensures Entry(fc, d', lens, c)
    {
      assert Entry(fc, d, lens, c);
    }
  }
}
