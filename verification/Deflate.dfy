/** deflate: lazy evaluation of matches over the whole input, and why nothing is lost. */
module Deflates {
  import opened Optionals
  import opened Bits
  import opened Hashing
  import opened Chains
  import opened Windows
  import opened MatchSearches
  import opened LzWindows
  import opened Tokens
  import opened TokenBuffers
  import opened Blocks
  import opened BlockChoices
  import opened Coders
  import opened Emissions
  import opened LazyRuns

  function OneIf(b: bool): nat {
    if b then 1 else 0
  }

  /** A match of len bytes that began one byte before strstart and is still to be decided on. */
  ghost predicate Pending(data: seq<byte>, at: nat, len: nat, strstart: nat, matchStart: nat) {
    && at >= 1 && 1 <= U32(strstart - 1 - matchStart) <= MAX_DIST
    && Repeat(data, at - 1, len, U32(strstart - 1 - matchStart))
  }

  class Deflater {
    const z: LzWindow
    const c: Coder
    ghost var blocks: seq<Block>
    ghost var parts: seq<seq<Token>>   // the tokens that each block has been made for
    ghost const lead: seq<bool>   // what is in the stream before the first block

    constructor (z: LzWindow, c: Coder, ghost lead: seq<bool>)
      ensures this.z == z && this.c == c && this.lead == lead && blocks == [] && parts == []
    {
      this.z, this.c, this.lead := z, c, lead;
      blocks, parts := [], [];
    }

    /** No two parts overlap. */
    ghost predicate Laid() {
      && z.Laid() && c.Laid()
      && z.Storage() !! {c.w, c.w.outbuf} && z.Storage() !! c.TreeStorage() && z.Storage() !! c.BufStorage()
      && z.Storage() !! c.Statics() && this !in z.Storage()
      && this !in c.TreeStorage() && this !in c.BufStorage() && this !in c.Statics()
      && c.TreeStorage() !! c.BufStorage() && c.TreeStorage() !! c.Statics() && c.BufStorage() !! c.Statics()
      && c.TreeStorage() !! {c.w, c.w.outbuf} && c.BufStorage() !! {c.w, c.w.outbuf} && c.Statics() !! {c.w, c.w.outbuf}
    }

    /** The coder between two tokens. */
    ghost predicate Coding()
      reads c.w, c.w.outbuf, c.TreeStorage(), c.BufStorage(), c.Statics()
    {
      c.Initialized() && c.Counted() && c.buf.Valid() && c.w.Valid()
    }

    /** All input before n has been emitted, as blocks and as tokens of the current block. */
    ghost predicate Emitted(n: nat)
      reads this`blocks, z, c.w, c.w.outbuf, c.buf
      requires c.w.outcnt <= c.w.outbuf.Length
    {
      && z.base + z.blockStart >= 0
      && Written(c.w.Stream(), lead, blocks, z.input.data, z.base + z.blockStart, c.buf.tokens, n)
    }

    /** All tokens so far. */
    ghost function Tallied(): seq<Token>
      reads this`parts, c.buf
    {
      Joined(parts) + c.buf.tokens
    }

    lemma CodingRoom()
      requires Coding()
      ensures c.w.Valid()
      ensures c.w.outcnt <= c.w.outbuf.Length
    {
    }

    /** The bytes of the current block, if they are still in the window. */
    method BlockData() returns (data: Option<seq<byte>>)
      requires z.Laid() && z.strstart <= WINDOW_SIZE && z.blockStart <= z.strstart
      ensures z.blockStart < 0 ==> data == None
      ensures z.blockStart >= 0 ==> data == Some(z.win[z.blockStart..z.strstart])
    {
      if z.blockStart >= 0 {
        data := Some(z.win[z.blockStart..z.strstart]);
      } else {
        data := None;
      }
    }

    /** The macro FLUSH_BLOCK; strstart is at the end of what has been emitted. */
    method FlushTokens(eof: bool) returns (ghost b: Block, ghost stored: Option<seq<byte>>)
      requires Laid() && z.Holding() && Coding() && |c.buf.tokens| < LIT_BUFSIZE
      modifies c.w, c.w.outbuf, c.TreeStorage(), c.BufStorage()
      ensures Coding() && c.buf.tokens == []
      ensures SentBlock(old(c.w.Stream()), c.w.Stream(), b, eof)
      ensures Flushed(stored, old(c.buf.tokens), b, |old(c.w.Stream())|)
      ensures stored.Some? ==> z.blockStart >= 0 && stored.value == z.input.data[z.base + z.blockStart..z.At()]
      ensures eof ==> c.w.biValid == 0 && c.w.Stream() == BytesBits(c.w.Bytes())
    {
      hide Chained, Primed, Filled, SentBlock, Flushed, Coder.Initialized, Coder.Counted, TokenBuffer.Valid, Coder.Laid;
      FilledBound(z.win[..], z.input.data, z.base, z.strstart + z.lookahead);
      var data := BlockData();
      stored := data;
      WindowSlice(z.win[..], z.input.data, z.base, z.strstart + z.lookahead, z.blockStart, z.strstart);
      b := c.FlushBlock(data, z.strstart - z.blockStart, eof, c.w.Stream());
    }

    /** Ends a block that is not the last one. */
    method NextBlock()
      requires Laid() && z.Holding() && Coding() && |c.buf.tokens| < LIT_BUFSIZE
      requires Emitted(z.At()) && BlocksOf(blocks, parts)
      modifies c.w, c.w.outbuf, c.TreeStorage(), c.BufStorage(), z`blockStart, this`blocks, this`parts
      ensures z.Holding() && Coding() && c.buf.tokens == []
      ensures Emitted(z.At()) && z.blockStart == z.strstart
      ensures BlocksOf(blocks, parts) && Tallied() == old(Tallied())
    {
      hide Filled, SentBlock, Flushed, Written, Deflater.Coding, Coder.Laid, Coder.TreeStorage, Coder.BufStorage,
        Coder.Statics, BlocksOf, Joined;
      CodingRoom();
      ghost var s, ts, m, n := c.w.Stream(), c.buf.tokens, z.base + z.blockStart, z.At();
      ghost var b, stored := FlushTokens(false);
      CodingRoom();
      WrittenBlock(s, c.w.Stream(), lead, blocks, z.input.data, m, ts, n, stored, b);
      FlushedTokens(stored, ts, b, |s|);
      BlocksMore(blocks, parts, b, ts);
      JoinedMore(parts, ts);
      blocks, parts := blocks + [b], parts + [ts];
      z.blockStart := z.strstart;
    }

    /** ct_tally on the token that comes next; the token has been emitted then. */
    method Tally(dist: nat, lc: byte, ghost n: nat, ghost next: nat) returns (flush: bool)
      requires Laid() && z.Holding() && Coding() && |c.buf.tokens| < LIT_BUFSIZE - 1
      requires Emitted(n)
      requires dist == 0 ==> next == n + 1 && n < |z.input.data| && lc == z.input.data[n]
      requires dist != 0 ==> next == n + lc + 3 && Repeat(z.input.data, n, lc + 3, dist)
      modifies c.TreeStorage(), c.BufStorage()
      ensures Coding() && Emitted(next) && (|c.buf.tokens| == LIT_BUFSIZE - 1 ==> flush)
      ensures |c.buf.tokens| < LIT_BUFSIZE
      ensures Tallied() == old(Tallied()) + [if dist == 0 then Literal(lc) else Match(lc, dist - 1)]
    {
      hide Filled, Written, Coder.Laid, Coder.TreeStorage, Coder.BufStorage, Coder.Initialized, Coder.Counted,
        TokenBuffer.Valid, Repeat, Joined;
      ghost var s, ts, m, d := c.w.Stream(), c.buf.tokens, z.base + z.blockStart, z.input.data;
      DistSmall(d, n, lc + 3, dist);
      flush := c.CtTally(dist, lc, z.strstart, z.blockStart);
      OneMore(Joined(parts), ts, if dist == 0 then Literal(lc) else Match(lc, dist - 1));
      if dist == 0 {
        WrittenLiteral(s, lead, blocks, d, m, ts, n, lc);
      } else {
        WrittenMatch(s, lead, blocks, d, m, ts, n, lc + 3, dist);
      }
    }

    /** No match at the previous position, or a longer one here: the previous byte is a literal. */
    method EmitLiteral(ghost t: Token)
      requires Laid() && z.Inserted() && Coding() && |c.buf.tokens| < LIT_BUFSIZE - 1
      requires z.strstart >= 1 && Emitted(z.At() - 1) && BlocksOf(blocks, parts)
      requires z.At() <= |z.input.data| && t == Literal(z.input.data[z.At() - 1])
      modifies c.w, c.w.outbuf, c.TreeStorage(), c.BufStorage(), z`blockStart, this`blocks, this`parts
      ensures z.Inserted() && Coding() && |c.buf.tokens| < LIT_BUFSIZE - 1 && Emitted(z.At())
      ensures BlocksOf(blocks, parts) && Tallied() == old(Tallied()) + [t]
    {
      hide Filled, Chained, Primed, Written, Deflater.Coding, Coder.Laid, Coder.TreeStorage, Coder.BufStorage,
        Coder.Statics, BlocksOf, Joined, Deflater.Tallied;
      CodingRoom();
      WindowByte(z.win[..], z.input.data, z.base, z.strstart + z.lookahead, z.strstart - 1);
      var flush := Tally(0, z.win[z.strstart - 1], z.At() - 1, z.At());
      if flush {
        NextBlock();
      }
    }

    /** Moves behind a match; the coder does not notice. */
    method Skip(prevLength: nat)
      requires Laid() && z.Inserted() && Coding() && 3 <= prevLength <= z.lookahead + 1
      modifies z`strstart, z`lookahead, z`insH, z.prev, z.head
      ensures z.Ready() && Coding()
      ensures z.strstart == old(z.strstart) + prevLength - 1 && z.lookahead == old(z.lookahead) - (prevLength - 1)
      ensures c.w.outcnt <= c.w.outbuf.Length && c.w.Stream() == old(c.w.Stream()) && Tallied() == old(Tallied())
    {
      hide Filled, Chained, Primed, Deflater.Coding, Coder.Laid, Joined;
      CodingRoom();
      z.SkipMatch(prevLength);
    }

    /** The previous match is not worse than the one here: it is emitted. */
    method EmitMatch(prevLength: nat, prevMatch: nat, ghost dist: nat, ghost t: Token)
      requires 3 <= prevLength <= 258 && 1 <= dist <= MAX_DIST && t == Match(prevLength - 3, dist - 1)
      requires z.strstart >= 1 && prevMatch < 0x1_0000_0000 && dist == U32(z.strstart - 1 - prevMatch)
      requires prevLength <= z.lookahead + 1 && Repeat(z.input.data, z.At() - 1, prevLength, dist)
      requires Laid() && z.Inserted() && Coding() && |c.buf.tokens| < LIT_BUFSIZE - 1
      requires Emitted(z.At() - 1) && BlocksOf(blocks, parts)
      modifies c.w, c.w.outbuf, c.TreeStorage(), c.BufStorage(), this`blocks, this`parts
      modifies z`blockStart, z`strstart, z`lookahead, z`insH, z.prev, z.head
      ensures z.Ready() && Coding() && |c.buf.tokens| < LIT_BUFSIZE - 1 && Emitted(z.At())
      ensures z.strstart == old(z.strstart) + prevLength - 1 && z.lookahead == old(z.lookahead) - (prevLength - 1)
      ensures BlocksOf(blocks, parts) && Tallied() == old(Tallied()) + [t]
    {
      hide Filled, Chained, Primed, Written, Deflater.Coding, Coder.Laid, Coder.TreeStorage, Coder.BufStorage,
        Coder.Statics, Repeat, U32, BlocksOf, Joined, Deflater.Tallied;
      CodingRoom();
      ghost var n, next := z.At() - 1, z.At() - 1 + prevLength;
      var flush := Tally(U32(z.strstart - 1 - prevMatch), prevLength - 3, n, next);
      CodingRoom();
      Skip(prevLength);
      if flush {
        NextBlock();
      }
    }

    /** Inserts the string at strstart and looks for a match there. */
    method Look(prevLength: nat) returns (matchLength: nat)
      requires Laid() && z.Ready() && z.primed && z.lookahead > 0 && Coding() && 2 <= prevLength <= 258
      requires z.eofile || z.lookahead >= MIN_LOOKAHEAD
      modifies z`insH, z`matchStart, z.prev, z.head
      ensures z.Inserted() && Coding() && matchLength <= 258
      ensures matchLength >= 2 || matchLength == z.lookahead == 1
      ensures matchLength >= 3 && matchLength > prevLength ==>
                matchLength <= z.lookahead && 1 <= U32(z.strstart - z.matchStart) <= MAX_DIST
                && Repeat(z.input.data, z.At(), matchLength, U32(z.strstart - z.matchStart))
      ensures Searched(z.input.data, z.At(), prevLength, matchLength, U32(z.strstart - z.matchStart))
      ensures c.w.outcnt <= c.w.outbuf.Length && c.w.Stream() == old(c.w.Stream()) && Tallied() == old(Tallied())
    {
      hide LzWindow.Inserted, LzWindow.Ready, Deflater.Coding, Coder.Laid, Searched, Repeat, U32, Joined,
        Coder.Initialized, TokenBuffer.Valid;
      CodingRoom();
      matchLength := z.InsertAndFind(prevLength);
    }

    /** Makes sure that there is enough lookahead; the coder does not notice. */
    method Refill()
      requires Laid() && z.Ready() && Coding() && (z.eofile || z.lookahead >= 2)
      modifies z.Storage()
      ensures z.Ready() && Coding() && (z.eofile || z.lookahead >= MIN_LOOKAHEAD) && z.primed == old(z.primed)
      ensures z.lookahead >= old(z.lookahead) && (old(z.eofile) ==> z.lookahead == old(z.lookahead))
      ensures Moved(old(z.base), old(z.strstart), old(z.blockStart), old(z.matchStart),
                    z.base, z.strstart, z.blockStart, z.matchStart)
      ensures z.base > old(z.base) ==> z.strstart >= MAX_DIST
      ensures c.w.outcnt <= c.w.outbuf.Length && c.w.Stream() == old(c.w.Stream()) && Tallied() == old(Tallied())
    {
      hide LzWindow.Ready, Deflater.Coding, Coder.Laid, Moved, LzWindow.Storage, Joined;
      CodingRoom();
      z.FillIfNeeded();
    }

    /** Between two turns of the main loop: the pending byte, and the pending match that begins with it. */
    ghost predicate Between(avail: bool, len: nat)
      reads this`blocks, z, z.win, z.prev, z.head, z.input, c.w, c.w.outbuf, c.TreeStorage(), c.BufStorage(), c.Statics()
    {
      && Laid() && z.Ready() && Coding() && |c.buf.tokens| < LIT_BUFSIZE - 1
      && (z.lookahead > 0 ==> z.primed)
      && (avail ==> z.strstart >= 1)
      && Emitted(z.At() - OneIf(avail))
      && (2 <= len <= 258 || z.lookahead == 0)
      && (len >= 3 ==> avail && len <= z.lookahead + 1 && Pending(z.input.data, z.At(), len, z.strstart, z.matchStart))
    }

    /** The turns so far have tallied the tokens so far, and lead to this one. */
    ghost predicate Traced(steps: seq<Step>, avail: bool, len: nat, dist: nat)
      reads this`blocks, this`parts, z, c.buf
    {
      && BlocksOf(blocks, parts) && LazyRun(z.input.data, steps, Tallied())
      && Expected(steps, z.At(), avail, len, dist)
    }

    /** There is lookahead enough for a longest match, unless the input has ended. */
    ghost predicate InLoop(steps: seq<Step>, avail: bool, len: nat)
      reads this`blocks, this`parts
      reads z, z.win, z.prev, z.head, z.input, c.w, c.w.outbuf, c.TreeStorage(), c.BufStorage(), c.Statics()
    {
      && Between(avail, len) && (z.eofile || z.lookahead >= MIN_LOOKAHEAD)
      && Traced(steps, avail, len, U32(z.strstart - 1 - z.matchStart))
    }

    /** The string at strstart has been inserted, and a match of len0 bytes has been found there. */
    ghost predicate Looked(avail0: bool, prevLength: nat, prevMatch: nat, len0: nat)
      reads this`blocks, z, z.win, z.prev, z.head, z.input, c.w, c.w.outbuf, c.TreeStorage(), c.BufStorage(), c.Statics()
    {
      && Laid() && z.Inserted() && Coding() && |c.buf.tokens| < LIT_BUFSIZE - 1
      && (avail0 ==> z.strstart >= 1) && Emitted(z.At() - OneIf(avail0))
      && 2 <= prevLength <= 258 && prevMatch < 0x1_0000_0000
      && (prevLength >= 3 ==>
            avail0 && prevLength <= z.lookahead + 1 && Pending(z.input.data, z.At(), prevLength, z.strstart, prevMatch))
      && len0 <= 258 && (len0 >= 2 || len0 == z.lookahead == 1)
      && (len0 >= 3 && len0 > prevLength ==>
            len0 <= z.lookahead && 1 <= U32(z.strstart - z.matchStart) <= MAX_DIST
            && Repeat(z.input.data, z.At(), len0, U32(z.strstart - z.matchStart)))
      && Searched(z.input.data, z.At(), prevLength, len0, U32(z.strstart - z.matchStart))
    }

    /** The first half of a turn. */
    method LookAround(avail0: bool, prevLength: nat, prevMatch: nat) returns (matchLength: nat)
      requires Between(avail0, prevLength) && z.lookahead > 0 && prevMatch == z.matchStart
      requires z.eofile || z.lookahead >= MIN_LOOKAHEAD
      modifies z`insH, z`matchStart, z.prev, z.head
      ensures Looked(avail0, prevLength, prevMatch, matchLength) && Tallied() == old(Tallied())
    {
      hide LzWindow.Inserted, Positioned, Deflater.Coding, Coder.Laid, Coder.TreeStorage, Coder.BufStorage,
        Coder.Statics, Written, Pending, Searched, Repeat, U32, Deflater.Tallied;
      matchLength := Look(prevLength);
    }

    /** The match of the previous turn is taken. */
    method TakeMatch(prevLength: nat, prevMatch: nat, len0: nat, ghost dist: nat, ghost t: Token)
      requires 3 <= prevLength <= 258 && dist >= 1 && t == Match(prevLength - 3, dist - 1)
      requires dist == U32(z.strstart - 1 - prevMatch)
      requires Looked(true, prevLength, prevMatch, len0) && BlocksOf(blocks, parts)
      modifies c.w, c.w.outbuf, c.TreeStorage(), c.BufStorage(), this`blocks, this`parts
      modifies z`blockStart, z`strstart, z`lookahead, z`insH, z.prev, z.head
      ensures Between(false, 2) && BlocksOf(blocks, parts)
      ensures z.strstart == old(z.strstart) + prevLength - 1 && z.lookahead == old(z.lookahead) - (prevLength - 1)
      ensures Tallied() == old(Tallied()) + [t] && unchanged(z`base) && unchanged(z`eofile) && unchanged(z`matchStart)
    {
      hide Filled, Chained, Primed, Written, Deflater.Coding, Coder.Laid, Coder.TreeStorage, Coder.BufStorage,
        Coder.Statics, Repeat, U32, Searched, BlocksOf, Deflater.Tallied;
      CodingRoom();
      EmitMatch(prevLength, prevMatch, dist, t);
    }

    /** The pending byte is a literal. */
    method TakeLiteral(prevLength: nat, prevMatch: nat, len0: nat, ghost t: Token)
      requires 1 <= z.At() <= |z.input.data| && t == Literal(z.input.data[z.At() - 1])
      requires Looked(true, prevLength, prevMatch, len0) && BlocksOf(blocks, parts) && (len0 > prevLength || prevLength == 2)
      modifies c.w, c.w.outbuf, c.TreeStorage(), c.BufStorage(), this`blocks, this`parts
      modifies z`blockStart, z`strstart, z`lookahead
      ensures Between(true, len0) && BlocksOf(blocks, parts)
      ensures z.strstart == old(z.strstart) + 1 && z.lookahead == old(z.lookahead) - 1
      ensures Tallied() == old(Tallied()) + [t] && unchanged(z`base) && unchanged(z`eofile) && unchanged(z`matchStart)
    {
      hide Filled, Chained, Primed, Written, Deflater.Coding, Coder.Laid, Coder.TreeStorage, Coder.BufStorage,
        Coder.Statics, Repeat, U32, Searched, BlocksOf, Deflater.Tallied;
      CodingRoom();
      EmitLiteral(t);
      Pass();
    }

    /** Nothing was pending. */
    method TakeNone(prevLength: nat, prevMatch: nat, len0: nat)
      requires Looked(false, prevLength, prevMatch, len0)
      modifies z`strstart, z`lookahead
      ensures Between(true, len0) && z.strstart == old(z.strstart) + 1 && z.lookahead == old(z.lookahead) - 1
      ensures Tallied() == old(Tallied())
    {
      hide Filled, Chained, Primed, Written, Deflater.Coding, Coder.Laid, Coder.TreeStorage, Coder.BufStorage,
        Coder.Statics, Repeat, U32, Searched, Deflater.Tallied;
      CodingRoom();
      Pass();
    }

    lemma LookedAt(avail0: bool, prevLength: nat, prevMatch: nat, len0: nat)
      requires Looked(avail0, prevLength, prevMatch, len0)
      ensures 2 <= prevLength <= 258 && z.lookahead > 0 && z.At() <= |z.input.data| && (avail0 ==> z.At() >= 1)
      ensures prevLength >= 3 ==> avail0 && prevLength <= z.lookahead + 1 && U32(z.strstart - 1 - prevMatch) >= 1
    {
      hide LzWindow.Laid, Deflater.Coding, Coder.Laid, Coder.TreeStorage, Coder.BufStorage, Coder.Statics, Written,
        Searched, Repeat, U32, Chained, Primed;
    }

    /** The second half: what to do with the match of the previous turn. */
    method Decide(avail0: bool, prevLength: nat, prevMatch: nat, len0: nat) returns (avail: bool, len: nat, ghost ts: seq<Token>)
      requires Looked(avail0, prevLength, prevMatch, len0) && BlocksOf(blocks, parts)
      modifies c.w, c.w.outbuf, c.TreeStorage(), c.BufStorage(), this`blocks, this`parts
      modifies z`blockStart, z`strstart, z`lookahead, z`insH, z.prev, z.head
      ensures Between(avail, len) && BlocksOf(blocks, parts)
      ensures z.At() > old(z.At()) && z.lookahead >= old(z.lookahead) - 257 && unchanged(z`eofile)
      ensures Tallied() == old(Tallied()) + ts
      ensures var step := Step(old(z.At()), avail0, prevLength, old(U32(z.strstart - 1 - prevMatch)), len0,
                               old(U32(z.strstart - z.matchStart)));
        Emits(z.input.data, step, ts) && Next(step, z.At(), avail, len, U32(z.strstart - 1 - z.matchStart))
    {
      hide Deflater.Looked, Deflater.Between, Deflater.Laid, Coder.TreeStorage, Coder.BufStorage, Coder.Statics, U32,
        BlocksOf, Deflater.Tallied;
      LookedAt(avail0, prevLength, prevMatch, len0);
      ghost var s := z.strstart;
      if prevLength >= 3 && len0 <= prevLength {
        ghost var dist := U32(z.strstart - 1 - prevMatch);
        ts := [Match(prevLength - 3, dist - 1)];
        TakeMatch(prevLength, prevMatch, len0, dist, ts[0]);
        avail, len := false, 2;
      } else {
        if avail0 {
          ts := [Literal(z.input.data[z.At() - 1])];
          TakeLiteral(prevLength, prevMatch, len0, ts[0]);
        } else {
          ts := [];
          TakeNone(prevLength, prevMatch, len0);
        }
        avail, len := true, len0;
        assert z.strstart - 1 - z.matchStart == s - z.matchStart;
      }
    }

    /** One byte on; the coder does not notice. */
    method Pass()
      requires Laid() && z.Inserted() && Coding()
      modifies z`strstart, z`lookahead
      ensures z.Ready() && Coding() && z.strstart == old(z.strstart) + 1 && z.lookahead == old(z.lookahead) - 1
      ensures c.w.outcnt <= c.w.outbuf.Length && c.w.Stream() == old(c.w.Stream()) && Tallied() == old(Tallied())
    {
      hide Filled, Chained, Primed, Deflater.Coding, Coder.Laid, Joined;
      CodingRoom();
      z.Advance();
    }

    /** More lookahead does not change what is pending. */
    method RefillBetween(ghost steps: seq<Step>, avail: bool, len: nat)
      requires Between(avail, len) && (z.eofile || z.lookahead >= 2)
      requires Traced(steps, avail, len, U32(z.strstart - 1 - z.matchStart))
      modifies z.Storage()
      ensures InLoop(steps, avail, len) && z.At() == old(z.At())
    {
      hide LzWindow.Ready, Deflater.Coding, Coder.Laid, Coder.TreeStorage, Coder.BufStorage, Coder.Statics, Written,
        Repeat, U32, BlocksOf, LazyRun, Expected, Deflater.Tallied;
      ghost var s, m := z.strstart, z.matchStart;
      Refill();
      OneBack(s, m, z.strstart, z.matchStart);
    }

    lemma FoundThere(avail0: bool, prevLength: nat, prevMatch: nat, len0: nat)
      requires Looked(avail0, prevLength, prevMatch, len0)
      ensures Searched(z.input.data, z.At(), prevLength, len0, U32(z.strstart - z.matchStart))
    {
      hide LzWindow.Inserted, Deflater.Coding, Coder.Laid, Coder.TreeStorage, Coder.BufStorage, Coder.Statics, Written,
        Pending, Searched, U32;
    }

    lemma TurnBegins(steps: seq<Step>, avail: bool, len: nat)
      requires InLoop(steps, avail, len)
      ensures Between(avail, len) && BlocksOf(blocks, parts) && LazyRun(z.input.data, steps, Tallied())
      ensures Expected(steps, z.At(), avail, len, U32(z.strstart - 1 - z.matchStart))
    {
      hide Deflater.Between, BlocksOf, LazyRun, Expected, Deflater.Tallied;
    }

    /** One turn of the main loop. */
    method Turn(ghost steps: seq<Step>, avail0: bool, len0: nat) returns (avail: bool, len: nat, ghost step: Step)
      requires InLoop(steps, avail0, len0) && z.lookahead > 0
      modifies c.w, c.w.outbuf, c.TreeStorage(), c.BufStorage(), z.Storage(), this`blocks, this`parts
      ensures InLoop(steps + [step], avail, len) && z.At() > old(z.At())
    {
      hide Deflater.Between, Deflater.Looked, Coder.TreeStorage, Coder.BufStorage, Coder.Statics, BlocksOf, LazyRun,
        Expected, Next, Emits, Searched, U32, Deflater.Tallied;
      var prevMatch := z.matchStart;
      InputBound(steps, avail0, len0);
      TurnBegins(steps, avail0, len0);
      ghost var tokens := Tallied();
      var matchLength := LookAround(avail0, len0, prevMatch);
      FoundThere(avail0, len0, prevMatch, matchLength);
      step := Step(z.At(), avail0, len0, U32(z.strstart - 1 - prevMatch), matchLength, U32(z.strstart - z.matchStart));
      ghost var ts;
      avail, len, ts := Decide(avail0, len0, prevMatch, matchLength);
      RunMore(z.input.data, steps, tokens, step, ts);
      NowExpected(steps, step, z.At(), avail, len, U32(z.strstart - 1 - z.matchStart));
      RefillBetween(steps + [step], avail, len);
    }

    /** Processes the whole input: afterwards the stream holds all of it, the last block is the final one,
        and the last byte is full. */
    method Deflate() returns (ghost end: nat, ghost steps: seq<Step>)
      requires InLoop([], false, 2)
      modifies c.w, c.w.outbuf, c.TreeStorage(), c.BufStorage(), z.Storage(), this`blocks, this`parts
      ensures c.w.Valid() && c.w.biValid == 0 && c.w.Stream() == BytesBits(c.w.Bytes())
      ensures AllSent(c.w.Stream(), lead, blocks, z.input.data, end)
      ensures z.input.isize == U32(|z.input.data|)
      ensures LazyTokens(z.input.data, steps, Joined(parts)) && BlocksOf(blocks, parts)
    {
      hide Deflater.InLoop, Coder.TreeStorage, Coder.BufStorage, Coder.Statics, BlocksOf, LazyTokens, Joined;
      var matchAvailable, matchLength := false, 2;
      steps := [];
      while z.lookahead != 0
        invariant InLoop(steps, matchAvailable, matchLength)
        decreases |z.input.data| - z.At()
      {
        InputBound(steps, matchAvailable, matchLength);
        ghost var step;
        matchAvailable, matchLength, step := Turn(steps, matchAvailable, matchLength);
        steps := steps + [step];
        InputBound(steps, matchAvailable, matchLength);
      }
      InputRead(steps, matchAvailable, matchLength);
      end := Finish(steps, matchAvailable, matchLength);
    }

    lemma InputRead(steps: seq<Step>, avail: bool, len: nat)
      requires InLoop(steps, avail, len) && z.lookahead == 0
      ensures z.input.isize == U32(|z.input.data|) && z.input !in c.TreeStorage() && z.input !in c.BufStorage()
      ensures z !in c.TreeStorage() && z !in c.BufStorage()
    {
      hide Chained, Primed, Filled, Deflater.Coding, Deflater.Emitted, U32, Coder.Laid;
    }

    lemma InputBound(steps: seq<Step>, avail: bool, len: nat)
      requires InLoop(steps, avail, len)
      ensures z.At() + z.lookahead <= |z.input.data|
    {
      hide Chained, Primed, Deflater.Coding, Deflater.Emitted, Deflater.Laid;
    }

    /** The last byte, if it is still pending. */
    method EmitLast(ghost steps: seq<Step>, avail: bool, ghost len: nat)
      requires InLoop(steps, avail, len) && z.lookahead == 0
      modifies c.TreeStorage(), c.BufStorage()
      ensures Laid() && z.Holding() && Coding() && |c.buf.tokens| < LIT_BUFSIZE
      ensures z.At() == |z.input.data| && Emitted(z.At())
      ensures BlocksOf(blocks, parts) && LazyTokens(z.input.data, steps, Tallied())
    {
      hide BlocksOf, LazyTokens, LazyRun, Expected, Deflater.Tallied, U32, Filled, Chained, Primed, Deflater.Coding,
        Coder.Laid, Coder.TreeStorage, Coder.BufStorage, Coder.Statics, Written, Pending;
      CodingRoom();
      ghost var tokens := Tallied();
      if avail {
        WindowByte(z.win[..], z.input.data, z.base, z.strstart + z.lookahead, z.strstart - 1);
        var _ := Tally(0, z.win[z.strstart - 1], z.At() - 1, z.At());
      }
      RunEnds(z.input.data, steps, tokens, avail, len, U32(z.strstart - 1 - z.matchStart), Tallied());
    }

    /** FLUSH_BLOCK(1) */
    method FinalBlock() returns (ghost end: nat)
      requires Laid() && z.Holding() && Coding() && |c.buf.tokens| < LIT_BUFSIZE
      requires z.At() == |z.input.data| && Emitted(z.At()) && BlocksOf(blocks, parts)
      modifies c.w, c.w.outbuf, c.TreeStorage(), c.BufStorage(), this`blocks, this`parts
      ensures c.w.Valid() && c.w.biValid == 0 && c.w.Stream() == BytesBits(c.w.Bytes())
      ensures AllSent(c.w.Stream(), lead, blocks, z.input.data, end)
      ensures BlocksOf(blocks, parts) && Joined(parts) == old(Tallied())
    {
      hide BlocksOf, Joined, Filled, SentBlock, Flushed, Written, Deflater.Coding, Coder.Laid, Coder.TreeStorage,
        Coder.BufStorage, Coder.Statics, AllSent, BlockBits, DataBits, BytesBits, BlockOk, Flagged, LzWindow.Laid,
        LsbBits, LzWindow.At, Coder.Counted, LzWindow.Holding, Matches, Buffered, Coder.Initialized;
      CodingRoom();
      ghost var s, ts, m := c.w.Stream(), c.buf.tokens, z.base + z.blockStart;
      ghost var b, stored := FlushTokens(true);
      CodingRoom();
      FlushedOk(stored, ts, b, |s|);
      CompleteNow(s, c.w.Stream(), lead, blocks, z.input.data, m, ts, stored, b);
      end := |s| + |BlockBits(b, true, |s|)|;
      FlushedTokens(stored, ts, b, |s|);
      BlocksMore(blocks, parts, b, ts);
      JoinedMore(parts, ts);
      blocks, parts := blocks + [b], parts + [ts];
    }

    /** What comes after the main loop. */
    method Finish(ghost steps: seq<Step>, avail: bool, len: nat) returns (ghost end: nat)
      requires InLoop(steps, avail, len) && z.lookahead == 0
      modifies c.w, c.w.outbuf, c.TreeStorage(), c.BufStorage(), this`blocks, this`parts
      ensures c.w.Valid() && c.w.biValid == 0 && c.w.Stream() == BytesBits(c.w.Bytes())
      ensures AllSent(c.w.Stream(), lead, blocks, z.input.data, end)
      ensures BlocksOf(blocks, parts) && LazyTokens(z.input.data, steps, Joined(parts))
    {
      hide BlocksOf, LazyTokens, Joined, Deflater.Tallied, LzWindow.Holding, Deflater.Coding, Deflater.Laid,
        Deflater.Emitted, Coder.TreeStorage, Coder.BufStorage, AllSent, Deflater.InLoop;
      EmitLast(steps, avail, len);
      end := FinalBlock();
    }
  }

  lemma FlushedOk(stored: Option<seq<byte>>, ts: seq<Token>, b: Block, pos: nat)
    requires Flushed(stored, ts, b, pos)
    ensures BlockOk(b)
  {
    hide BlockOk;
  }

  lemma FlushedTokens(stored: Option<seq<byte>>, ts: seq<Token>, b: Block, pos: nat)
    requires Flushed(stored, ts, b, pos)
    ensures b.Stored? || b.tokens == ts
  {
    hide Selected, BlockOk;
  }

  lemma NowExpected(before: seq<Step>, a: Step, at: nat, avail: bool, len: nat, dist: nat)
    requires Next(a, at, avail, len, dist)
    ensures Expected(before + [a], at, avail, len, dist)
  {
    hide Next;
  }

  lemma OneMore(before: seq<Token>, ts: seq<Token>, t: Token)
    ensures before + (ts + [t]) == before + ts + [t]
  {
  }

  lemma OneBack(s: nat, m: nat, s': nat, m': nat)
    requires U32(s - m) == U32(s' - m')
    ensures U32(s - 1 - m) == U32(s' - 1 - m')
  {
    U32Twice(s - m, -1);
    U32Twice(s' - m', -1);
  }

  lemma DistSmall(data: seq<byte>, n: nat, len: nat, dist: nat)
    ensures Repeat(data, n, len, dist) ==> dist <= 0x8000
  {
  }

  lemma WindowByte(win: seq<byte>, data: seq<byte>, base: nat, top: nat, i: nat)
    requires Filled(win, data, base, top) && i < top
    ensures i < |win| && base + i < |data| && win[i] == data[base + i]
  {
  }

  /** A slice of the window is a slice of the input. */
  lemma WindowSlice(win: seq<byte>, data: seq<byte>, base: nat, top: nat, from: int, to: nat)
    requires Filled(win, data, base, top) && from <= to <= top && base + from >= 0
    ensures from >= 0 ==> win[from..to] == data[base + from..base + to]
  {
  }
}
