/** The "longest match" routines' state: lm_init, fill_window, INSERT_STRING and the match finder of deflate. */
module LzWindows {
  import opened Bits
  import opened Heaps
  import opened Hashing
  import opened Chains
  import opened LongestMatches
  import opened Windows
  import opened MatchSearches

  class LzWindow {
    const win: array<byte>
    const prev: array<ush>
    const head: array<ush>
    const input: Reader
    var strstart: nat
    var lookahead: nat
    var matchStart: nat
    var insH: nat
    var blockStart: int
    var eofile: bool
    ghost var base: nat       // how far the window has moved
    ghost var primed: bool    // whether insH has been set up

    /** The arrays have their sizes and are not one another. */
    ghost predicate Laid() {
      && win.Length == FULL && prev.Length == WSIZE && head.Length == HASH_SIZE && prev != head
    }

    /** All that belongs to the window. */
    ghost function Storage(): set<object> {
      {this, win, prev, head, input}
    }

    /** Where in the input the string at strstart stands. */
    ghost function At(): nat
      reads this
    {
      base + strstart
    }

    /** Everything before strstart has been inserted; the window holds the input up to the lookahead. */
    ghost predicate Ready()
      reads this, win, prev, head, input
    {
      && Laid()
      && Positioned(win[..], prev[..], head[..], insH, input.data, base, strstart, lookahead, eofile, primed)
      && input.pos == At() + lookahead && input.isize == U32(input.pos) && matchStart < 0x1_0000_0000
      && blockStart <= strstart && base + blockStart >= 0 && (base > 0 ==> strstart >= MAX_DIST)
    }

    /** The window holds the input up to the lookahead, and the current block begins before strstart. */
    ghost predicate Holding()
      reads this, win, input
    {
      && Laid() && Filled(win[..], input.data, base, strstart + lookahead)
      && blockStart <= strstart && base + blockStart >= 0
    }

    constructor (input: Reader)
      requires input.pos == 0 && input.isize == 0
      ensures this.input == input && Laid() && fresh(win) && fresh(prev) && fresh(head)
      ensures strstart == 0 && lookahead == 0 && matchStart == 0 && insH == 0 && blockStart == 0 && !eofile && base == 0 && !primed
      ensures forall h :: 0 <= h < HASH_SIZE ==> head[h] == 0
    {
      this.input := input;
      win := new byte[FULL];
      prev := new ush[WSIZE];
      head := new ush[HASH_SIZE](_ => 0);
      strstart, lookahead, matchStart, insH, blockStart, eofile := 0, 0, 0, 0, 0, false;
      base, primed := 0, false;
    }

    /** The upper half of the window goes to the lower one, and the tables with it. */
    method SlideArrays()
      requires Ready() && strstart >= WSIZE + MAX_DIST && lookahead >= 2
      modifies win, prev, head
      ensures primed && base + strstart + lookahead <= |input.data|
      ensures Positioned(win[..], prev[..], head[..], insH, input.data, base + WSIZE, strstart - WSIZE, lookahead, eofile, true)
    {
      hide Chained, Hash, Primed, U32, Down;
      ghost var w, p, h := win[..], prev[..], head[..];
      FilledBound(w, input.data, base, strstart + lookahead);
      CopyDown(win);
      ghost var w' := win[..];
      assert Slid(w, w', strstart + lookahead);
      MoveDown(head);
      MoveDown(prev);
      assert win[..] == w' && head[..] == AllDown(h) && prev[..] == AllDown(p);
      SlideAll(w, w', p, h, insH, input.data, base, base + WSIZE, strstart, strstart - WSIZE, lookahead, eofile);
    }

    /** Moves the upper half of the window to the lower one. */
    method SlideDown()
      requires Ready() && strstart >= WSIZE + MAX_DIST && lookahead >= 2
      modifies this, win, prev, head
      ensures Ready() && strstart == old(strstart) - WSIZE && lookahead == old(lookahead) && eofile == old(eofile)
      ensures primed && base == old(base) + WSIZE && blockStart == old(blockStart) - WSIZE
      ensures U32(strstart - matchStart) == old(U32(strstart - matchStart))
    {
      hide Positioned, U32;
      SlideArrays();
      PosShift(strstart, matchStart, strstart - WSIZE);
      matchStart := U32(matchStart - WSIZE);
      strstart := strstart - WSIZE;
      blockStart := blockStart - WSIZE;
      base := base + WSIZE;
    }

    /** The reader's next bytes are put behind those that are there. */
    method ReadIn(more: nat)
      requires Ready() && (primed ==> lookahead >= 2) && !eofile && 0 < more <= WINDOW_SIZE - strstart - lookahead
      modifies this`lookahead, this`eofile, win, input
      ensures Ready() && lookahead >= old(lookahead)
      ensures eofile <==> lookahead == old(lookahead)
    {
      hide Chained, Hash, Primed, Filled;
      ghost var w, d := win[..], input.data;
      FilledBound(w, d, base, strstart + lookahead);
      var chunk := input.Read(more);
      if chunk == [] {
        eofile := true;
      } else {
        PutChunk(win, strstart + lookahead, chunk);
        ReadMore(w, win[..], prev[..], head[..], insH, d, base, strstart, lookahead, lookahead + |chunk|, chunk, primed);
        lookahead := lookahead + |chunk|;
      }
    }

    /** Moves the upper half down where there is no room, and reads once; where nothing comes, the input has ended. */
    method FillWindow()
      requires Ready() && (primed ==> lookahead >= 2) && lookahead < MIN_LOOKAHEAD && !eofile
      modifies this, win, prev, head, input
      ensures Ready() && lookahead >= old(lookahead) && primed == old(primed)
      ensures base > old(base) ==> strstart >= MAX_DIST
      ensures eofile <==> lookahead == old(lookahead)
      ensures Moved(old(base), old(strstart), old(blockStart), old(matchStart), base, strstart, blockStart, matchStart)
    {
      hide Chained, Hash, Primed, Filled, U32;
      FilledBound(win[..], input.data, base, strstart + lookahead);
      var more: int := U32(WINDOW_SIZE - lookahead - strstart);
      SmallSpace(WINDOW_SIZE - lookahead - strstart);
      if more == 0xffff_ffff {
        more := more - 1;   // only where integers have 16 bits
      } else if strstart >= WSIZE + MAX_DIST {
        SlideDown();
        more := more + WSIZE;
      }
      ReadIn(more);
    }

    /** Reads on until there is lookahead enough for a longest match or the input has ended. */
    method FillIfNeeded()
      requires Ready() && (eofile || !primed || lookahead >= 2)
      modifies Storage()
      ensures Ready() && lookahead >= old(lookahead) && primed == old(primed) && (eofile || lookahead >= MIN_LOOKAHEAD)
      ensures base > old(base) ==> strstart >= MAX_DIST
      ensures old(eofile) ==> lookahead == old(lookahead)
      ensures Moved(old(base), old(strstart), old(blockStart), old(matchStart), base, strstart, blockStart, matchStart)
    {
      hide Chained, Hash, Primed, Filled, Positioned, U32;
      ghost var b, s, k, m, l, p := base, strstart, blockStart, matchStart, lookahead, primed;
      while lookahead < MIN_LOOKAHEAD && !eofile
        invariant Ready() && lookahead >= l && primed == p && (eofile || !p || lookahead >= 2)
        invariant Moved(b, s, k, m, base, strstart, blockStart, matchStart)
        invariant base > b ==> strstart >= MAX_DIST
        invariant old(eofile) ==> eofile && lookahead == l
        decreases MIN_LOOKAHEAD - lookahead, !eofile
      {
        FillWindow();
      }
    }

    /** The macro INSERT_STRING at position s, the next one to be inserted: the previous head of the chain. */
    method InsertString(s: nat) returns (hashHead: nat)
      requires Laid() && s < WINDOW_SIZE
      requires Chained(win[..], prev[..], head[..], s) && Primed(insH, win[..], s)
      modifies this`insH, prev, head
      ensures Chained(win[..], prev[..], head[..], s + 1) && Primed(insH, win[..], s + 1)
      ensures hashHead == prev[Slot(s)] && PrevOk(win[..], prev[..], s)
    {
      hide Chained, Hash, Primed, Update, PrevOk, Slot;
      ghost var w, i := win[..], insH;
      ghost var p: seq<ush>, h: seq<ush> := prev[..], head[..];
      insH := Update(insH, win[s + 2]);
      var slot := Slot(s);
      prev[slot] := head[insH];
      hashHead := head[insH];
      var pos: ush := s;
      head[insH] := pos;
      assert prev[..] == p[slot := h[insH]] && head[..] == h[insH := pos];
      InsertReady(w, p, h, i, prev[..], head[..], insH, s, s + 1);
    }

    /** strstart has been inserted too. */
    ghost predicate Inserted()
      reads this, win, prev, head, input
    {
      && Laid() && primed && lookahead > 0 && strstart < WINDOW_SIZE
      && Filled(win[..], input.data, base, strstart + lookahead)
      && Chained(win[..], prev[..], head[..], strstart + 1)
      && Primed(insH, win[..], strstart + 1)
      && (eofile ==> At() + lookahead == |input.data|)
      && input.pos == At() + lookahead && input.isize == U32(input.pos) && matchStart < 0x1_0000_0000
      && blockStart <= strstart && base + blockStart >= 0 && (base > 0 ==> strstart >= MAX_DIST)
    }

    /** Inserts the string at strstart. */
    method InsertCurrent() returns (hashHead: nat)
      requires Ready() && primed && lookahead > 0
      modifies this`insH, prev, head
      ensures Inserted()
      ensures hashHead == prev[Slot(strstart)] && PrevOk(win[..], prev[..], strstart)
    {
      hide Chained, Hash, Primed, Filled, Slot, PrevOk;
      FilledBound(win[..], input.data, base, strstart + lookahead);
      hashHead := InsertString(strstart);
    }

    /** strstart++, lookahead-- */
    method Advance()
      requires Inserted()
      modifies this`strstart, this`lookahead
      ensures Ready() && strstart == old(strstart) + 1 && lookahead == old(lookahead) - 1
    {
      hide Chained, Hash, Primed, Filled;
      strstart := strstart + 1;
      lookahead := lookahead - 1;
    }

    /** strstart moves to the end of the previous match; every position that it passes is inserted into its chain. */
    method SkipMatch(prevLength0: nat)
      requires Inserted() && 3 <= prevLength0 <= lookahead + 1
      modifies this`strstart, this`lookahead, this`insH, prev, head
      ensures Ready() && strstart == old(strstart) + prevLength0 - 1 && lookahead == old(lookahead) - (prevLength0 - 1)
    {
      hide Chained, Hash, Primed, Filled, PrevOk, Slot;
      ghost var top, s0 := strstart + lookahead, strstart;
      FilledBound(win[..], input.data, base, top);
      lookahead := lookahead - (prevLength0 - 1);
      var prevLength := prevLength0 - 2;
      while prevLength != 0
        invariant lookahead + prevLength0 - 1 == top - s0
        invariant 0 <= prevLength <= prevLength0 - 2 && strstart == s0 + (prevLength0 - 2 - prevLength)
        invariant Chained(win[..], prev[..], head[..], strstart + 1) && Primed(insH, win[..], strstart + 1)
      {
        strstart := strstart + 1;
        var _ := InsertString(strstart);
        prevLength := prevLength - 1;
      }
      strstart := strstart + 1;
      assert strstart + lookahead == top;
    }

    /** longest_match, and what deflate does with its result. */
    method SearchFrom(hashHead: nat, prevLength: nat) returns (matchLength: nat, ghost b: Best)
      requires Inserted() && 2 <= prevLength < 258 && Candidate(win[..], hashHead, strstart)
      modifies this`matchStart
      ensures Inserted() && matchLength <= 258
      ensures Sought(win[..], prev[..], strstart, hashHead, prevLength, old(matchStart), b)
      ensures matchStart == b.start && Kept(strstart, lookahead, b, matchLength)
      ensures matchLength >= 2 || matchLength == lookahead == 1
      ensures matchLength >= 3 && matchLength > prevLength ==>
                matchLength <= lookahead && 1 <= U32(strstart - matchStart) <= MAX_DIST
                && Repeat(input.data, At(), matchLength, U32(strstart - matchStart))
    {
      hide Chained, Hash, Filled, Primed, PrevOk, Slot, Agree, MatchLen, BestOf, Repeat, Sought;
      FilledBound(win[..], input.data, base, strstart + lookahead);
      matchLength, matchStart := LongestMatch(win, prev, strstart, hashHead, prevLength, matchStart, head[..]);
      b := Best(matchLength, matchStart);
      SoughtNow(win[..], prev[..], strstart, hashHead, prevLength, old(matchStart), b);
      if matchLength > lookahead {
        matchLength := lookahead;
      }
      if matchLength > prevLength {
        SmallSpace(strstart - matchStart);
        AgreeRepeats(win[..], input.data, base, strstart + lookahead, strstart, matchStart, matchLength);
      }
      if matchLength == 3 && U32(strstart - matchStart) > 4096 {
        matchLength := matchLength - 1;
      }
    }

    /** Looks for a match that beats prevLength at strstart, which has just been inserted. */
    method FindMatch(hashHead: nat, prevLength: nat) returns (matchLength: nat)
      requires Inserted() && 2 <= prevLength <= 258
      requires hashHead == prev[Slot(strstart)] && PrevOk(win[..], prev[..], strstart)
      modifies this`matchStart
      ensures Inserted() && matchLength <= 258
      ensures Finds(win[..], prev[..], strstart, lookahead, prevLength, old(matchStart), matchLength, matchStart)
      ensures matchLength >= 2 || matchLength == lookahead == 1
      ensures matchLength >= 3 && matchLength > prevLength ==>
                matchLength <= lookahead && 1 <= U32(strstart - matchStart) <= MAX_DIST
                && Repeat(input.data, At(), matchLength, U32(strstart - matchStart))
    {
      hide Chained, Hash, Filled, Primed, PrevOk, Slot, Repeat, Sought, Kept, U32;
      matchLength := 2;
      PrevLink(win[..], prev[..], strstart);
      if hashHead != 0 && prevLength < 16 && strstart - hashHead <= MAX_DIST {
        ghost var b;
        matchLength, b := SearchFrom(hashHead, prevLength);
      }
    }

    /** Inserts the string at strstart and looks for a match there that beats prevLength. */
    method InsertAndFind(prevLength: nat) returns (matchLength: nat)
      requires Ready() && primed && lookahead > 0 && 2 <= prevLength <= 258 && (eofile || lookahead >= MIN_LOOKAHEAD)
      modifies this`insH, this`matchStart, prev, head
      ensures Inserted() && matchLength <= 258
      ensures matchLength >= 2 || matchLength == lookahead == 1
      ensures matchLength >= 3 && matchLength > prevLength ==>
                matchLength <= lookahead && 1 <= U32(strstart - matchStart) <= MAX_DIST
                && Repeat(input.data, At(), matchLength, U32(strstart - matchStart))
      ensures Searched(input.data, At(), prevLength, matchLength, U32(strstart - matchStart))
    {
      hide LzWindow.Inserted, LzWindow.Ready, Repeat, U32, PrevOk, Slot, Finds, Searched;
      var hashHead := InsertCurrent();
      ghost var start0 := matchStart;
      matchLength := FindMatch(hashHead, prevLength);
      FoundWell(prevLength, matchLength, start0);
    }

    lemma FoundWell(prevLength: nat, matchLength: nat, start0: nat)
      requires Inserted() && (eofile || lookahead >= MIN_LOOKAHEAD) && prevLength >= 2 && matchLength <= 258
      requires Finds(win[..], prev[..], strstart, lookahead, prevLength, start0, matchLength, matchStart)
      requires matchLength >= 3 && matchLength > prevLength ==> Repeat(input.data, At(), matchLength, U32(strstart - matchStart))
      ensures Searched(input.data, At(), prevLength, matchLength, U32(strstart - matchStart))
    {
      hide Chained, Hash, Filled, Primed, Slot, Repeat, Sought, U32, NothingMissed;
      if prevLength < 16 {
        FindsWell(win[..], prev[..], head[..], strstart, lookahead, input.data, base, prevLength, start0, matchLength, matchStart);
      }
    }

    /** An empty window is filled for the first time, and the rolling hash of its first two bytes is formed. */
    method LmInit()
      requires Laid() && input.pos == 0 && input.isize == 0 && lookahead == 0 && strstart == 0 && base == 0 && blockStart == 0
      requires matchStart == 0 && insH == 0 && !eofile && !primed
      requires forall h :: 0 <= h < HASH_SIZE ==> head[h] == 0
      modifies this, win, prev, head, input
      ensures Ready() && At() == 0 && base == 0 && blockStart == 0
      ensures if lookahead == 0 then eofile && input.data == [] else primed && (eofile || lookahead >= MIN_LOOKAHEAD)
    {
      hide Chained, Hash, Primed, Update, U32;
      ghost var w := win[..];
      SmallSpace(0);
      ChainedStart(w, prev[..], head[..]);
      var chunk := input.Read(WINDOW_SIZE);
      if chunk == [] {
        eofile := true;
        lookahead := 0;
        return;
      }
      PutChunk(win, 0, chunk);
      lookahead := |chunk|;
      ReadMore(w, win[..], prev[..], head[..], 0, input.data, 0, 0, 0, |chunk|, chunk, false);
      FillIfNeeded();
      insH := Update(Update(insH, win[0]), win[1]);
      primed := true;
      PrimedStart(win[..]);
    }
  }

  /** longest_match makes the search that is meant. */
  lemma SoughtNow(win: seq<byte>, prev: seq<ush>, s: nat, m: nat, prevLength: nat, start0: nat, b: Best)
    requires s < WINDOW_SIZE && |win| == FULL && |prev| == WSIZE
    requires b == BestOf(win, prev, s, m, Limit(s), ChainLength(prevLength), Best(prevLength, start0))
    ensures Sought(win, prev, s, m, prevLength, start0, b)
  {
    hide BestOf, Visited, IsBest;
    var limit, chain := Limit(s), ChainLength(prevLength);
    var n := BestIsMaximum(win, prev, s, m, limit, chain, Best(prevLength, start0));
    assert BestVisited(win, s, Visited(prev, s, m, limit, chain), Best(prevLength, start0), b);
  }

  lemma InsertReady(win: seq<byte>, prev: seq<ush>, head: seq<ush>, insH: nat, prev': seq<ush>, head': seq<ush>, insH': nat,
                    s: nat, next: nat)
    requires Chained(win, prev, head, s) && Primed(insH, win, s) && s < WINDOW_SIZE && next == s + 1
    requires insH' == Update(insH, win[s + 2])
    requires prev' == prev[Slot(s) := head[insH']] && head' == head[insH' := s as ush]
    ensures Chained(win, prev', head', next) && Primed(insH', win, next) && PrevOk(win, prev', s)
  {
    hide Chained, Hash, Update, Slot, PrevOk;
    Sized(win, prev, head, s);
    HashStep(insH, win, s);
    Insert(win, prev, head, s, next, prev', head');
  }

  lemma Sized(win: seq<byte>, prev: seq<ush>, head: seq<ush>, s: nat)
    requires Chained(win, prev, head, s)
    ensures |win| == FULL && |prev| == WSIZE && |head| == HASH_SIZE
  {
  }

  /** A match in the window within the lookahead is a repetition in the input. */
  lemma AgreeRepeats(win: seq<byte>, data: seq<byte>, base: nat, top: nat, s: nat, m: nat, len: nat)
    requires Filled(win, data, base, top) && 0 < m < s < WINDOW_SIZE && s <= m + MAX_DIST && s + len <= top
    requires forall j :: 0 <= j < len ==> Agree(win, m, s, j)
    ensures Repeat(data, base + s, len, s - m)
  {
    var at, dist := base + s, s - m;
    forall k | 0 <= k < len
      ensures RepeatAt(data, at, dist, k)
    {
      assert Agree(win, m, s, k);
      assert win[s + k] == data[base + (s + k)] && win[m + k] == data[base + (m + k)];
    }
  }

  lemma PrevLink(win: seq<byte>, prev: seq<ush>, s: nat)
    requires PrevOk(win, prev, s)
    ensures prev[Slot(s)] != 0 && s <= prev[Slot(s)] + MAX_DIST ==> Candidate(win, prev[Slot(s)], s)
  {
    hide Hash, Slot;
  }

  lemma SmallSpace(a: nat)
    requires a <= WINDOW_SIZE
    ensures U32(a) == a
  {
  }

  /** The window has moved by base' - base, and everything with it. */
  ghost predicate Moved(base: nat, s: nat, block: int, m: nat, base': nat, s': nat, block': int, m': nat) {
    && base + s == base' + s' && base + block == base' + block' && s' <= s
    && U32(s - m) == U32(s' - m')
  }
}
