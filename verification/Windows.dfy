/** The sliding window: reading the input, moving the window, and finding matches in it. */
module Windows {
  import opened Bits
  import opened Heaps
  import opened Hashing
  import opened Chains

  /** The input descriptor. A read delivers some of what is left, as much as it likes, and nothing only at the end. */
  class Reader {
    const data: seq<byte>
    var pos: nat
    var isize: nat
    var sizes: seq<nat>

    constructor (data: seq<byte>, sizes: seq<nat>)
      ensures this.data == data && pos == 0 && isize == 0
    {
      this.data, this.sizes, pos, isize := data, sizes, 0, 0;
    }

    /** file_read: counts what it delivers, in 32 bits. */
    method Read(size: nat) returns (chunk: seq<byte>)
      requires pos <= |data| && isize == U32(pos)
      modifies this
      ensures isize == U32(pos)
      ensures old(pos) <= pos <= |data| && chunk == data[old(pos)..pos] && |chunk| <= size
      ensures chunk == [] <==> size == 0 || pos == |data| == old(pos)
    {
      var left := |data| - pos;
      var want := size;
      if sizes != [] {
        want := if sizes[0] == 0 then 1 else sizes[0];
        sizes := sizes[1..];
      }
      var n := if want < size then want else size;
      if n > left { n := left; }
      chunk := data[pos..pos + n];
      U32Twice(pos, n);
      isize := U32(isize + n);
      pos := pos + n;
    }
  }

  /** The first top bytes of the window are the input from base on. */
  ghost predicate Filled(win: seq<byte>, data: seq<byte>, base: nat, top: nat) {
    && |win| == FULL && top <= WINDOW_SIZE && base + top <= |data|
    && forall i :: 0 <= i < top ==> win[i] == data[base + i]
  }

  /** The window and its chains when all strings before s have been inserted; at the very beginning
      the hash has not seen the first two bytes yet. */
  ghost predicate Positioned(win: seq<byte>, prev: seq<ush>, head: seq<ush>, insH: nat, data: seq<byte>, base: nat,
                             s: nat, lookahead: nat, eofile: bool, primed: bool) {
    && Filled(win, data, base, s + lookahead)
    && Chained(win, prev, head, s)
    && (if primed then Primed(insH, win, s) else s == 0 && insH == 0)
    && (eofile ==> base + s + lookahead == |data|)
  }

  // ----- moving the window

  lemma FilledDown(win: seq<byte>, win': seq<byte>, data: seq<byte>, base: nat, top: nat)
    requires Filled(win, data, base, top) && Slid(win, win', top)
    ensures Filled(win', data, base + WSIZE, top - WSIZE)
  {
  }

  lemma PrimedDown(win: seq<byte>, win': seq<byte>, top: nat, h: nat, s: nat, s': nat)
    requires Primed(h, win, s) && Slid(win, win', top) && s == s' + WSIZE && s + 1 < top
    ensures Primed(h, win', s')
  {
    hide Update;
  }

  lemma SlideAll(win: seq<byte>, win': seq<byte>, prev: seq<ush>, head: seq<ush>, insH: nat, data: seq<byte>, base: nat, base': nat,
                 s: nat, s': nat, lookahead: nat, eofile: bool)
    requires Positioned(win, prev, head, insH, data, base, s, lookahead, eofile, true) && lookahead >= 2
    requires s == s' + WSIZE && base' == base + WSIZE && Slid(win, win', s + lookahead)
    ensures Positioned(win', AllDown(prev), AllDown(head), insH, data, base', s', lookahead, eofile, true)
  {
    hide Chained, Filled, Primed;
    FilledBound(win, data, base, s + lookahead);
    FilledDown(win, win', data, base, s + lookahead);
    Slide(win, win', s + lookahead, prev, head, s, s');
    PrimedDown(win, win', s + lookahead, insH, s, s');
  }

  lemma FilledBound(win: seq<byte>, data: seq<byte>, base: nat, top: nat)
    requires Filled(win, data, base, top)
    ensures top <= WINDOW_SIZE && base + top <= |data| && |win| == FULL
  {
  }

  /** memcpy(window, window + WSIZE, WSIZE) */
  method CopyDown(win: array<byte>)
    requires win.Length == FULL
    modifies win
    ensures forall i :: 0 <= i < WSIZE ==> win[i] == old(win[i + WSIZE])
    ensures forall i :: WSIZE <= i < FULL ==> win[i] == old(win[i])
  {
    var i := 0;
    while i < WSIZE
      invariant 0 <= i <= WSIZE
      invariant forall k :: 0 <= k < i ==> win[k] == old(win[k + WSIZE])
      invariant forall k :: i <= k < FULL ==> win[k] == old(win[k])
    {
      win[i] := win[i + WSIZE];
      i := i + 1;
    }
  }

  /** Moves all entries of a table down. */
  method MoveDown(a: array<ush>)
    modifies a
    ensures a[..] == AllDown(old(a[..]))
  {
    var n := 0;
    while n < a.Length
      invariant 0 <= n <= a.Length
      invariant forall k :: 0 <= k < n ==> a[k] == Down(old(a[k]))
      invariant forall k :: n <= k < a.Length ==> a[k] == old(a[k])
    {
      var m := a[n];
      a[n] := if m >= WSIZE then m - WSIZE else 0;
      n := n + 1;
    }
  }

  // ----- reading

  lemma ReadMore(win: seq<byte>, win': seq<byte>, prev: seq<ush>, head: seq<ush>, insH: nat, data: seq<byte>, base: nat,
                 s: nat, lookahead: nat, lookahead': nat, chunk: seq<byte>, primed: bool)
    requires Positioned(win, prev, head, insH, data, base, s, lookahead, false, primed)
    requires primed ==> lookahead >= 2
    requires lookahead' == lookahead + |chunk| && s + lookahead' <= WINDOW_SIZE && base + s + lookahead' <= |data|
    requires chunk == data[base + s + lookahead..base + s + lookahead']
    requires PutAt(win, win', s + lookahead, chunk)
    ensures Positioned(win', prev, head, insH, data, base, s, lookahead', false, primed)
  {
    hide Chained, Hash, Update;
    if primed { Extend(win, win', s + lookahead, prev, head, s); } else { StillNone(win, win', prev, head); }
    FilledMore(win, win', data, base, s + lookahead, chunk);
  }

  lemma StillNone(win: seq<byte>, win': seq<byte>, prev: seq<ush>, head: seq<ush>)
    requires Chained(win, prev, head, 0) && |win'| == FULL
    ensures Chained(win', prev, head, 0)
  {
    forall h | 0 <= h < HASH_SIZE
      ensures head[h] == 0
    {
      assert HeadOk(win, head, 0, h);
    }
    ChainedStart(win', prev, head);
  }

  /** win' is win with chunk put at position at. */
  ghost predicate PutAt(win: seq<byte>, win': seq<byte>, at: nat, chunk: seq<byte>) {
    && |win'| == |win| == FULL && at + |chunk| <= FULL
    && (forall i :: 0 <= i < at ==> win'[i] == win[i])
    && (forall i :: 0 <= i < |chunk| ==> win'[at + i] == chunk[i])
  }

  lemma FilledMore(win: seq<byte>, win': seq<byte>, data: seq<byte>, base: nat, top: nat, chunk: seq<byte>)
    requires Filled(win, data, base, top) && PutAt(win, win', top, chunk)
    requires top + |chunk| <= WINDOW_SIZE && base + top + |chunk| <= |data|
    requires chunk == data[base + top..base + top + |chunk|]
    ensures Filled(win', data, base, top + |chunk|)
  {
    forall i | 0 <= i < top + |chunk|
      ensures win'[i] == data[base + i]
    {
      if i >= top { assert win'[top + (i - top)] == chunk[i - top]; }
    }
  }

  method PutChunk(win: array<byte>, at: nat, chunk: seq<byte>)
    requires win.Length == FULL && at + |chunk| <= FULL
    modifies win
    ensures PutAt(old(win[..]), win[..], at, chunk)
  {
    var i := 0;
    while i < |chunk|
      invariant 0 <= i <= |chunk|
      invariant forall k :: 0 <= k < at ==> win[k] == old(win[k])
      invariant forall k :: 0 <= k < i ==> win[at + k] == chunk[k]
    {
      win[at + i] := chunk[i];
      i := i + 1;
    }
  }

  lemma PosShift(a: nat, m: nat, b: nat)
    requires a == b + WSIZE
    ensures U32(b - U32(m - WSIZE)) == U32(a - m)
  {
    U32Back(b, m - WSIZE);
  }

  lemma U32Back(a: int, b: int)
    ensures U32(a - U32(b)) == U32(a - b)
  {
    var k := b / 0x1_0000_0000;
    assert b == U32(b) + k * 0x1_0000_0000;
    U32Shift(a - b, k);
  }
}
