/** The hash chains: every entry leads to an earlier string with the same hash. */
module Chains {
  import opened Bits
  import opened Heaps
  import opened Hashing

  const WSIZE: nat := 0x8000
  const WINDOW_SIZE: nat := 0x10000
  const MAX_DIST: nat := 32506
  const MIN_LOOKAHEAD: nat := 262
  const MAX_MATCH: nat := 258

  /** The window, with what lies behind it. */
  const FULL: nat := 65794

  lemma Sizes()
    ensures MIN_LOOKAHEAD == MAX_MATCH + MIN_MATCH + 1 && MAX_DIST == WSIZE - MIN_LOOKAHEAD
    ensures WINDOW_SIZE == 2 * WSIZE && FULL == WINDOW_SIZE + MAX_MATCH
  {
  }

  /** Entry q of the chain of hash h, seen from position p. */
  ghost predicate Link(win: seq<byte>, q: nat, p: nat, h: nat) {
    |win| == FULL && (q == 0 || (q < p <= WINDOW_SIZE && Hash(win, q) == h))
  }

  ghost predicate HeadOk(win: seq<byte>, head: seq<ush>, ins: nat, h: nat) {
    h < |head| && Link(win, head[h], ins, h)
  }

  /** The slot of position p still belongs to p: no position WSIZE further on has been inserted. */
  predicate SlotLive(p: nat, ins: nat) {
    p < ins <= p + WSIZE
  }

  /** WMASK */
  function Slot(p: nat): (r: nat)
    ensures r < WSIZE
  {
    p % 0x8000
  }

  ghost predicate PrevOk(win: seq<byte>, prev: seq<ush>, p: nat) {
    |prev| == WSIZE && p < WINDOW_SIZE && |win| == FULL && Link(win, prev[Slot(p)], p, Hash(win, p))
  }

  /** Following the links from q on leads to p. */
  ghost predicate Reaches(prev: seq<ush>, q: nat, p: nat)
    decreases q
  {
    |prev| == WSIZE && (q == p || (p < q && prev[Slot(q)] < q && Reaches(prev, prev[Slot(q)], p)))
  }

  /** The chain of the hash of the string at p goes through p. */
  ghost predicate OnChain(win: seq<byte>, prev: seq<ush>, head: seq<ush>, p: nat) {
    |win| == FULL && p < WINDOW_SIZE && |head| == HASH_SIZE && Reaches(prev, head[Hash(win, p)], p)
  }

  /** All positions below ins have been inserted: what is on a chain is right, and every position that is not too far
      back is on its chain, but for position 0, which looks like the end of a chain. */
  ghost predicate Chained(win: seq<byte>, prev: seq<ush>, head: seq<ush>, ins: nat) {
    && |win| == FULL && |prev| == WSIZE && |head| == HASH_SIZE && ins <= WINDOW_SIZE
    && (forall h :: 0 <= h < HASH_SIZE ==> HeadOk(win, head, ins, h))
    && (forall p :: 0 <= p < ins && SlotLive(p, ins) ==> PrevOk(win, prev, p))
    && (forall p :: 0 < p < ins && SlotLive(p, ins) ==> OnChain(win, prev, head, p))
  }

  lemma ChainedStart(win: seq<byte>, prev: seq<ush>, head: seq<ush>)
    requires |win| == FULL && |prev| == WSIZE && |head| == HASH_SIZE
    requires forall h :: 0 <= h < HASH_SIZE ==> head[h] == 0
    ensures Chained(win, prev, head, 0)
  {
  }

  lemma OtherSlot(p: nat, s: nat)
    requires p < s < p + WSIZE
    ensures Slot(p) != Slot(s)
  {
    assert s - p == (s / 0x8000 - p / 0x8000) * 0x8000 + Slot(s) - Slot(p);
  }

  lemma ReachesBack(prev: seq<ush>, q: nat, p: nat)
    requires Reaches(prev, q, p)
    ensures p <= q && |prev| == WSIZE
  {
  }

  /** Another position's link is out of the way. */
  lemma {:induction false} ReachesStill(prev: seq<ush>, s: nat, v: ush, q: nat, p: nat)
    requires Reaches(prev, q, p) && |prev| == WSIZE && q < s < p + WSIZE
    ensures Reaches(prev[Slot(s) := v], q, p)
    decreases q
  {
    hide Slot;
    if q != p {
      OtherSlot(q, s);
      ReachesStill(prev, s, v, prev[Slot(q)], p);
    }
  }

  lemma InsertOne(win: seq<byte>, prev: seq<ush>, head: seq<ush>, s: nat, prev': seq<ush>, head': seq<ush>, p: nat)
    requires Chained(win, prev, head, s) && s < WINDOW_SIZE && 0 < p <= s < p + WSIZE
    requires prev' == prev[Slot(s) := head[Hash(win, s)]]
    requires head' == head[Hash(win, s) := s]
    ensures OnChain(win, prev', head', p)
  {
    hide Hash, Slot, Reaches;
    if p == s {
      ReachesAtOnce(prev', s);
    } else {
      assert SlotLive(p, s) && OnChain(win, prev, head, p);
      var q := head[Hash(win, p)];
      assert HeadOk(win, head, s, Hash(win, p));
      ReachesBack(prev, q, p);
      ReachesStill(prev, s, head[Hash(win, s)], q, p);
      if Hash(win, p) == Hash(win, s) { ReachesFrom(prev', s, q, p); }
    }
  }

  lemma ReachesAtOnce(prev: seq<ush>, p: nat)
    requires |prev| == WSIZE
    ensures Reaches(prev, p, p)
  {
  }

  lemma ReachesFrom(prev: seq<ush>, s: nat, q: nat, p: nat)
    requires |prev| == WSIZE && prev[Slot(s)] == q && p <= q < s && Reaches(prev, q, p)
    ensures Reaches(prev, s, p)
  {
    hide Slot;
  }

  /** The macro INSERT_STRING keeps the chains. */
  lemma Insert(win: seq<byte>, prev: seq<ush>, head: seq<ush>, s: nat, next: nat, prev': seq<ush>, head': seq<ush>)
    requires Chained(win, prev, head, s) && s < WINDOW_SIZE && next == s + 1
    requires prev' == prev[Slot(s) := head[Hash(win, s)]]
    requires head' == head[Hash(win, s) := s]
    ensures Chained(win, prev', head', next)
    ensures PrevOk(win, prev', s)
  {
    hide Hash, Slot, OnChain;
    var h0 := Hash(win, s);
    assert HeadOk(win, head, s, h0);
    forall h | 0 <= h < HASH_SIZE
      ensures HeadOk(win, head', next, h)
    {
      assert HeadOk(win, head, s, h);
    }
    forall p | 0 <= p < next && SlotLive(p, next)
      ensures PrevOk(win, prev', p)
    {
      if p < s {
        assert SlotLive(p, s) && PrevOk(win, prev, p);
        OtherSlot(p, s);
      }
    }
    forall p | 0 < p < next && SlotLive(p, next)
      ensures OnChain(win, prev', head', p)
    {
      InsertOne(win, prev, head, s, prev', head', p);
    }
  }

  /** Entries are moved down with the window; what falls off the end is no entry any more. */
  function Down(m: ush): ush {
    if m >= 0x8000 then m - 0x8000 else 0
  }

  function AllDown(s: seq<ush>): (r: seq<ush>)
    ensures |r| == |s| && forall i :: 0 <= i < |s| ==> r[i] == Down(s[i])
  {
    seq(|s|, i requires 0 <= i < |s| => Down(s[i]))
  }

  /** The upper half of the window has moved to the lower one; bytes from top on do not matter. */
  ghost predicate Slid(win: seq<byte>, win': seq<byte>, top: nat) {
    && |win| == |win'| == FULL && WSIZE <= top <= WINDOW_SIZE
    && forall i :: 0 <= i < top - WSIZE ==> win'[i] == win[i + WSIZE]
  }

  lemma SlidHash(win: seq<byte>, win': seq<byte>, top: nat, p: nat)
    requires Slid(win, win', top) && p >= WSIZE && p + 2 < top
    ensures Hash(win', p - WSIZE) == Hash(win, p)
  {
    HashSame(win', p - WSIZE, win, p);
  }

  lemma SlotDown(p: nat)
    ensures Slot(p + WSIZE) == Slot(p)
  {
  }

  lemma LinkDown(win: seq<byte>, win': seq<byte>, top: nat, q: ush, p: nat, p': nat, h: nat)
    requires Slid(win, win', top) && Link(win, q, p, h) && p == p' + WSIZE && p + 1 < top
    ensures Link(win', Down(q), p', h)
  {
    if q >= WSIZE && q != WSIZE {
      SlidHash(win, win', top, q);
    }
  }

  /** A slide keeps the chains of all positions that are still in the window. */
  lemma Slide(win: seq<byte>, win': seq<byte>, top: nat, prev: seq<ush>, head: seq<ush>, ins: nat, ins': nat)
    requires Chained(win, prev, head, ins) && Slid(win, win', top)
    requires ins == ins' + WSIZE && ins + 1 < top
    ensures Chained(win', AllDown(prev), AllDown(head), ins')
  {
    hide Hash, Slot, Down, Link, Reaches;
    forall h | 0 <= h < HASH_SIZE
      ensures HeadOk(win', AllDown(head), ins', h)
    {
      assert HeadOk(win, head, ins, h);
      LinkDown(win, win', top, head[h], ins, ins', h);
    }
    forall p | 0 <= p < ins' && SlotLive(p, ins')
      ensures PrevOk(win', AllDown(prev), p)
    {
      SlideOne(win, win', top, prev, ins, ins', p);
    }
    forall p | 0 < p < ins' && SlotLive(p, ins')
      ensures OnChain(win', AllDown(prev), AllDown(head), p)
    {
      var o := p + WSIZE;
      assert SlotLive(o, ins) && OnChain(win, prev, head, o);
      SlidHash(win, win', top, o);
      ReachesDown(prev, head[Hash(win, o)], o, p);
    }
  }

  lemma {:induction false} ReachesDown(prev: seq<ush>, q: ush, o: nat, p: nat)
    requires Reaches(prev, q, o) && o == p + WSIZE && p > 0
    ensures Reaches(AllDown(prev), Down(q), p)
    decreases q
  {
    ReachesBack(prev, q, o);
    if q != o {
      SlotDown(q - WSIZE);
      ReachesBack(prev, prev[Slot(q)], o);
      ReachesDown(prev, prev[Slot(q)], o, p);
    }
  }

  lemma SlideOne(win: seq<byte>, win': seq<byte>, top: nat, prev: seq<ush>, ins: nat, ins': nat, p: nat)
    requires |win| == FULL && |prev| == WSIZE && Slid(win, win', top)
    requires forall p :: 0 <= p < ins && SlotLive(p, ins) ==> PrevOk(win, prev, p)
    requires ins == ins' + WSIZE && ins + 1 < top && p < ins' && SlotLive(p, ins')
    ensures PrevOk(win', AllDown(prev), p)
  {
    hide Hash, Slot, Down, Link;
    var o := p + WSIZE;
    assert SlotLive(o, ins) && PrevOk(win, prev, o);
    SlotDown(p);
    SlidHash(win, win', top, o);
    LinkDown(win, win', top, prev[Slot(p)], o, p, Hash(win, o));
  }

  /** Bytes read in behind the inserted strings do not disturb them. */
  lemma Extend(win: seq<byte>, win': seq<byte>, top: nat, prev: seq<ush>, head: seq<ush>, ins: nat)
    requires Chained(win, prev, head, ins) && |win'| == FULL && ins + 1 < top <= FULL
    requires forall i :: 0 <= i < top ==> win'[i] == win[i]
    ensures Chained(win', prev, head, ins)
  {
    hide Hash, Slot;
    forall h | 0 <= h < HASH_SIZE
      ensures HeadOk(win', head, ins, h)
    {
      assert HeadOk(win, head, ins, h);
      if head[h] != 0 { HashSame(win', head[h], win, head[h]); }
    }
    forall p | 0 <= p < ins && SlotLive(p, ins)
      ensures PrevOk(win', prev, p)
    {
      assert PrevOk(win, prev, p);
      HashSame(win', p, win, p);
      if prev[Slot(p)] != 0 { HashSame(win', prev[Slot(p)], win, prev[Slot(p)]); }
    }
    forall p | 0 < p < ins && SlotLive(p, ins)
      ensures OnChain(win', prev, head, p)
    {
      assert OnChain(win, prev, head, p);
      HashSame(win', p, win, p);
    }
  }
}
