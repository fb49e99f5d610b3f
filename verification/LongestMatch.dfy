/** longest_match, against a plain search along the hash chain. */
module LongestMatches {
  import opened Bits
  import opened Heaps
  import opened Hashing
  import opened Chains

  // ----- the plain search

  /** The strings at m and s agree in their byte j. */
  predicate Agree(win: seq<byte>, m: nat, s: nat, j: nat) {
    m < s < WINDOW_SIZE && |win| == FULL && j <= 258 && win[m + j] == win[s + j]
  }

  /** The first offset from k on where the strings at m and s differ, 258 at most. */
  function MatchFrom(win: seq<byte>, m: nat, s: nat, k: nat): (r: nat)
    requires m < s < WINDOW_SIZE && |win| == FULL && k <= 258
    ensures k <= r <= 258
    ensures forall j :: k <= j < r ==> Agree(win, m, s, j)
    ensures r < 258 ==> !Agree(win, m, s, r)
    decreases 258 - k
  {
    if k == 258 then 258
    else if !Agree(win, m, s, k) then k
    else MatchFrom(win, m, s, k + 1)
  }

  /** How many bytes the strings at m and s have in common, 258 at most. */
  function MatchLen(win: seq<byte>, m: nat, s: nat): nat
    requires m < s < WINDOW_SIZE && |win| == FULL
  {
    MatchFrom(win, m, s, 0)
  }

  datatype Best = Best(len: nat, start: nat)

  /** The longest match on the chain from m on; the nearer one of equals. */
  function BestOf(win: seq<byte>, prev: seq<ush>, s: nat, m: nat, limit: nat, chain: nat, best: Best): Best
    requires s < WINDOW_SIZE && |win| == FULL && |prev| == WSIZE
    decreases chain
  {
    if chain == 0 || m >= s then best
    else
      var l := MatchLen(win, m, s);
      if l > best.len && l >= 128 then Best(l, m)
      else
        var b := if l > best.len then Best(l, m) else best;
        if prev[Slot(m)] > limit then BestOf(win, prev, s, prev[Slot(m)], limit, chain - 1, b) else b
  }

  // ----- what the plain search finds

  /** The entries of the chain from m on that are within reach. */
  function Visited(prev: seq<ush>, s: nat, m: nat, limit: nat, chain: nat): (r: seq<nat>)
    requires |prev| == WSIZE
    ensures forall i :: 0 <= i < |r| ==> r[i] < s
    decreases chain
  {
    if chain == 0 || m >= s then []
    else [m] + (if prev[Slot(m)] > limit then Visited(prev, s, prev[Slot(m)], limit, chain - 1) else [])
  }

  /** Of the first n entries, b is the nearest one of those that match longest, if any of them beats b0. */
  ghost predicate IsBest(win: seq<byte>, s: nat, entries: seq<nat>, n: nat, b0: Best, b: Best)
    requires s < WINDOW_SIZE && |win| == FULL && n <= |entries|
    requires forall i :: 0 <= i < |entries| ==> entries[i] < s
  {
    && b.len >= b0.len
    && (forall i :: 0 <= i < n ==> MatchLen(win, entries[i], s) <= b.len)
    && (b.len == b0.len ==> b == b0)
    && (b.len > b0.len ==>
          exists i :: 0 <= i < n && b.start == entries[i] && MatchLen(win, entries[i], s) == b.len
                      && forall j :: 0 <= j < i ==> MatchLen(win, entries[j], s) < b.len)
  }

  lemma BestCons(win: seq<byte>, s: nat, m: nat, rest: seq<nat>, n: nat, b0: Best, b1: Best, b: Best)
    requires s < WINDOW_SIZE && |win| == FULL && n <= |rest| && m < s
    requires forall i :: 0 <= i < |rest| ==> rest[i] < s
    requires b1 == if MatchLen(win, m, s) > b0.len then Best(MatchLen(win, m, s), m) else b0
    requires IsBest(win, s, rest, n, b1, b)
    ensures IsBest(win, s, [m] + rest, n + 1, b0, b)
  {
    hide MatchLen;
    var e := [m] + rest;
    forall i | 0 <= i < n + 1
      ensures MatchLen(win, e[i], s) <= b.len
    {
      if i > 0 { assert e[i] == rest[i - 1]; }
    }
    if b.len > b0.len {
      if b.len == b1.len {
        assert e[0] == m;
      } else {
        var i :| 0 <= i < n && b.start == rest[i] && MatchLen(win, rest[i], s) == b.len
                 && forall j :: 0 <= j < i ==> MatchLen(win, rest[j], s) < b.len;
        assert e[i + 1] == rest[i];
        forall j | 0 <= j < i + 1
          ensures MatchLen(win, e[j], s) < b.len
        {
          if j > 0 { assert e[j] == rest[j - 1]; }
        }
      }
    }
  }

  /** The search ends with the best of all entries visited, and passes some over only for a match of 128 or more. */
  lemma {:induction false} BestIsMaximum(win: seq<byte>, prev: seq<ush>, s: nat, m: nat, limit: nat, chain: nat, b0: Best)
    returns (n: nat)
    requires s < WINDOW_SIZE && |win| == FULL && |prev| == WSIZE
    ensures n <= |Visited(prev, s, m, limit, chain)|
    ensures IsBest(win, s, Visited(prev, s, m, limit, chain), n, b0, BestOf(win, prev, s, m, limit, chain, b0))
    ensures n < |Visited(prev, s, m, limit, chain)| ==> BestOf(win, prev, s, m, limit, chain, b0).len >= 128
    decreases chain
  {
    hide MatchLen, Slot;
    if chain == 0 || m >= s {
      n := 0;
    } else {
      var l := MatchLen(win, m, s);
      var b1 := if l > b0.len then Best(l, m) else b0;
      var q := prev[Slot(m)];
      var rest := if q > limit then Visited(prev, s, q, limit, chain - 1) else [];
      if (l > b0.len && l >= 128) || q <= limit {
        n := 1;
        BestCons(win, s, m, rest, 0, b0, b1, b1);
      } else {
        var k := BestIsMaximum(win, prev, s, q, limit, chain - 1, b1);
        BestCons(win, s, m, rest, k, b0, b1, BestOf(win, prev, s, q, limit, chain - 1, b1));
        n := k + 1;
      }
    }
  }

  // ----- the search as it is programmed

  lemma {:induction false} MatchSkips(win: seq<byte>, m: nat, s: nat, j: nat, k: nat)
    requires m < s < WINDOW_SIZE && |win| == FULL && j <= k <= 258
    requires forall i :: j <= i < k ==> Agree(win, m, s, i)
    ensures MatchFrom(win, m, s, j) == MatchFrom(win, m, s, k)
    decreases k - j
  {
    if j < k { MatchSkips(win, m, s, j + 1, k); }
  }

  /** A byte that differs limits the match. */
  lemma MatchEnds(win: seq<byte>, m: nat, s: nat, k: nat)
    requires m < s < WINDOW_SIZE && |win| == FULL && k < 258 && win[m + k] != win[s + k]
    ensures MatchLen(win, m, s) <= k
  {
    assert !Agree(win, m, s, k);
  }

  /** Eight comparisons, as long as the bytes agree. */
  method CompareEight(win: array<byte>, m: nat, s: nat, k0: nat) returns (k: nat, equal: bool)
    requires m < s < WINDOW_SIZE && win.Length == FULL && k0 + 8 <= 258
    ensures k0 < k <= k0 + 8
    ensures forall i :: k0 < i < k ==> Agree(win[..], m, s, i)
    ensures equal ==> k == k0 + 8
    ensures equal <==> Agree(win[..], m, s, k)
  {
    k := k0 + 1;
    equal := win[s + k] == win[m + k];
    while equal && k < k0 + 8
      invariant k0 < k <= k0 + 8
      invariant forall i :: k0 < i < k ==> Agree(win[..], m, s, i)
      invariant equal <==> Agree(win[..], m, s, k)
    {
      k := k + 1;
      equal := win[s + k] == win[m + k];
    }
  }

  /** The scanning loop: checks for the end of the match only every eighth comparison. */
  method ScanMatch(win: array<byte>, m: nat, s: nat) returns (len: nat)
    requires m < s < WINDOW_SIZE && win.Length == FULL
    requires Agree(win[..], m, s, 0) && Agree(win[..], m, s, 1) && Agree(win[..], m, s, 2)
    ensures len == MatchLen(win[..], m, s)
  {
    var scan, equal := 2, true;
    ghost var turns := 0;
    while equal && scan < 258
      invariant 2 <= scan <= 258 && (equal ==> scan == 2 + 8 * turns)
      invariant forall i :: 0 <= i < scan ==> Agree(win[..], m, s, i)
      invariant equal <==> Agree(win[..], m, s, scan)
      decreases 258 - scan, equal
    {
      scan, equal := CompareEight(win, m, s, scan);
      turns := turns + 1;
    }
    len := 258 - (258 - scan);
    MatchSkips(win[..], m, s, 0, scan);
  }

  /** Tries one entry of the chain; the quick rejects lose nothing. */
  method TryEntry(win: array<byte>, m: nat, s: nat, bestLen: nat, scanEnd1: byte, scanEnd: byte) returns (len: nat)
    requires m < s < WINDOW_SIZE && win.Length == FULL && 1 <= bestLen < 258
    requires scanEnd1 == win[s + bestLen - 1] && scanEnd == win[s + bestLen]
    requires Hash(win[..], m) == Hash(win[..], s)
    ensures len > bestLen ==> len == MatchLen(win[..], m, s)
    ensures len <= bestLen ==> MatchLen(win[..], m, s) <= bestLen
  {
    hide Hash, MatchLen;
    ghost var w := win[..];
    if win[m + bestLen] != scanEnd {
      MatchEnds(w, m, s, bestLen);
      return 0;
    }
    if win[m + bestLen - 1] != scanEnd1 {
      MatchEnds(w, m, s, bestLen - 1);
      return 0;
    }
    if win[m] != win[s] {
      MatchEnds(w, m, s, 0);
      return 0;
    }
    if win[m + 1] != win[s + 1] {
      MatchEnds(w, m, s, 1);
      return 0;
    }
    ThirdByte(w, m, s);
    len := ScanMatch(win, m, s);
  }

  function Limit(s: nat): nat {
    if s > MAX_DIST then s - MAX_DIST else 0
  }

  /** The search visits a quarter of the chain if the previous match is good enough. */
  function ChainLength(prevLength: nat): nat {
    if prevLength >= 8 then 32 else 128
  }

  /** An earlier string on the chain of the string at s, not too far away. */
  ghost predicate Candidate(win: seq<byte>, m: nat, s: nat) {
    && 0 < m < s < WINDOW_SIZE && |win| == FULL && s <= m + MAX_DIST
    && Hash(win, m) == Hash(win, s)
  }

  lemma NextCandidate(win: seq<byte>, prev: seq<ush>, head: seq<ush>, s: nat, m: nat, q: ush)
    requires Chained(win, prev, head, s + 1) && Candidate(win, m, s) && q == prev[Slot(m)]
    ensures q > Limit(s) ==> Candidate(win, q, s)
  {
    hide Hash, Slot;
    assert SlotLive(m, s + 1) && PrevOk(win, prev, m);
  }

  /** Gives the length and the place that the plain search along the chain finds. */
  method LongestMatch(win: array<byte>, prev: array<ush>, strstart: nat, curMatch0: nat, prevLength: nat, matchStart0: nat,
                      ghost head: seq<ush>)
    returns (bestLen: nat, matchStart: nat)
    requires win.Length == FULL && prev.Length == WSIZE
    requires Chained(win[..], prev[..], head, strstart + 1)
    requires Candidate(win[..], curMatch0, strstart) && 1 <= prevLength < 258
    ensures Best(bestLen, matchStart)
         == BestOf(win[..], prev[..], strstart, curMatch0, Limit(strstart), ChainLength(prevLength), Best(prevLength, matchStart0))
    ensures prevLength <= bestLen <= 258
    ensures bestLen == prevLength ==> matchStart == matchStart0
    ensures bestLen > prevLength ==> 0 < matchStart < strstart <= matchStart + MAX_DIST
    ensures bestLen > prevLength ==> forall j :: 0 <= j < bestLen ==> Agree(win[..], matchStart, strstart, j)
  {
    hide Hash, Slot, MatchLen, Chained;
    ghost var w, p := win[..], prev[..];
    ghost var goal := BestOf(w, p, strstart, curMatch0, Limit(strstart), ChainLength(prevLength), Best(prevLength, matchStart0));
    var chainLength: nat, curMatch: nat := ChainLength(prevLength), curMatch0;
    var limit := Limit(strstart);
    bestLen, matchStart := prevLength, matchStart0;
    var scanEnd1, scanEnd := win[strstart + bestLen - 1], win[strstart + bestLen];
    var more := true;
    while more
      invariant prevLength <= bestLen <= 258
      invariant bestLen == prevLength ==> matchStart == matchStart0
      invariant bestLen > prevLength ==> 0 < matchStart < strstart <= matchStart + MAX_DIST
      invariant bestLen > prevLength ==> forall j :: 0 <= j < bestLen ==> Agree(w, matchStart, strstart, j)
      invariant more ==> bestLen < 258 && Candidate(w, curMatch, strstart) && chainLength > 0
      invariant more ==> scanEnd1 == win[strstart + bestLen - 1] && scanEnd == win[strstart + bestLen]
      invariant more ==> goal == BestOf(w, p, strstart, curMatch, limit, chainLength, Best(bestLen, matchStart))
      invariant !more ==> goal == Best(bestLen, matchStart)
      decreases chainLength, more
    {
      var len := TryEntry(win, curMatch, strstart, bestLen, scanEnd1, scanEnd);
      if len > bestLen {
        EqualBytes(w, curMatch, strstart);
        matchStart := curMatch;
        bestLen := len;
        if len >= 128 {
          break;
        }
        scanEnd1, scanEnd := win[strstart + bestLen - 1], win[strstart + bestLen];
      }
      NextCandidate(w, p, head, strstart, curMatch, prev[Slot(curMatch)]);
      curMatch := prev[Slot(curMatch)];
      more := false;
      if curMatch > limit {
        chainLength := chainLength - 1;
        more := chainLength != 0;
      }
    }
  }

  lemma EqualBytes(win: seq<byte>, m: nat, s: nat)
    requires m < s < WINDOW_SIZE && |win| == FULL
    ensures MatchLen(win, m, s) <= 258
    ensures forall j :: 0 <= j < MatchLen(win, m, s) ==> Agree(win, m, s, j)
  {
  }
}
