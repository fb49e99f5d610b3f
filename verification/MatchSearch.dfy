/** What deflate's search for a match finds: in the window, and in the input. */
module MatchSearches {
  import opened Bits
  import opened Heaps
  import opened Hashing
  import opened Chains
  import opened LongestMatches
  import opened Windows

  // ----- in the window

  /** b is the best of the entries visited; only for a match of 128 bytes or more are any of them passed over. */
  ghost predicate BestVisited(win: seq<byte>, s: nat, entries: seq<nat>, b0: Best, b: Best)
    requires s < WINDOW_SIZE && |win| == FULL && forall i :: 0 <= i < |entries| ==> entries[i] < s
  {
    exists n :: 0 <= n <= |entries| && IsBest(win, s, entries, n, b0, b) && (n < |entries| ==> b.len >= 128)
  }

  /** The search along the chain from m on ends with b: at most 128 entries are visited, or 32 from a previous length
      of 8 on, and none that is more than 32506 bytes away. */
  ghost predicate Sought(win: seq<byte>, prev: seq<ush>, s: nat, m: nat, prevLength: nat, start0: nat, b: Best)
    requires s < WINDOW_SIZE && |win| == FULL && |prev| == WSIZE
  {
    var limit, chain := if s > 32506 then s - 32506 else 0, if prevLength >= 8 then 32 else 128;
    BestVisited(win, s, Visited(prev, s, m, limit, chain), Best(prevLength, start0), b)
  }

  /** What is left of the best match: no more than the lookahead, and no match of 3 bytes that is too far away. */
  predicate Kept(s: nat, lookahead: nat, b: Best, len: nat) {
    var clipped := if b.len > lookahead then lookahead else b.len;
    len == if clipped == 3 && U32(s - b.start) > 4096 then 2 else clipped
  }

  /** match_length and match_start after the search at s. */
  ghost predicate Finds(win: seq<byte>, prev: seq<ush>, s: nat, lookahead: nat, prevLength: nat, start0: nat, len: nat, start: nat)
    requires s < WINDOW_SIZE && |win| == FULL && |prev| == WSIZE
  {
    var m := prev[Slot(s)];
    if m != 0 && prevLength < 16 && s - m <= 32506 then
      exists b: Best :: Sought(win, prev, s, m, prevLength, start0, b) && start == b.start && Kept(s, lookahead, b, len)
    else len == 2 && start == start0
  }

  // ----- the entries of a chain

  /** An entry within reach is visited, unless there are so many nearer ones that the search gives up before. */
  lemma {:induction false} VisitedHas(prev: seq<ush>, s: nat, m: nat, limit: nat, chain: nat, p: nat)
    requires Reaches(prev, m, p) && limit < p && m < s && |prev| == WSIZE
    ensures var v := Visited(prev, s, m, limit, chain);
      p in v || (|v| == chain && forall i :: 0 <= i < |v| ==> v[i] > p)
    decreases chain
  {
    hide Slot;
    if chain > 0 && m != p {
      var q := prev[Slot(m)];
      ReachesBack(prev, q, p);
      VisitedHas(prev, s, q, limit, chain - 1, p);
    }
  }

  ghost predicate Falling(es: seq<nat>) {
    forall i, j :: 0 <= i < j < |es| ==> es[i] > es[j]
  }

  /** Nearer entries come first, and all of them have the same hash. */
  lemma {:induction false} VisitedFall(win: seq<byte>, prev: seq<ush>, head: seq<ush>, s: nat, m: nat, limit: nat, chain: nat)
    requires Chained(win, prev, head, s + 1) && Candidate(win, m, s) && limit == Limit(s)
    ensures var v := Visited(prev, s, m, limit, chain);
      Falling(v) && forall i :: 0 <= i < |v| ==> v[i] <= m && Candidate(win, v[i], s)
    decreases chain
  {
    hide Hash, Slot, Chained, Limit;
    if chain > 0 {
      Sizes3(win, prev, head, s + 1);
      var q := prev[Slot(m)];
      if q > limit {
        NextCandidate(win, prev, head, s, m, q);
        LinkBack(win, prev, head, s, m, q);
        VisitedFall(win, prev, head, s, q, limit, chain - 1);
      }
    }
  }

  lemma Sizes3(win: seq<byte>, prev: seq<ush>, head: seq<ush>, s: nat)
    requires Chained(win, prev, head, s)
    ensures |win| == FULL && |prev| == WSIZE && |head| == HASH_SIZE
  {
  }

  lemma LinkBack(win: seq<byte>, prev: seq<ush>, head: seq<ush>, s: nat, m: nat, q: ush)
    requires Chained(win, prev, head, s + 1) && Candidate(win, m, s) && q == prev[Slot(m)] && q != 0
    ensures q < m
  {
    hide Hash, Slot;
    assert SlotLive(m, s + 1) && PrevOk(win, prev, m);
  }

  // ----- in the input

  /** At position at, the next len bytes repeat those that far back. */
  ghost predicate Repeat(data: seq<byte>, at: nat, len: nat, dist: nat) {
    && 1 <= dist <= MAX_DIST && dist <= at && at + len <= |data|
    && forall k :: 0 <= k < len ==> RepeatAt(data, at, dist, k)
  }

  ghost predicate RepeatAt(data: seq<byte>, at: nat, dist: nat, k: nat) {
    dist <= at && at + k < |data| && data[at + k] == data[at - dist + k]
  }

  predicate SameAt(data: seq<byte>, p: nat, q: nat, j: nat) {
    p + j < |data| && q + j < |data| && data[p + j] == data[q + j]
  }

  /** The k bytes at p and at q are the same. */
  ghost predicate Same(data: seq<byte>, p: nat, q: nat, k: nat) {
    p + k <= |data| && q + k <= |data| && forall j :: 0 <= j < k ==> SameAt(data, p, q, j)
  }

  predicate SameHash(data: seq<byte>, p: nat, q: nat) {
    p + 2 < |data| && q + 2 < |data| && Hash(data, p) == Hash(data, q)
  }

  /** At least n positions between p and at have the hash of the one at at. */
  ghost predicate Crowded(data: seq<byte>, p: nat, at: nat, n: nat) {
    exists es: seq<nat> :: |es| == n && Falling(es) && forall i :: 0 <= i < n ==> p < es[i] < at && SameHash(data, es[i], at)
  }

  /** No repetition of 3 to 258 bytes less than 32506 bytes back beats what has been found and the previous match,
      unless 128 bytes are good enough, or 3 bytes are too far away or the last ones, or the search has given up after
      128 nearer positions, or 32. Position 0 is not looked at. */
  ghost predicate NothingMissed(data: seq<byte>, at: nat, prevLength: nat, found: nat) {
    forall p: nat, k: nat :: 0 < p < at < p + 32506 && 3 <= k <= 258 && Same(data, p, at, k) ==>
      k <= prevLength || k <= found || found >= 128 || (k == 3 && (at - p > 4096 || at + 3 == |data|))
      || Crowded(data, p, at, if prevLength >= 8 then 32 else 128)
  }

  /** What a search at position at may give: a longer match than the previous one is there, and nothing is missed; from
      a previous match of 16 bytes on, there is no search. */
  ghost predicate Searched(data: seq<byte>, at: nat, prevLength: nat, found: nat, dist: nat) {
    && found <= 258 && (found >= 3 && found > prevLength ==> Repeat(data, at, found, dist))
    && if prevLength >= 16 then found == 2 else NothingMissed(data, at, prevLength, found)
  }

  // ----- from the window to the input

  lemma SameInWindow(win: seq<byte>, data: seq<byte>, base: nat, top: nat, m: nat, s: nat, k: nat)
    requires Filled(win, data, base, top) && m < s < WINDOW_SIZE && s + k <= top && 3 <= k <= 258
    requires Same(data, base + m, base + s, k)
    ensures MatchLen(win, m, s) >= k && Hash(win, m) == Hash(win, s)
  {
    hide Hash;
    forall j | 0 <= j < k
      ensures Agree(win, m, s, j)
    {
      assert SameAt(data, base + m, base + s, j);
      assert win[m + j] == data[base + (m + j)] && win[s + j] == data[base + (s + j)];
    }
    assert Agree(win, m, s, 0) && Agree(win, m, s, 1) && Agree(win, m, s, 2);
    HashSame(win, m, win, s);
    MatchSkips(win, m, s, 0, k);
  }

  lemma HashInWindow(win: seq<byte>, data: seq<byte>, base: nat, top: nat, p: nat)
    requires Filled(win, data, base, top) && p + 2 < top
    ensures base + p + 2 < |data| && Hash(data, base + p) == Hash(win, p)
  {
    hide Hash;
    HashSame(win, p, data, base + p);
  }

  /** The chain of the string at s goes through an earlier string of the same hash. */
  lemma OnItsChain(win: seq<byte>, prev: seq<ush>, head: seq<ush>, s: nat, p: nat)
    requires Chained(win, prev, head, s + 1) && 0 < p < s < WINDOW_SIZE && s <= p + MAX_DIST && Hash(win, p) == Hash(win, s)
    ensures Reaches(prev, prev[Slot(s)], p) && p <= prev[Slot(s)] < s && Candidate(win, prev[Slot(s)], s)
  {
    hide Hash, Slot;
    assert SlotLive(s, s + 1) && OnChain(win, prev, head, s) && PrevOk(win, prev, s);
    assert HeadOk(win, head, s + 1, Hash(win, s));
    ReachesBack(prev, head[Hash(win, s)], s);
    assert SlotLive(p, s + 1) && OnChain(win, prev, head, p);
    ReachesBack(prev, prev[Slot(s)], p);
  }

  lemma CrowdedNow(win: seq<byte>, data: seq<byte>, base: nat, top: nat, s: nat, p: nat, v: seq<nat>)
    requires Filled(win, data, base, top) && s + 2 < top && Falling(v)
    requires forall i :: 0 <= i < |v| ==> v[i] > p && Candidate(win, v[i], s)
    ensures Crowded(data, base + p, base + s, |v|)
  {
    hide Hash;
    var es: seq<nat> := seq(|v|, i requires 0 <= i < |v| => base + v[i]);
    HashInWindow(win, data, base, top, s);
    forall i | 0 <= i < |es|
      ensures base + p < es[i] < base + s && SameHash(data, es[i], base + s)
    {
      assert Candidate(win, v[i], s);
      HashInWindow(win, data, base, top, v[i]);
    }
    assert Falling(es);
  }

  /** The best of the entries looked at is as good as each of them, and as near as any that is as good. */
  lemma BestCovers(win: seq<byte>, s: nat, es: seq<nat>, n: nat, b0: Best, b: Best, i: nat, k: nat)
    requires s < WINDOW_SIZE && |win| == FULL && n <= |es| && forall i :: 0 <= i < |es| ==> es[i] < s
    requires IsBest(win, s, es, n, b0, b) && Falling(es)
    requires i < n && MatchLen(win, es[i], s) >= k > b0.len
    ensures b.len >= k && (b.len == k ==> es[i] <= b.start < s)
  {
    hide MatchLen;
    if b.len == k {
      var j :| 0 <= j < n && b.start == es[j] && MatchLen(win, es[j], s) == b.len
               && forall h :: 0 <= h < j ==> MatchLen(win, es[h], s) < b.len;
      assert j <= i;
    }
  }

  lemma KeptEnough(s: nat, lookahead: nat, b: Best, len: nat, p: nat, k: nat)
    requires Kept(s, lookahead, b, len) && s < WINDOW_SIZE && 3 <= k <= lookahead
    requires b.len >= k && (b.len == k ==> p <= b.start < s)
    ensures k <= len || (k == 3 && (s - p > 4096 || lookahead == 3))
  {
  }

  lemma StoppedEarly(s: nat, lookahead: nat, b: Best, len: nat, k: nat)
    requires Kept(s, lookahead, b, len) && 3 <= k <= lookahead && b.len >= 128
    ensures len >= 128 || k <= len || (k == 3 && lookahead == 3)
  {
    hide U32;
  }

  /** One repetition is not missed, where the search has been made. */
  lemma SoughtWell(win: seq<byte>, prev: seq<ush>, head: seq<ush>, s: nat, lookahead: nat, data: seq<byte>, base: nat,
                   prevLength: nat, start0: nat, b: Best, len: nat, p: nat, k: nat)
    requires Chained(win, prev, head, s + 1) && s < WINDOW_SIZE && Filled(win, data, base, s + lookahead)
    requires 0 < p < s < p + 32506 && 3 <= k <= 258 && k <= lookahead && Same(data, base + p, base + s, k)
    requires |prev| == WSIZE && |win| == FULL && Sought(win, prev, s, prev[Slot(s)], prevLength, start0, b)
    requires Kept(s, lookahead, b, len)
    ensures k <= prevLength || k <= len || len >= 128 || (k == 3 && (s - p > 4096 || lookahead == 3))
            || Crowded(data, base + p, base + s, if prevLength >= 8 then 32 else 128)
  {
    hide Chained, Filled, Same, Kept, Visited, IsBest, Crowded, MatchLen, Hash, Slot;
    var m, limit, chain := prev[Slot(s)], if s > 32506 then s - 32506 else 0, if prevLength >= 8 then 32 else 128;
    var v := Visited(prev, s, m, limit, chain);
    SameInWindow(win, data, base, s + lookahead, p, s, k);
    OnItsChain(win, prev, head, s, p);
    VisitedHas(prev, s, m, limit, chain, p);
    VisitedFall(win, prev, head, s, m, limit, chain);
    assert BestVisited(win, s, v, Best(prevLength, start0), b);
    var n :| 0 <= n <= |v| && IsBest(win, s, v, n, Best(prevLength, start0), b) && (n < |v| ==> b.len >= 128);
    if p in v {
      var i :| 0 <= i < |v| && v[i] == p;
      if i < n && k > prevLength {
        BestCovers(win, s, v, n, Best(prevLength, start0), b, i, k);
        KeptEnough(s, lookahead, b, len, p, k);
      } else if i >= n {
        StoppedEarly(s, lookahead, b, len, k);
      }
    } else {
      CrowdedNow(win, data, base, s + lookahead, s, p, v);
    }
  }

  lemma FindsWell(win: seq<byte>, prev: seq<ush>, head: seq<ush>, s: nat, lookahead: nat, data: seq<byte>, base: nat,
                  prevLength: nat, start0: nat, len: nat, start: nat)
    requires Chained(win, prev, head, s + 1) && s < WINDOW_SIZE && Filled(win, data, base, s + lookahead)
    requires |win| == FULL && |prev| == WSIZE && Finds(win, prev, s, lookahead, prevLength, start0, len, start)
    requires prevLength < 16 && (base > 0 ==> s >= 32506) && (lookahead >= 258 || base + s + lookahead == |data|)
    ensures NothingMissed(data, base + s, prevLength, len)
  {
    hide Chained, Filled, Same, Kept, Crowded, Hash, Slot, Sought;
    var at := base + s;
    forall q: nat, k: nat | 0 < q < at < q + 32506 && 3 <= k <= 258 && Same(data, q, at, k)
      ensures k <= prevLength || k <= len || len >= 128 || (k == 3 && (at - q > 4096 || at + 3 == |data|))
              || Crowded(data, q, at, if prevLength >= 8 then 32 else 128)
    {
      InReach(win, prev, head, s, lookahead, data, base, q, k);
      var b: Best :| Sought(win, prev, s, prev[Slot(s)], prevLength, start0, b) && start == b.start && Kept(s, lookahead, b, len);
      SoughtWell(win, prev, head, s, lookahead, data, base, prevLength, start0, b, len, q - base, k);
    }
  }

  /** A repetition within reach is in the window, so the search is made. */
  lemma InReach(win: seq<byte>, prev: seq<ush>, head: seq<ush>, s: nat, lookahead: nat, data: seq<byte>, base: nat, q: nat, k: nat)
    requires Chained(win, prev, head, s + 1) && s < WINDOW_SIZE && Filled(win, data, base, s + lookahead)
    requires (base > 0 ==> s >= 32506) && (lookahead >= 258 || base + s + lookahead == |data|)
    requires 0 < q < base + s < q + 32506 && 3 <= k <= 258 && Same(data, q, base + s, k)
    ensures base < q && k <= lookahead && |prev| == WSIZE && |win| == FULL
    ensures prev[Slot(s)] != 0 && s - prev[Slot(s)] <= 32506
    ensures lookahead == 3 ==> base + s + 3 == |data|
  {
    hide Chained, Hash, Slot;
    SameInWindow(win, data, base, s + lookahead, q - base, s, k);
    OnItsChain(win, prev, head, s, q - base);
    Sizes3(win, prev, head, s + 1);
  }
}
