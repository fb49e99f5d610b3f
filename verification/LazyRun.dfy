/** Lazy evaluation of matches: which tokens a whole run of deflate tallies. */
module LazyRuns {
  import opened Bits
  import opened Tokens
  import opened Blocks
  import opened MatchSearches

  /** One turn of the main loop. The byte before position at may be pending; where len is 3 or more, a match of that
      length that begins with it is, at distance dist. At at, a match of found bytes is found, at distance foundDist. */
  datatype Step = Step(at: nat, avail: bool, len: nat, dist: nat, found: nat, foundDist: nat)

  /** The pending match is taken if what is found is not longer; if there is none, or it is given up, the pending byte
      is a literal. */
  ghost predicate Emits(data: seq<byte>, a: Step, ts: seq<Token>) {
    if a.len >= 3 && a.found <= a.len then a.len <= 258 && a.dist >= 1 && ts == [Match(a.len - 3, a.dist - 1)]
    else if a.avail then 1 <= a.at <= |data| && ts == [Literal(data[a.at - 1])]
    else ts == []
  }

  /** Behind a match that is taken nothing is pending; otherwise the byte at at is, with what has been found there. */
  predicate Next(a: Step, at: nat, avail: bool, len: nat, dist: nat) {
    if a.len >= 3 && a.found <= a.len then at + 1 == a.at + a.len && !avail && len == 2
    else at == a.at + 1 && avail && len == a.found && dist == a.foundDist
  }

  /** How a turn begins that comes after these. */
  predicate Expected(before: seq<Step>, at: nat, avail: bool, len: nat, dist: nat) {
    if before == [] then at == 0 && !avail && len == 2 else Next(before[|before| - 1], at, avail, len, dist)
  }

  /** The turns follow one another from the beginning of the input, each search misses nothing, and these are the
      tokens. */
  ghost predicate LazyRun(data: seq<byte>, steps: seq<Step>, tokens: seq<Token>)
    decreases |steps|
  {
    if steps == [] then tokens == []
    else
      var before, a := steps[..|steps| - 1], steps[|steps| - 1];
      && Expected(before, a.at, a.avail, a.len, a.dist) && a.at < |data|
      && Searched(data, a.at, a.len, a.found, a.foundDist)
      && exists k :: 0 <= k <= |tokens| && LazyRun(data, before, tokens[..k]) && Emits(data, a, tokens[k..])
  }

  lemma RunMore(data: seq<byte>, steps: seq<Step>, tokens: seq<Token>, a: Step, ts: seq<Token>)
    requires LazyRun(data, steps, tokens) && Expected(steps, a.at, a.avail, a.len, a.dist) && a.at < |data|
    requires Searched(data, a.at, a.len, a.found, a.foundDist) && Emits(data, a, ts)
    ensures LazyRun(data, steps + [a], tokens + ts)
  {
    hide Searched, Emits, Expected;
    var all, k := tokens + ts, |tokens|;
    assert (steps + [a])[..|steps|] == steps;
    assert all[..k] == tokens && all[k..] == ts;
  }

  /** The whole input has been gone through; a byte that is still pending is the last literal. */
  ghost predicate LazyTokens(data: seq<byte>, steps: seq<Step>, tokens: seq<Token>) {
    exists avail: bool, len: nat, dist: nat :: Expected(steps, |data|, avail, len, dist) && RunTo(data, steps, avail, tokens)
  }

  ghost predicate RunTo(data: seq<byte>, steps: seq<Step>, avail: bool, tokens: seq<Token>) {
    if avail then
      && data != [] && tokens != [] && tokens[|tokens| - 1] == Literal(data[|data| - 1])
      && LazyRun(data, steps, tokens[..|tokens| - 1])
    else LazyRun(data, steps, tokens)
  }

  lemma RunEnds(data: seq<byte>, steps: seq<Step>, tokens: seq<Token>, avail: bool, len: nat, dist: nat, all: seq<Token>)
    requires LazyRun(data, steps, tokens) && Expected(steps, |data|, avail, len, dist)
    requires if avail then data != [] && all == tokens + [Literal(data[|data| - 1])] else all == tokens
    ensures LazyTokens(data, steps, all)
  {
    hide LazyRun, Expected;
    if avail { assert all[..|all| - 1] == tokens; }
    assert RunTo(data, steps, avail, all);
  }

  // ----- tokens and blocks

  /** All tokens, block by block. */
  function Joined(parts: seq<seq<Token>>): seq<Token> {
    if parts == [] then [] else Joined(parts[..|parts| - 1]) + parts[|parts| - 1]
  }

  lemma JoinedMore(parts: seq<seq<Token>>, ts: seq<Token>)
    ensures Joined(parts + [ts]) == Joined(parts) + ts
  {
    assert (parts + [ts])[..|parts|] == parts;
  }

  /** A block holds its part of the tokens, unless it is stored. */
  ghost predicate BlocksOf(blocks: seq<Block>, parts: seq<seq<Token>>) {
    |blocks| == |parts| && forall k :: 0 <= k < |blocks| ==> blocks[k].Stored? || blocks[k].tokens == parts[k]
  }

  lemma BlocksMore(blocks: seq<Block>, parts: seq<seq<Token>>, b: Block, ts: seq<Token>)
    requires BlocksOf(blocks, parts) && (b.Stored? || b.tokens == ts)
    ensures BlocksOf(blocks + [b], parts + [ts])
  {
  }
}
