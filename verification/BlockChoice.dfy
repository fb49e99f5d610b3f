/** Which form of a block flush_block sends, and when that is the shortest one. */
module BlockChoices {
  import opened Optionals
  import opened Bits
  import opened Rfc1951
  import opened Heaps
  import opened TreeBuilder
  import opened BlTrees
  import opened DynamicHeaders
  import opened Tokens
  import opened TokenBuffers
  import opened BlockTrees
  import opened Blocks
  import opened BlockSizes

  // ----- the test

  /** Whole bytes for len bits and the three of the header. */
  function ByteSize(len: nat): nat {
    (len + 3 + 7) / 8
  }

  /** Just the bytes that a block of len bits takes, with the three bits before it. */
  lemma ByteSizeIs(len: nat)
    ensures len + 3 <= 8 * ByteSize(len) < len + 11
  {
  }

  /** The test, in whole bytes: `dynamic` and `fixed` are the sizes with trees and without. The size of a stored block
      is taken to be that of its bytes and of two words. */
  ghost predicate Chosen(data: Option<seq<byte>>, ts: seq<Token>, b: Block, tree: Block, dynamic: nat, fixed: nat) {
    match b
    case Stored(bytes) => data == Some(bytes) && |bytes| + 4 <= dynamic && |bytes| + 4 <= fixed
    case Fixed(tokens) => tokens == ts && fixed <= dynamic && (data.Some? ==> fixed < |data.value| + 4)
    case Dynamic(_, _, _, _, _) => b == tree && dynamic < fixed && (data.Some? ==> dynamic < |data.value| + 4)
  }

  /** The bits of a block of tokens behind its header. */
  ghost function DataSize(b: Block): nat
    requires BlockOk(b)
  {
    |DataBits(b, 0)|
  }

  /** Those of a stored block of n bytes whose header begins at pos: padding, two words and the bytes. */
  function StoredSize(n: nat, pos: nat): nat {
    ByteBoundary(pos + 3) - (pos + 3) + 32 + 8 * n
  }

  // ----- the forms that there are

  /** The lengths that build_tree gives for the tokens, and then for the lengths themselves. */
  ghost predicate TreesFor(ts: seq<Token>, llens: seq<nat>, dlens: seq<nat>, clens: seq<nat>, n: nat) {
    && (exists f :: LitFreqs(f, ts) && HuffmanCoded(f, llens, 286, 15))
    && (exists f :: DistFreqs(f, ts) && HuffmanCoded(f, dlens, 30, 15))
    && ClensFor(llens, dlens, clens) && 1 <= n <= 19 == |clens| && Ranked(clens, n - 1) != 0
  }

  lemma TreesNow(lf: seq<ush>, df: seq<ush>, ts: seq<Token>, llens: seq<nat>, dlens: seq<nat>, clens: seq<nat>, n: nat)
    requires LitFreqs(lf, ts) && HuffmanCoded(lf, llens, 286, 15)
    requires DistFreqs(df, ts) && HuffmanCoded(df, dlens, 30, 15) && ClensFor(llens, dlens, clens)
    requires 1 <= n <= 19 == |clens| && Ranked(clens, n - 1) != 0
    ensures TreesFor(ts, llens, dlens, clens, n)
  {
    hide LitFreqs, DistFreqs, HuffmanCoded, ClensFor;
  }

  /** The block of the tokens with the trees that build_tree gives for them. */
  ghost predicate TreeBlock(tree: Block, ts: seq<Token>) {
    tree.Dynamic? && tree.tokens == ts && BlockOk(tree) && TreesFor(ts, tree.llens, tree.dlens, tree.clens, tree.n)
  }

  /** c is a block for the tokens: with fixed codes, with those trees, or with the bytes themselves if they are there
      and a stored block can hold them. */
  ghost predicate Form(data: Option<seq<byte>>, ts: seq<Token>, tree: Block, c: Block) {
    BlockOk(c) && (c == Fixed(ts) || c == tree || (data.Some? && c == Stored(data.value)))
  }

  /** All bits of a block that begins at pos. */
  ghost function Length(b: Block, pos: nat): nat
    requires BlockOk(b)
  {
    |BlockBits(b, true, pos)|
  }

  /** No form is shorter than b by more than slack bits. */
  ghost predicate Within(data: Option<seq<byte>>, ts: seq<Token>, tree: Block, b: Block, pos: nat, slack: nat)
    requires BlockOk(b)
  {
    forall c :: Form(data, ts, tree, c) ==> Length(b, pos) <= Length(c, pos) + slack
  }

  ghost predicate Shortest(data: Option<seq<byte>>, ts: seq<Token>, tree: Block, b: Block, pos: nat)
    requires BlockOk(b)
  {
    Within(data, ts, tree, b, pos, 0)
  }

  lemma LengthIs(b: Block, pos: nat)
    requires BlockOk(b)
    ensures b.Stored? ==> Length(b, pos) == 3 + StoredSize(|b.data|, pos)
    ensures !b.Stored? ==> Length(b, pos) == 3 + DataSize(b)
  {
    hide HeaderBits, BodyBits, Announceable, CanSendAll, FixedLens, FixedDistLens, LsbBits, BytesBits;
  }

  // ----- when it is the shortest

  function Less(a: nat, b: nat): (r: nat)
    ensures r <= a && r <= b && (r == a || r == b)
  {
    if a <= b then a else b
  }

  /** The test goes wrong: the bytes are stored though their padding makes them longer than the shorter of the forms
      with codes, of dynamic and fixed bits; or they are not, and the dynamic block is shorter by less than the
      rounding shows. */
  predicate Misjudged(data: Option<seq<byte>>, pos: nat, dynamic: nat, fixed: nat) {
    var least := Less(dynamic, fixed);
    if data.Some? && |data.value| + 4 <= ByteSize(least) then StoredSize(|data.value|, pos) > least
    else dynamic < fixed && ByteSize(dynamic) == ByteSize(fixed)
  }

  /** The test's verdict in bits. */
  lemma TestInBits(n: nat, pos: nat, dynamic: nat, fixed: nat)
    ensures n + 4 <= ByteSize(dynamic) && n + 4 <= ByteSize(fixed) <==> n + 4 <= ByteSize(Less(dynamic, fixed))
    ensures n + 4 <= ByteSize(dynamic) ==> StoredSize(n, pos) <= dynamic + 17
    ensures ByteSize(dynamic) < n + 4 ==> dynamic < StoredSize(n, pos)
    ensures ByteSize(fixed) <= ByteSize(dynamic) ==> fixed <= dynamic + 7
    ensures ByteSize(dynamic) < ByteSize(fixed) ==> dynamic < fixed
  {
  }

  /** The block sent is the shortest form exactly if the test does not go wrong, and never by more than 17 bits longer
      than another one, or by more than seven if it is not stored. */
  ghost predicate Judged(data: Option<seq<byte>>, ts: seq<Token>, tree: Block, b: Block, pos: nat) {
    && BlockOk(b) && BlockOk(tree) && BlockOk(Fixed(ts))
    && (Shortest(data, ts, tree, b, pos) <==> !Misjudged(data, pos, DataSize(tree), DataSize(Fixed(ts))))
    && Within(data, ts, tree, b, pos, if b.Stored? then 17 else 7)
  }

  lemma StoredJudged(data: Option<seq<byte>>, ts: seq<Token>, tree: Block, b: Block, pos: nat)
    requires BlockOk(b) && BlockOk(tree) && BlockOk(Fixed(ts)) && b.Stored? && !tree.Stored?
    requires Chosen(data, ts, b, tree, ByteSize(DataSize(tree)), ByteSize(DataSize(Fixed(ts))))
    ensures Judged(data, ts, tree, b, pos)
  {
    hide BlockOk, ByteSize, StoredSize, Length, DataSize, Less;
    var n, dynamic, fixed := |b.data|, DataSize(tree), DataSize(Fixed(ts));
    LengthIs(b, pos);
    LengthIs(tree, pos);
    LengthIs(Fixed(ts), pos);
    TestInBits(n, pos, dynamic, fixed);
    TestInBits(n, pos, fixed, dynamic);
    assert Less(dynamic, fixed) == dynamic || Less(dynamic, fixed) == fixed;
    assert Form(data, ts, tree, tree) && Form(data, ts, tree, Fixed(ts));
  }

  lemma CodedJudged(data: Option<seq<byte>>, ts: seq<Token>, tree: Block, b: Block, pos: nat)
    requires BlockOk(b) && BlockOk(tree) && BlockOk(Fixed(ts)) && !b.Stored? && !tree.Stored?
    requires Chosen(data, ts, b, tree, ByteSize(DataSize(tree)), ByteSize(DataSize(Fixed(ts))))
    ensures Judged(data, ts, tree, b, pos)
  {
    hide BlockOk, ByteSize, StoredSize, Length, DataSize, Less;
    var n, dynamic, fixed := if data.Some? then |data.value| else 0, DataSize(tree), DataSize(Fixed(ts));
    LengthIs(b, pos);
    LengthIs(tree, pos);
    LengthIs(Fixed(ts), pos);
    TestInBits(n, pos, dynamic, fixed);
    TestInBits(n, pos, fixed, dynamic);
    if data.Some? && BlockOk(Stored(data.value)) { LengthIs(Stored(data.value), pos); }
    assert Form(data, ts, tree, tree) && Form(data, ts, tree, Fixed(ts));
  }

  // ----- what flush_block achieves

  /** b is chosen between the stored bytes, the fixed codes, and the trees that build_tree gives. */
  ghost predicate Selected(data: Option<seq<byte>>, ts: seq<Token>, b: Block, pos: nat) {
    exists tree: Block :: SelectedWith(data, ts, b, pos, tree)
  }

  ghost predicate SelectedWith(data: Option<seq<byte>>, ts: seq<Token>, b: Block, pos: nat, tree: Block) {
    && BlockOk(Fixed(ts)) && TreeBlock(tree, ts)
    && Chosen(data, ts, b, tree, ByteSize(DataSize(tree)), ByteSize(DataSize(Fixed(ts))))
    && Judged(data, ts, tree, b, pos)
  }

  /** Of fewer than LIT_BUFSIZE tokens, a block is stored only if its length fits the 16 bits that it gets. */
  lemma StoredFits(data: Option<seq<byte>>, ts: seq<Token>, b: Block, tree: Block)
    requires TreeBlock(tree, ts) && BlockOk(Fixed(ts)) && |ts| < LIT_BUFSIZE && b.Stored?
    requires Chosen(data, ts, b, tree, ByteSize(DataSize(tree)), ByteSize(DataSize(Fixed(ts))))
    ensures |b.data| <= 0xffff
  {
    hide FixedLens, FixedDistLens, CanSendAll, BodyBits, TreesFor;
    FixedBodySize(ts);
  }

  /** The block sent at pos for the tokens ts: either they, or the stored bytes. */
  ghost predicate Flushed(data: Option<seq<byte>>, ts: seq<Token>, b: Block, pos: nat) {
    && BlockOk(b)
    && (b.Stored? ==> data == Some(b.data))
    && (!b.Stored? ==> b.tokens == ts)
    && Selected(data, ts, b, pos)
  }

  lemma ExactSizes(llens: seq<nat>, dlens: seq<nat>, clens: seq<nat>, n: nat, ts: seq<Token>, opt: nat, sta: nat)
    requires Exact(llens, dlens, clens, n, ts, opt, sta)
    ensures BlockOk(Dynamic(llens, dlens, clens, n, ts)) && DataSize(Dynamic(llens, dlens, clens, n, ts)) == opt
    ensures BlockOk(Fixed(ts)) && DataSize(Fixed(ts)) == sta
  {
    hide Announceable, CanSendAll, HeaderBits, BodyBits, FixedLens, FixedDistLens;
  }

  /** The sizes opt_len and static_len that the test sees are those of the two blocks, so what the test says in their
      terms is true of the blocks. */
  lemma FlushedNow(data: Option<seq<byte>>, ts: seq<Token>, b: Block, llens: seq<nat>, dlens: seq<nat>, clens: seq<nat>,
                   n: nat, opt: nat, sta: nat, pos: nat)
    requires Exact(llens, dlens, clens, n, ts, opt, sta) && TreesFor(ts, llens, dlens, clens, n) && BlockOk(b)
    requires Chosen(data, ts, b, Dynamic(llens, dlens, clens, n, ts), ByteSize(opt), ByteSize(sta))
    ensures Flushed(data, ts, b, pos)
  {
    hide Announceable, CanSendAll, HeaderBits, BodyBits, FixedLens, FixedDistLens, TreesFor, Judged, ByteSize, BlockOk,
      DataSize, Exact;
    var tree := Dynamic(llens, dlens, clens, n, ts);
    ExactSizes(llens, dlens, clens, n, ts, opt, sta);
    if b.Stored? { StoredJudged(data, ts, tree, b, pos); } else { CodedJudged(data, ts, tree, b, pos); }
    assert SelectedWith(data, ts, b, pos, tree);
  }
}
