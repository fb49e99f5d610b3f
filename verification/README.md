# BusyBox archival tools: gzip, dpkg and cpio

A model of three programs of BusyBox 1.35.0, with proofs that they do what they are for.

- `gzip.c`: the whole compressor. The input is read in pieces of any size into a sliding window; strings are chained by
  their hashes; matches are found and evaluated lazily; the resulting tokens are buffered, counted and sent as stored, fixed
  or dynamic blocks through Huffman trees whose lengths are limited; bits are packed from the least significant end; a
  header and a trailer of RFC 1952 go around it. The reference on the other side is a decoder written from RFC 1951
  (`Rfc1951.dfy`), which knows nothing of the encoder. The theorem at the top is `Gzip.Zip`: whatever the input and the
  sizes of its pieces, the decoder gives the input back.
- `dpkg.c`: the hash tables that intern names and index packages, the Debian order of versions, the splitting of
  dependency lines, and the dependency phase of `check_deps`.
- `cpio.c`: the making of an archive, in which hard links wait until the end of the input.

The model keeps the programs' shape. What they update in place are arrays and fields of classes (`BitWriter`, `TreeSpace`,
`TokenBuffer`, `Coder`, `LzWindow`, `Deflater`, `NameTable`, `PackageTable`, `StatusTable`, `Archiver`), changed by methods
with loops; each method is proved against functions and predicates about which the lemmas then speak. The constants are
those of the build at hand: a window of 32 KiB, 13 hash bits, at most 8191 tokens in a block, `max_lazy_match` 16,
`nice_match` 128, codes of up to 15 and 7 bits, hash tables of 16381, 10007 and 8191 slots.

Files, from the bottom up:

- bits and bytes: `Bits`, `BitWriter`, `Rfc1951`, `PrefixCodes`
- Huffman's construction as mathematics: `Sums`, `Huffman`, `KraftInequality`
- `build_tree`: `Heaps`, `Trees`, `InitialHeap`, `TreeBuilding`, `TreeGrowth`, `TreeLoop`, `TreeShape`, `BitLengths`,
  `FirstPass`, `TreeLengths`, `CodeSpace`, `AfterPass`, `Repair`, `Reassign`, `CodeLengths`, `CanonicalCodes`, `ForcedCodes`,
  `TreeBuilder`, `Optimality`
- blocks: `RunLengths`, `RunLaws`, `TreeHeaders`, `TreeScans`, `DynamicHeaders`, `BlTrees`, `Tokens`, `TokenPrices`, `FixedCodes`,
  `CtInit`, `TokenBuffers`, `CompressBlock`, `Blocks`, `BlockTrees`, `BlockSizes`, `FlushBlock`, `BlockChoice`,
  `BlockChoiceExample`, `Coder`
- matching: `Hashing`, `Chains`, `LongestMatch`, `Windows`, `MatchSearch`, `LzWindow`, `Emission`, `LazyRun`, `Deflate`, and
  `Gzip` on top
- dpkg: `Versions`, `VersionOrder`, `CStrings`, `Probing`, `NameTables`, `PackageTables`, `Statuses`, `Dependencies`,
  `DependencyLines`, `PackageFields`, `CheckDeps`, `ControlFiles`
- cpio: `CpioFormat`, `Cpio`, `CpioResults`

`dafny verify dfyconfig.toml` checks the project.

## Model

| member | source | states |
|---|---|---|
| Gzip.Zip | downloads/busybox-1.35.0/archival/gzip.c:2064-2103 | for every input and every way of reading it in pieces, the file written has the ten bytes of the header, a DEFLATE stream that the RFC 1951 decoder turns back into exactly the input, less than a byte of padding, and eight bytes that are read, low byte first, as the checksum and the length modulo 2^32; the blocks hold the tokens of LazyRuns.LazyTokens, unless they are stored |
| Gzip.FileDecodes | downloads/busybox-1.35.0/archival/gzip.c:2064-2103 | bytes whose bits hold the header and then a complete sequence of blocks for the input are a gzip file for it, whatever trailer follows |
| Deflates.Deflater.Deflate | downloads/busybox-1.35.0/archival/gzip.c:1810-1912 | lazy evaluation to the end of the input: the stream keeps what was before, then holds blocks whose meaning is the whole input, only the last of them final, and the last byte is full; the tokens of the blocks are those of turns that follow one another from the beginning to the end, each with a search as in MatchSearches.FindsWell; the input was counted modulo 2^32 |
| Deflates.Deflater.Turn | downloads/busybox-1.35.0/archival/gzip.c:1825-1905 | one turn keeps that everything before the pending byte has been emitted and that a pending match repeats earlier input, across window slides and block ends, and consumes input; it adds one step to the run: the pending match becomes a token, with its length and distance, if and only if it has 3 bytes or more and nothing longer is found at the next position; the pending byte becomes a literal if and only if there was no such match or a longer one is found; what is found is pending then |
| Emissions.WrittenMatch | downloads/busybox-1.35.0/archival/gzip.c:1846-1867 | a match token for a stretch that repeats earlier input, overlapping itself or not, carries the emitted input on by exactly its length |
| Emissions.CompleteInflates | downloads/busybox-1.35.0/archival/gzip.c:1910-1912 | complete sequences of blocks are turned back into the input by the RFC 1951 decoder, whatever bits follow |
| Hashing.ThirdByte | downloads/busybox-1.35.0/archival/gzip.c:752-765 | two strings with the same hash and two equal bytes have an equal third one, so skipping its comparison loses nothing |
| Hashing.HashStep | downloads/busybox-1.35.0/archival/gzip.c:1774-1774 | the rolling hash is that of the last three bytes alone: older ones are shifted out |
| Chains.Insert | downloads/busybox-1.35.0/archival/gzip.c:1803-1807 | INSERT_STRING keeps that every head and every live chain entry is an earlier position whose three bytes have the hash of the chain, and that every position inserted in the last 32 KiB, but for position 0 of the window, is reached from the head of its hash |
| Chains.Slide | downloads/busybox-1.35.0/archival/gzip.c:651-683 | moving the window down by half, with all table entries, keeps the chains, and all positions on them that are still in the window, but for the new position 0 |
| LzWindows.LzWindow.FillWindow | downloads/busybox-1.35.0/archival/gzip.c:641-689 | the window holds the input up to the lookahead and its chains are right, before and after; a position in the input and the distance to match_start stay the same; the end of the input is noticed exactly when nothing more comes |
| LongestMatches.LongestMatch | downloads/busybox-1.35.0/archival/gzip.c:710-784 | the quick rejects, the unrolled comparison and the chain limit give the match that the plain search over the visited entries gives, and all of its bytes agree |
| LongestMatches.BestIsMaximum | downloads/busybox-1.35.0/archival/gzip.c:728-784 | that plain search returns the longest match, capped at 258, among the entries visited and the previous length, at the nearest entry that reaches it, and stops early only for 128 bytes or more |
| LzWindows.LzWindow.FindMatch | downloads/busybox-1.35.0/archival/gzip.c:1827-1849 | where the head of the chain is there, the previous match has fewer than 16 bytes and the distance is at most 32506, match_length and match_start are those of the best of the entries visited, at most 128 or, from 8 bytes on, 32, some passed over only for 128 bytes or more; the length is clipped to the lookahead, and one of 3 becomes 2 beyond a distance of 4096; otherwise the length is 2 and match_start stays; a match reported repeats the input, whatever stands in the window behind it |
| MatchSearches.FindsWell | downloads/busybox-1.35.0/archival/gzip.c:1803-1849 | on the input alone: no repetition of 3 to 258 bytes that begins less than 32506 bytes back, except at position 0, is longer than what is found and the previous match, unless 128 bytes are found, or it has 3 bytes and is more than 4096 bytes away or at the very end, or 128 (32) nearer positions have the same hash |
| LazyRuns.RunMore | downloads/busybox-1.35.0/archival/gzip.c:1851-1897 | a turn as it is expected, with a search that misses nothing, carries the run on by the tokens that it emits |
| BitWriters.BitWriter.SendBits | downloads/busybox-1.35.0/archival/gzip.c:541-573 | what has been sent grows by exactly the bits of the value, least significant first; the accumulator has fewer than 32 bits, none above them, and the output buffer is never left full |
| BitWriters.BitWriter.Windup | downloads/busybox-1.35.0/archival/gzip.c:596-609 | the stream becomes whole bytes, padded with zero bits |
| BitWriters.BitWriter.CopyBlock | downloads/busybox-1.35.0/archival/gzip.c:615-633 | a stored block is written as padding, length, complemented length and bytes |
| Heaps.PqDownHeap | downloads/busybox-1.35.0/archival/gzip.c:1127-1150 | restores the heap order from node k on by exchanging entries |
| TreeBuilding.PqRemove | downloads/busybox-1.35.0/archival/gzip.c:1305-1310 | takes out a node than which no other one in the heap has a lower frequency, nor the same one and less depth, and the rest is a heap |
| TreeLoop.CombineAll | downloads/busybox-1.35.0/archival/gzip.c:1354-1383 | combining the two least frequent nodes until one is left builds a tree that costs what Huffman's construction costs |
| KraftInequality.PrefixCodesFit | downloads/busybox-1.35.0/archival/gzip.c:1290-1300 | the words of any prefix code satisfy Kraft's inequality |
| KraftInequality.HuffmanIsOptimal | downloads/busybox-1.35.0/archival/gzip.c:1290-1300 | no prefix code for given weights is cheaper than Huffman's construction |
| AfterPass.CutSpace | downloads/busybox-1.35.0/archival/gzip.c:1172-1202 | after the first pass of gen_bitlen, the lengths take too much code space by exactly half a unit of the greatest length for each node cut |
| Repair.RepairCounts | downloads/busybox-1.35.0/archival/gzip.c:1206-1220 | the repair loop ends, always finds a shorter length to split, keeps the number of codes, fills the code space exactly and leaves codes of the greatest length; each turn takes the greatest length below the top that some code has |
| Reassign.ReassignAll | downloads/busybox-1.35.0/archival/gzip.c:1222-1243 | the lengths given out again occur as often as bl_count says, fall along the heap's sorted end, and the block length follows them |
| Reassign.FallsForAll | downloads/busybox-1.35.0/archival/gzip.c:1222-1243 | lengths that fall along the sorted end are no greater for a symbol than for a rarer one |
| CodeLengths.GenBitlen | downloads/busybox-1.35.0/archival/gzip.c:1161-1244 | every symbol that occurs has a length between 1 and max_length, others none; the lengths fill the code space exactly and bl_count is their histogram; opt_len and static_len grow by exactly their cost; the lengths come from a Huffman tree as in TreeBuilder.BuildTree |
| TreeBuilder.BuildTree | downloads/busybox-1.35.0/archival/gzip.c:1312-1394 | lengths as in CodeLengths.GenBitlen and canonical codes for them; made-up codes change no total, and are 0 and 1 where no symbol occurs, and where only one does, the one behind it if that is 1 or 2, otherwise 0; there is a Huffman tree for the frequencies whose depths are the lengths if and only if none is greater than max_length, and this is so whenever no length reaches max_length; in any case no symbol gets a greater length than a rarer one, and there are as many codes of each length as the repair makes of the depths cut at max_length |
| TreeShape.LighterIsDeeper | downloads/busybox-1.35.0/archival/gzip.c:1354-1383 | in a tree whose nodes were taken out lightest first, of two nodes the lighter one lies as deep as the other or deeper |
| Optimality.BuiltIsOptimal | downloads/busybox-1.35.0/archival/gzip.c:1312-1394 | if no symbol lies deeper in that tree than max_length, in particular if no length reaches max_length, the sum of Freq*Len is at most that of every prefix code on the same symbols |
| Optimality.TwoUsedUnchanged | downloads/busybox-1.35.0/archival/gzip.c:1331-1347 | codes are made up only where fewer than two symbols occur |
| CanonicalCodes.GenCodes | downloads/busybox-1.35.0/archival/gzip.c:1254-1288 | each symbol with a length gets the code of section 3.2.2 of RFC 1951, its bits reversed for the writer |
| CanonicalCodes.BiReverse | downloads/busybox-1.35.0/archival/gzip.c:581-590 | sent from the least significant end, the reversed code comes out most significant bit first |
| PrefixCodes.CodesPrefixFree | downloads/busybox-1.35.0/archival/gzip.c:1246-1288 | of lengths that fit the code space, no symbol's canonical code begins with that of another one |
| PrefixCodes.SymbolDecodes | downloads/busybox-1.35.0/archival/gzip.c:1246-1288 | the decoder reads each symbol's code back as that symbol |
| RunLengths.ItemsMean | downloads/busybox-1.35.0/archival/gzip.c:1402-1505 | for every sequence of lengths, the run-length items of scan_tree and send_tree mean exactly these lengths, and every repeat count fits its bits |
| RunLaws.RunByRun | downloads/busybox-1.35.0/archival/gzip.c:1402-1505 | the items are those of the runs of equal lengths, one after the other: zeros in groups of 138, other lengths once and then in groups of 6, what is left in one group of at least 3 or one by one |
| Rfc1951.LengthRule | downloads/busybox-1.35.0/archival/gzip.c:883-886 | the extra bits of the length codes, which the encoder and the decoder look up in one table, follow the rule of section 3.2.5 of RFC 1951 |
| Rfc1951.DistRule | downloads/busybox-1.35.0/archival/gzip.c:889-892 | so do the extra bits of the distance codes |
| Rfc1951.OrderRule | downloads/busybox-1.35.0/archival/gzip.c:899-900 | bl_order is the order of section 3.2.7 of RFC 1951 |
| TreeScans.ScanTree | downloads/busybox-1.35.0/archival/gzip.c:1402-1448 | the frequencies of bl_tree grow by how often each symbol occurs among these items |
| TreeScans.SendTree | downloads/busybox-1.35.0/archival/gzip.c:1454-1505 | exactly these items are sent |
| DynamicHeaders.HeaderDecodes | downloads/busybox-1.35.0/archival/gzip.c:1545-1567 | the decoder reads from a dynamic block's header exactly the lengths of both trees |
| BlTrees.BuildBlTree | downloads/busybox-1.35.0/archival/gzip.c:1511-1538 | the bit length tree is built for the symbols counted, the last length sent is the last that is not zero, and opt_len grows by exactly the bits of the header |
| BlTrees.SendAllTrees | downloads/busybox-1.35.0/archival/gzip.c:1545-1567 | the header's bits are sent |
| Tokens.BodyDecodes | downloads/busybox-1.35.0/archival/gzip.c:1630-1671 | the decoder expands the body of a block to what its tokens mean |
| CtInit.InitDists | downloads/busybox-1.35.0/archival/gzip.c:1996-2013 | the two-part distance table gives each distance its symbol of RFC 1951, and each symbol its base |
| TokenBuffers.TokenBuffer.Add | downloads/busybox-1.35.0/archival/gzip.c:1573-1600 | literals, distances and flag bytes in three buffers stand for the sequence of tokens, to which one is added |
| Coders.Coder.CtTally | downloads/busybox-1.35.0/archival/gzip.c:1573-1623 | the token is recorded, both trees' frequencies stay those of the tokens, and the block is reported to be at its end if and only if there are 8191 tokens, or their number is a multiple of 4096, fewer than half of them are matches, and at 8 bits each, with 5 and the extra bits for each distance, they take less than half of the input's bytes |
| CompressBlocks.CompressBlock | downloads/busybox-1.35.0/archival/gzip.c:1630-1671 | exactly the bits of the buffered tokens and of the end-of-block code are sent |
| Coders.Coder.BuildTrees | downloads/busybox-1.35.0/archival/gzip.c:1690-1705 | after the trees are built, opt_len and static_len are exactly the sizes in bits of the dynamic and the fixed block, and the trees are those of build_tree for the block's tokens |
| BlockSizes.ExactNow | downloads/busybox-1.35.0/archival/gzip.c:1507-1567 | opt_len is the number of bits of the header and the body of the dynamic block, static_len that of the fixed one, and nothing is lost to 32-bit arithmetic |
| BlockChoices.StoredFits | downloads/busybox-1.35.0/archival/gzip.c:1703-1741 | of fewer than LIT_BUFSIZE tokens, each of at most 31 bits in fixed codes, a block is stored only if it has at most 65535 bytes |
| Coders.Coder.FlushBlock | downloads/busybox-1.35.0/archival/gzip.c:1680-1766 | appends one block that means the tokens tallied since the last one, or has the window's bytes for them; it is picked by size in whole bytes among the stored bytes, the fixed codes and the trees of build_tree, and is the shortest of these exactly under the condition of BlockChoices.Judged, never more than 17 bits longer; the final bit is set and the last byte filled exactly at the end; a stored block has at most 65535 bytes |
| BlockChoices.FlushedNow | downloads/busybox-1.35.0/archival/gzip.c:1703-1755 | opt_len and static_len, which the test sees, are the real numbers of bits of the two blocks, so that the two rows below hold of the block sent |
| BlockChoices.StoredJudged | downloads/busybox-1.35.0/archival/gzip.c:1703-1733 | a block that is stored is the shortest of the three forms if and only if padding, lengths and bytes take no more bits than either of the others; the test counts neither the padding nor the rounding, so it may be up to 17 bits longer than another form, and never more |
| BlockChoices.CodedJudged | downloads/busybox-1.35.0/archival/gzip.c:1703-1745 | a block that is not stored is the shortest form unless it is the fixed one and the dynamic one is shorter by less than the rounding to bytes shows; it is never more than 7 bits longer than another form |
| MissedChoices.StoredTooLong | downloads/busybox-1.35.0/archival/gzip.c:1703-1733 | for fifteen different bytes from 0x90 on, whatever the trees of build_tree are, the block is stored although the fixed one is shorter: by 15 bits at the beginning of a file, and by 17 at worst |
| Blocks.BlockDecodes | downloads/busybox-1.35.0/archival/gzip.c:1680-1766 | a decoder at the beginning of a block of any kind gives its meaning and its end |
| Blocks.StreamDecodes | downloads/busybox-1.35.0/archival/gzip.c:1680-1766 | a decoder at the first of a sequence of blocks, only the last of them final, gives the meaning of all |
| Probing.EverySlot | downloads/busybox-1.35.0/archival/dpkg.c:169-206 | in a table of prime size, the first probes, one for each slot, visit every slot exactly once |
| Probing.ThePrimes | downloads/busybox-1.35.0/archival/dpkg.c:76-116 | the three table sizes are primes |
| NameTables.SearchEnds | downloads/busybox-1.35.0/archival/dpkg.c:189-206 | the probe loop ends if and only if the key or a free slot exists anywhere in the table |
| NameTables.NameTable.Search | downloads/busybox-1.35.0/archival/dpkg.c:189-206 | the key is at the index returned, nothing else has changed, no string is stored twice, and every string is on its own probe path with no empty slot before it |
| NameTables.SameIndexSameKey | downloads/busybox-1.35.0/archival/dpkg.c:189-206 | over any run of calls, two keys get the same index if and only if they are equal |
| NameTables.IndexStays | downloads/busybox-1.35.0/archival/dpkg.c:189-206 | an index once given stands for its key ever after |
| PackageTables.PackageTable.Search | downloads/busybox-1.35.0/archival/dpkg.c:356-377 | ends at the first slot on the probe path that is empty or has a package of the name that passes the version test, and it is empty if and only if no stored package of the name passes |
| PackageTables.PackageTable.Fill | downloads/busybox-1.35.0/archival/dpkg.c:681-688 | a package replaces the first on its probe path that has its name and an equal version, or is added if there is none; all packages stay reachable; without a version nothing happens |
| PackageTables.PackageTable.Provide | downloads/busybox-1.35.0/archival/dpkg.c:1005-1019 | a virtual package is added exactly where nothing stored passes; all packages stay reachable |
| Statuses.StatusTable.Search | downloads/busybox-1.35.0/archival/dpkg.c:211-227 | ends at the status of the name, or at an empty slot if it has none |
| Statuses.WordsAgain | downloads/busybox-1.35.0/archival/dpkg.c:692-739 | three words put together by set_status are read back by get_status if and only if the middle one is not empty, or the last one is |
| Statuses.SetThenGet | downloads/busybox-1.35.0/archival/dpkg.c:714-739 | after set_status, get_status gives the new word and the other two as before, if and only if there is a second word then, or no third |
| Statuses.StatusesStay | downloads/busybox-1.35.0/archival/dpkg.c:211-227 | a package stored where the search for its name ended takes no status from another name |
| Versions.VersionComparePart | downloads/busybox-1.35.0/archival/dpkg.c:240-277 | the pointer walk has the sign of comparing, entry by entry and with zeros behind the end, the orders of the non-digits and the values of the numbers; what orders and values mean is tied down on whole versions by the rows on VersionOrder |
| Versions.VersionReflexive | downloads/busybox-1.35.0/archival/dpkg.c:283-334 | every version is equal to itself, so with the two rows below the order is a total preorder |
| Versions.VersionTransitive | downloads/busybox-1.35.0/archival/dpkg.c:283-334 | the order of versions is transitive |
| Versions.VersionOpposite | downloads/busybox-1.35.0/archival/dpkg.c:283-334 | exchanging two versions exchanges the verdict |
| Versions.TildeFirst | downloads/busybox-1.35.0/archival/dpkg.c:229-277 | a tilde sorts before everything, even before the end of a part |
| Versions.MissingRevision | downloads/busybox-1.35.0/archival/dpkg.c:308-334 | a version is the same with the revision 0 added if and only if it has no revision; only a hyphen behind the epoch counts |
| Versions.NonDigitDecides | downloads/busybox-1.35.0/archival/dpkg.c:229-277 | where one string ends and another goes on with a non-digit, that character's order decides |
| Versions.TestVersion | downloads/busybox-1.35.0/archival/dpkg.c:336-354 | each operator tests the relation it names |
| VersionOrder.CharactersSort | downloads/busybox-1.35.0/archival/dpkg.c:229-277 | behind any common beginning, two versions whose next characters are no digits are sorted by these: the tilde, then letters by their codes, then all others by their codes |
| VersionOrder.EndSorts | downloads/busybox-1.35.0/archival/dpkg.c:229-277 | only a tilde sorts before the end |
| VersionOrder.DigitSorts | downloads/busybox-1.35.0/archival/dpkg.c:229-277 | where no number is under way, a digit sorts before every other character but the tilde |
| VersionOrder.MoreDigits | downloads/busybox-1.35.0/archival/dpkg.c:256-273 | behind a common beginning, of two numbers the one with more digits is the greater, if it does not begin with a zero |
| VersionOrder.FirstDigitDecides | downloads/busybox-1.35.0/archival/dpkg.c:256-273 | of two numbers with as many digits, the first digit that differs decides |
| VersionOrder.ZerosDoNotCount | downloads/busybox-1.35.0/archival/dpkg.c:258-263 | zeros in front of a number change nothing |
| VersionOrder.EpochMoreDigits | downloads/busybox-1.35.0/archival/dpkg.c:283-306 | the epoch decides before anything else: here the one with more digits, up to nine, is later |
| VersionOrder.EpochFirstDigit | downloads/busybox-1.35.0/archival/dpkg.c:283-306 | the same where the epochs have as many digits |
| VersionOrder.NoEpoch | downloads/busybox-1.35.0/archival/dpkg.c:283-306 | no epoch is the epoch 0 |
| VersionOrder.EpochMinus | downloads/busybox-1.35.0/archival/dpkg.c:283-306 | an epoch with a minus sign is later than all without one, for it is unsigned then |
| VersionOrder.RevisionsSecond | downloads/busybox-1.35.0/archival/dpkg.c:308-334 | revisions decide if and only if the upstream versions are equal |
| DependencyLines.OperatorsMean | downloads/busybox-1.35.0/archival/dpkg.c:336-354 | the operators =, <<, <=, >> and >=, as they are read from a line, ask for the relations they stand for |
| Dependencies.AddSplitDependencies | downloads/busybox-1.35.0/archival/dpkg.c:429-519 | the edges added are those of the line's clauses, in order: an "or" edge of the next higher type with the number of alternatives, then these, or single edges; an illegal operator is the only error; what a line means is tied down by the next row |
| DependencyLines.LineAgain | downloads/busybox-1.35.0/archival/dpkg.c:429-519 | a line written from clauses, with commas, bars, and operators and versions in parentheses, is read as exactly these clauses |
| DependencyLines.BarSeparates | downloads/busybox-1.35.0/archival/dpkg.c:452-519 | in lines of other kinds than 1 and 3, alternatives separated by bars become single edges |
| PackageFields.FillPackage | downloads/busybox-1.35.0/archival/dpkg.c:618-690 | the fields of a control file make one package, with the edges of all clauses of its dependency fields; it is stored as in PackageTables.PackageTable.Fill, and every stored package keeps the edges of clauses; which fields bring which edges is tied down by the next three rows |
| ControlFiles.FieldBrings | downloads/busybox-1.35.0/archival/dpkg.c:650-675 | lines named Pre-Depends, Depends, Replaces, Provides, Conflicts, Suggests, Recommends and Enhances, written from clauses of the kinds 1, 3, 5, 7, 9, 11, 13 and 15, bring exactly these clauses |
| ControlFiles.FieldBringsNone | downloads/busybox-1.35.0/archival/dpkg.c:642-676 | a field of any other name brings none |
| ControlFiles.ControlFile | downloads/busybox-1.35.0/archival/dpkg.c:618-690 | so a control file makes a package with the values of its last Package and Version fields and the edges of the clauses of all its lines, in order |
| CheckDeps.Database.AddPackage | downloads/busybox-1.35.0/archival/dpkg.c:618-690 | what CheckDeps.Database.CheckDependencies requires of the tables, but for free slots, holds of empty ones and is kept when a package is filled in |
| CheckDeps.Database.AddProvided | downloads/busybox-1.35.0/archival/dpkg.c:1000-1020 | it is kept when a virtual package is added |
| CheckDeps.Database.CheckNode | downloads/busybox-1.35.0/archival/dpkg.c:1096-1174 | the loop over a flat list of edges passes if and only if each clause has an alternative that holds; the skip ends exactly with its clause, and "dependencies corrupt" is never reported |
| CheckDeps.Database.CheckEdge | downloads/busybox-1.35.0/archival/dpkg.c:1115-1145 | the edge passes if and only if some stored package has the name and a passing version, or an edge of kind 7 to the name, and a status whose third word is "installed" for kind 1, or whose first word is "install" for kind 3 |
| CheckDeps.Database.CheckDependencies | downloads/busybox-1.35.0/archival/dpkg.c:1062-1178 | the phase passes if and only if, for every stored package with a status whose first word is "install", every clause of kind 1 or 3 has an alternative that passes as in CheckDeps.Database.CheckEdge |
| ControlFiles.StatusByWords | downloads/busybox-1.35.0/archival/dpkg.c:958-977 | of a status of three words, an edge of kind 1 asks whether the last is "installed", an edge of kind 3 whether the first is "install" |
| ControlFiles.EdgeByWords | downloads/busybox-1.35.0/archival/dpkg.c:1115-1145 | so these words decide about an edge that only one package has to offer for |
| ControlFiles.FieldsDecide | downloads/busybox-1.35.0/archival/dpkg.c:1062-1178 | a wanted package passes if and only if every clause of its Pre-Depends and Depends lines has an alternative that passes; its other lines do not matter |
| ControlFiles.MissingDependency | downloads/busybox-1.35.0/archival/dpkg.c:1062-1178 | a wanted package with the line "Depends: b" fails the phase where no stored package of the name b and none that provides it is wanted |
| Cpio.Archiver.CpioO | downloads/busybox-1.35.0/archival/cpio.c:224-401 | succeeds if and only if every name exists and its data can be read, but for hard links to an inode that came before; then the archive is that of the entries and the trailer, each ending at a multiple of four and all bytes counted; the entries are as in Cpio.Conserves, for the names that the lines stand for, and no entry's name is empty or begins with "./" |
| Cpio.OneName | downloads/busybox-1.35.0/archival/cpio.c:252-257 | a line has only one split into pieces, each a dot and one or more slashes, and a name that neither begins with "./" nor, behind a piece, with a slash; this name is what the line stands for |
| Cpio.DotSlashGone | downloads/busybox-1.35.0/archival/cpio.c:252-261 | "./" with any number of slashes goes, and such a line with nothing behind gives no entry |
| Cpio.AllConserved | downloads/busybox-1.35.0/archival/cpio.c:224-401 | each non-empty name is emitted as often as it was read, the plain ones in order, with mode, owner, link count, time, size, device and data of their files, the owner as set; hard links come last, inode by inode, the inode and the name that came up first at the end, all of one inode with the same header but for the size, and with data only on the last, which is under the first name read; renumbered, the numbers are those from 1 on, one for each plain entry and one for each inode with hard links; otherwise each entry has its own |
| CpioFormat.ReadsBack | downloads/busybox-1.35.0/archival/cpio.c:345-391 | an independent reader of the format gives the entries back if and only if every number fits its field, every size is that of the data and no name but the last is that of the trailer |
| CpioFormat.NumbersThere | downloads/busybox-1.35.0/archival/cpio.c:345-367 | each of the thirteen numbers of a header stands at its place in eight upper-case hexadecimal digits, modulo 2^32 |
| CpioFormat.TextsThere | downloads/busybox-1.35.0/archival/cpio.c:345-391 | so do the magic number, the name, its NUL and the data |
| CpioResults.ArchiveReadsBack | downloads/busybox-1.35.0/archival/cpio.c:224-401 | the reader gives the archive's entries back if and only if all files fit: each name's numbers, its data and the name itself, and the inode numbers as in the next row; the condition is on the files and names that cpio_o is given |
| CpioResults.InodesFitIff | downloads/busybox-1.35.0/archival/cpio.c:285-296 | the inode numbers in the archive fit their fields if and only if the files' own do or, renumbered, the names that are no hard links and the inodes that the others lead to are fewer than 2^32 |
| CpioResults.KeptIff | downloads/busybox-1.35.0/archival/cpio.c:262-296 | a hard-linked file with data has its data in the archive if and only if the first name read for its inode number is a name of the same file on the same device, and has data |
| CpioResults.SecondDeviceLost | downloads/busybox-1.35.0/archival/cpio.c:262-296 | of two files on different devices with the same inode number, the second one's data is in no entry |

Where the code and its comments differ, the model follows the code: a made-up code can be 2 as well as 0 or 1
(gzip.c:1350); near the end of the input strstart may come closer to the end of the window than gzip.c:736 asserts, and the
clip at gzip.c:1840 keeps the result right; and flush_block, which is to determine the best encoding (gzip.c:1702), sends
the shortest form only under the conditions in the rows on `BlockChoices`.

`Cpio.Conserves`, `TreeBuilder.Built`, `CodeLengths.FromTree`, `AfterPass.TreeFor`, `BlockChoices.Judged`,
`Emissions.Written`, `Blocks.Sent`, `MatchSearches.Finds`, `MatchSearches.NothingMissed`, `LazyRuns.LazyRun` and
`CheckDeps.Met` are the predicates to read first.

## Left out

- The checksum: `updcrc` calls a library routine, so `Gzip.Zip` takes its result as a parameter.
- Reading and writing files: input is a sequence of bytes that arrives in pieces of arbitrary sizes, output an appended
  sequence; read errors and options are not modelled.
- gzip's compression levels, the 16-bit branches, tracing, and the word-wise stores of `put_32bit`, none of which are
  compiled in; `prev` and `head` are two arrays here, and the two fields of `ct_data` are two arrays of numbers.
- Windows: the bytes of the window behind the input are arbitrary, and so is what an uninitialized array holds. The model's
  window is 258 bytes longer than the program's (gzip.c:326): near the end of the input longest_match reads up to so many
  bytes behind the array, outside what the program has allocated; the model gives these reads arbitrary values.
- TreeBuilder.BuildTree: where a depth exceeds max_length, it is not proved how much more the repaired lengths cost than the
  cheapest code of limited length; the program promises nothing about it.
- Heap depths are kept in bytes, modulo 256; they only break ties.
- Interned strings are compared as strings in `PackageTables`, `Statuses` and `CheckDeps`; `NameTables.SameIndexSameKey` is why
  comparing indices is the same. That `get_status` adds words to the name table is not modelled.
- Probing: the arithmetic of `make_hash` is a parameter; only the two reductions modulo the table size are kept. Searching a
  full table for something absent never ends, so the searches require a free slot or a hit.
- Dependencies.AddSplitDependencies: requires that no clause is empty, which the program does not check; an "or" edge's count
  is unbounded here and has 16 bits there; an alternative with "(" and no operator leaves the operator unset there and is VER_NULL
  here; the version field of an "or" edge is a separate field.
- Versions.VersionCompare: an epoch that does not fit an int is undefined in C; here it is taken modulo 2^32.
- Control files: how read_package_field splits the buffer; a field without a value is empty here, and a package
  without a name has the empty one, where the program takes the string at index 0 of the name table.
- dpkg's conflict phase, unpacking, scripts, status file and control file parsing, which use the same searches.
- Statuses: how the status table is filled.
- Cpio.Archiver.CpioO: a file's state and data do not change while the archive is made, and names are what the file system calls
  them; verbose output, extraction and pass-through are not modelled.
- bzip2, ar, dpkg-deb and the other applets.
