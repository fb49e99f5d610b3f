/** Creating a cpio archive: hard links wait until the end, and nothing gets lost. */
module Cpio {
  import opened Optionals
  import opened Versions
  import opened CpioFormat

  /** What the file system tells about a name; content is None if it cannot be read. */
  datatype File = File(st: Stat, content: Option<string>)

  type FileSystem = CString -> Option<File>

  datatype Options = Options(uid: Option<nat>, gid: Option<nat>, ignoreDevno: bool, renumber: bool)

  function FileType(mode: nat): nat {
    mode / 0x1000 % 16
  }

  predicate IsDir(st: Stat) { FileType(st.mode) == 4 }

  predicate IsReg(st: Stat) { FileType(st.mode) == 8 }

  predicate IsLnk(st: Stat) { FileType(st.mode) == 10 }

  // ----- names

  /** A dot and the slashes behind it, at least one. */
  predicate IsPiece(p: string) {
    |p| >= 2 && p[0] == '.' && forall k :: 1 <= k < |p| ==> p[k] == '/'
  }

  /** One piece behind the other, or nothing. */
  ghost predicate ArePieces(p: string)
    decreases |p|
  {
    p == "" || exists n :: 2 <= n <= |p| && IsPiece(p[..n]) && ArePieces(p[n..])
  }

  predicate BeginsDotSlash(s: string) {
    |s| >= 2 && s[0] == '.' && s[1] == '/'
  }

  /** The first i characters of a line are all that is not part of the name. */
  ghost predicate NameAt(line: string, i: nat) {
    && i <= |line| && ArePieces(line[..i]) && !BeginsDotSlash(line[i..])
    && (0 < i < |line| ==> line[i] != '/')
  }

  /** The name that a line stands for: what is behind all pieces at its beginning. */
  ghost predicate StandsFor(line: CString, name: CString) {
    |name| <= |line| && line[|line| - |name|..] == name && NameAt(line, |line| - |name|)
  }

  lemma {:induction false} PiecesMore(p: string, q: string)
    requires ArePieces(p) && IsPiece(q)
    ensures ArePieces(p + q)
    decreases |p|
  {
    if p == "" {
      assert p + q == q && q[..|q|] == q && q[|q|..] == "";
    } else {
      var n :| 2 <= n <= |p| && IsPiece(p[..n]) && ArePieces(p[n..]);
      PiecesMore(p[n..], q);
      assert (p + q)[..n] == p[..n] && (p + q)[n..] == p[n..] + q;
    }
  }

  /** Where the first piece of a line ends that goes on behind it as a name does. */
  lemma FirstPiece(line: string, i: nat) returns (n: nat)
    requires 0 < i <= |line| && ArePieces(line[..i]) && (i < |line| ==> line[i] != '/')
    ensures 2 <= n <= i && ArePieces(line[n..][..i - n])
    ensures line[0] == '.' && (forall k :: 1 <= k < n ==> line[k] == '/') && (n < |line| ==> line[n] != '/')
  {
    n :| 2 <= n <= i && IsPiece(line[..i][..n]) && ArePieces(line[..i][n..]);
    assert line[..i][..n] == line[..n] && line[..i][n..] == line[n..][..i - n];
    assert forall k :: 1 <= k < n ==> line[..n][k] == line[k];
    if n < i {
      var rest := line[n..][..i - n];
      var m :| 2 <= m <= |rest| && IsPiece(rest[..m]) && ArePieces(rest[m..]);
      assert rest[..m][0] == line[n];
    }
  }

  /** A line stands for one name only. */
  lemma {:induction false} OneName(line: string, i: nat, j: nat)
    requires NameAt(line, i) && NameAt(line, j)
    ensures i == j
    decreases |line|
  {
    hide ArePieces;
    assert line[0..] == line;
    var n, m := 0, 0;
    if i > 0 { n := FirstPiece(line, i); }
    if j > 0 { m := FirstPiece(line, j); }
    assert n == m;
    if n > 0 {
      assert line[n..][i - n..] == line[i..] && line[n..][j - n..] == line[j..];
      OneName(line[n..], i - n, j - n);
    }
  }

  method Strip(line: CString) returns (name: CString)
    ensures StandsFor(line, name)
  {
    var i := 0;
    while i + 1 < |line| && line[i] == '.' && line[i + 1] == '/'
      invariant 0 <= i <= |line| && ArePieces(line[..i]) && (0 < i < |line| ==> line[i] != '/')
      decreases |line| - i
    {
      ghost var was := i;
      i := i + 1;
      while i < |line| && line[i] == '/'
        invariant was < i <= |line| && (i == was + 1 ==> line[i] == '/')
        invariant forall k :: was < k < i ==> line[k] == '/'
        decreases |line| - i
      {
        i := i + 1;
      }
      PiecesMore(line[..was], line[was..i]);
      assert line[..was] + line[was..i] == line[..i];
    }
    name := line[i..];
  }

  lemma NameExists(line: CString)
    ensures exists name: CString :: StandsFor(line, name)
  {
    var i := LastPiece(line, 0);
    assert StandsFor(line, line[i..]);
  }

  lemma {:induction false} LastPiece(line: CString, i: nat) returns (j: nat)
    requires i <= |line| && ArePieces(line[..i]) && (0 < i < |line| ==> line[i] != '/')
    ensures NameAt(line, j)
    decreases |line| - i
  {
    if BeginsDotSlash(line[i..]) {
      j := i + 2;
      while j < |line| && line[j] == '/'
        invariant i + 2 <= j <= |line| && forall k :: i < k < j ==> line[k] == '/'
      {
        j := j + 1;
      }
      PiecesMore(line[..i], line[i..j]);
      assert line[..i] + line[i..j] == line[..j];
      j := LastPiece(line, j);
    } else {
      j := i;
    }
  }

  ghost function Stripped(line: CString): (name: CString)
    ensures StandsFor(line, name)
  {
    NameExists(line);
    var name: CString :| StandsFor(line, name);
    name
  }

  lemma StrippedIs(line: CString, name: CString)
    requires StandsFor(line, name)
    ensures name == Stripped(line)
  {
    OneName(line, |line| - |name|, |line| - |Stripped(line)|);
  }

  /** The names that the lines stand for. */
  ghost function NamesOfLines(lines: seq<CString>): seq<CString> {
    if lines == [] then []
    else
      var n := Stripped(lines[|lines| - 1]);
      NamesOfLines(lines[..|lines| - 1]) + (if n == "" then [] else [n])
  }

  /** Pieces in front of a name do not change what is archived; a line of nothing else is passed over. */
  lemma PiecesGone(lines: seq<CString>, p: CString, name: CString)
    requires ArePieces(p) && !BeginsDotSlash(name) && (p != "" && name != "" ==> name[0] != '/')
    ensures NamesOfLines(lines + [p + name]) == NamesOfLines(lines) + (if name == "" then [] else [name])
  {
    hide ArePieces;
    var line: CString := p + name;
    assert line[..|p|] == p && line[|p|..] == name;
    StrippedIs(line, name);
    assert (lines + [line])[..|lines|] == lines;
  }

  /** So "./" goes with any number of slashes, and nothing is archived where there is nothing behind them. */
  lemma DotSlashGone(lines: seq<CString>, slashes: CString, name: CString)
    requires slashes != "" && forall k :: 0 <= k < |slashes| ==> slashes[k] == '/'
    requires !BeginsDotSlash(name) && (name != "" ==> name[0] != '/')
    ensures NamesOfLines(lines + ["." + slashes + name]) == NamesOfLines(lines) + (if name == "" then [] else [name])
  {
    var p: CString := "." + slashes;
    assert p[..|p|] == p && p[|p|..] == "" && IsPiece(p);
    PiecesGone(lines, p, name);
  }

  /** No name that lines stand for begins with "./". */
  lemma {:induction false} NamesClean(lines: seq<CString>)
    ensures forall n <- NamesOfLines(lines) :: n != "" && !BeginsDotSlash(n)
    decreases |lines|
  {
    if lines != [] { NamesClean(lines[..|lines| - 1]); }
  }

  // ----- what an entry shows

  function Owned(st: Stat, o: Options): Stat {
    st.(uid := if o.uid.Some? then o.uid.value else st.uid, gid := if o.gid.Some? then o.gid.value else st.gid)
  }

  /** The owner may be set, and only regular files and symbolic links have a size. */
  function Normal(st: Stat, o: Options): Stat {
    var s := Owned(st, o);
    if IsLnk(s) || IsReg(s) then s else s.(size := 0)
  }

  function Shown(st: Stat, o: Options): Stat {
    if o.ignoreDevno then st.(devMajor := 0, devMinor := 0, rdevMajor := 0, rdevMinor := 0) else st
  }

  /** The data behind a header; None where cpio_o exits with an error. */
  function DataFor(f: Option<File>, st: Stat): Option<string> {
    if st.size == 0 then Some("")
    else if f == None || f.value.content == None then None
    else if IsLnk(st) then f.value.content
    else if |f.value.content.value| < st.size then None
    else Some(f.value.content.value[..st.size])
  }

  /** The name of a file that has others, and is no directory. */
  predicate Hard(fs: FileSystem, name: CString) {
    fs(name).Some? && fs(name).value.st.nlink > 1 && fs(name).value.st.mode / 0x1000 % 16 != 4
  }

  function Inode(fs: FileSystem, name: CString): nat {
    if fs(name).Some? then fs(name).value.st.ino else 0
  }

  /** The entry shows all there is about the file but its inode number; 8 is a regular file, 10 a symbolic link. */
  predicate Describes(o: Options, f: File, e: Entry) {
    var kind := f.st.mode / 0x1000 % 16;
    && e.st.mode == f.st.mode && e.st.nlink == f.st.nlink && e.st.mtime == f.st.mtime
    && (if o.uid.Some? then e.st.uid == o.uid.value else e.st.uid == f.st.uid)
    && (if o.gid.Some? then e.st.gid == o.gid.value else e.st.gid == f.st.gid)
    && (if o.ignoreDevno then e.st.devMajor == e.st.devMinor == e.st.rdevMajor == e.st.rdevMinor == 0
        else e.st.devMajor == f.st.devMajor && e.st.devMinor == f.st.devMinor
             && e.st.rdevMajor == f.st.rdevMajor && e.st.rdevMinor == f.st.rdevMinor)
    && (if kind != 8 && kind != 10 then e.st.size == 0 else e.st.size == f.st.size)
    && (if e.st.size == 0 then e.data == ""
        else f.content.Some? && (if kind == 10 then e.data == f.content.value
                                 else f.st.size <= |f.content.value| && e.data == f.content.value[..f.st.size]))
  }

  predicate Shows(fs: FileSystem, o: Options, e: Entry) {
    fs(e.name).Some? && Describes(o, fs(e.name).value, e)
  }

  lemma ShowsIs(fs: FileSystem, o: Options, e: Entry)
    requires fs(e.name).Some?
    ensures Shows(fs, o, e) <==>
              && e.st.(ino := 0) == Shown(Normal(fs(e.name).value.st, o), o).(ino := 0)
              && DataFor(fs(e.name), Normal(fs(e.name).value.st, o)) == Some(e.data)
  {
  }

  function NamesOf(es: seq<Entry>): (ns: seq<CString>)
    ensures |ns| == |es| && forall k :: 0 <= k < |es| ==> ns[k] == es[k].name
  {
    seq(|es|, k requires 0 <= k < |es| => es[k].name)
  }

  // ----- remembered hard links

  /** One remembered inode; the names are latest first. */
  datatype Group = Group(st: Stat, names: seq<CString>, mapped: nat)

  ghost predicate GroupOk(fs: FileSystem, o: Options, g: Group) {
    && g.names != []
    && (forall k :: 0 <= k < |g.names| ==> Hard(fs, g.names[k]) && Inode(fs, g.names[k]) == g.st.ino)
    && g.st == Normal(fs(g.names[|g.names| - 1]).value.st, o)
    && (if o.renumber then g.mapped > 0 else g.mapped == 0)
  }

  ghost predicate GroupsOk(fs: FileSystem, o: Options, gs: seq<Group>) {
    && (forall k :: 0 <= k < |gs| ==> GroupOk(fs, o, gs[k]))
    && (forall k, l :: 0 <= k < l < |gs| ==> gs[k].st.ino != gs[l].st.ino && (o.renumber ==> gs[k].mapped != gs[l].mapped))
  }

  ghost function GroupNames(gs: seq<Group>): multiset<CString> {
    if gs == [] then multiset{} else multiset(gs[0].names) + GroupNames(gs[1..])
  }

  lemma {:induction false} GroupNamesUpdate(gs: seq<Group>, i: nat, g: Group, name: CString)
    requires i < |gs| && g.names == [name] + gs[i].names
    ensures GroupNames(gs[i := g]) == GroupNames(gs) + multiset{name}
    decreases gs
  {
    if i == 0 {
      assert gs[i := g][1..] == gs[1..];
    } else {
      assert gs[i := g][1..] == gs[1..][i - 1 := g];
      GroupNamesUpdate(gs[1..], i - 1, g, name);
    }
  }

  /** The inode number and the size that the entry for a remembered name gets. */
  function LinkStat(g: Group, o: Options, last: bool): Stat {
    var st := if g.mapped != 0 then g.st.(ino := g.mapped) else g.st;
    Shown(if last then st else st.(size := 0), o)
  }

  function LinkEntry(fs: FileSystem, o: Options, g: Group, name: CString, last: bool): Entry {
    var d := DataFor(fs(name), g.st);
    Entry(LinkStat(g, o, last), name, if last && d.Some? then d.value else "")
  }

  function GroupEntries(fs: FileSystem, o: Options, g: Group, names: seq<CString>): (es: seq<Entry>)
    ensures |es| == |names|
  {
    if names == [] then [] else [LinkEntry(fs, o, g, names[0], |names| == 1)] + GroupEntries(fs, o, g, names[1..])
  }

  /** All that is still remembered, as entries. */
  function Drained(fs: FileSystem, o: Options, gs: seq<Group>): seq<Entry> {
    if gs == [] then [] else GroupEntries(fs, o, gs[0], gs[0].names) + Drained(fs, o, gs[1..])
  }

  lemma {:induction false} GroupEntryAt(fs: FileSystem, o: Options, g: Group, names: seq<CString>, k: nat)
    requires k < |names|
    ensures GroupEntries(fs, o, g, names)[k] == LinkEntry(fs, o, g, names[k], k == |names| - 1)
    decreases names
  {
    if k > 0 { GroupEntryAt(fs, o, g, names[1..], k - 1); }
  }

  lemma {:induction false} DrainedNames(fs: FileSystem, o: Options, gs: seq<Group>)
    ensures multiset(NamesOf(Drained(fs, o, gs))) == GroupNames(gs)
    decreases gs
  {
    if gs != [] {
      hide GroupEntries;
      var a, b := GroupEntries(fs, o, gs[0], gs[0].names), Drained(fs, o, gs[1..]);
      DrainedNames(fs, o, gs[1..]);
      GroupEntryNames(fs, o, gs[0], gs[0].names);
      NamesAppend(a, b);
    }
  }

  lemma GroupEntryNames(fs: FileSystem, o: Options, g: Group, names: seq<CString>)
    ensures NamesOf(GroupEntries(fs, o, g, names)) == names
  {
    forall k | 0 <= k < |names|
      ensures NamesOf(GroupEntries(fs, o, g, names))[k] == names[k]
    {
      GroupEntryAt(fs, o, g, names, k);
    }
  }

  lemma NamesAppend(a: seq<Entry>, b: seq<Entry>)
    ensures NamesOf(a + b) == NamesOf(a) + NamesOf(b)
  {
  }

  // ----- grouping

  /** Nothing of another inode stands between two names of one. */
  ghost predicate Grouped(fs: FileSystem, es: seq<Entry>) {
    forall p, q, r :: 0 <= p < q < r < |es| && Inode(fs, es[p].name) == Inode(fs, es[r].name) ==>
      Inode(fs, es[q].name) == Inode(fs, es[p].name)
  }

  /** The last entry of its inode. */
  predicate LastOf(fs: FileSystem, es: seq<Entry>, p: nat)
    requires p < |es|
  {
    p == |es| - 1 || Inode(fs, es[p + 1].name) != Inode(fs, es[p].name)
  }

  /** The first of the names that is a hard link to that inode. */
  function FirstHard(fs: FileSystem, names: seq<CString>, ino: nat): Option<CString> {
    if names == [] then None
    else
      match FirstHard(fs, names[..|names| - 1], ino)
      case Some(n) => Some(n)
      case None =>
        var n := names[|names| - 1];
        if Hard(fs, n) && Inode(fs, n) == ino then Some(n) else None
  }

  /** The last entry of an inode shows the file under the first name that was read for it; those before it show the
      same, but for the size and the data. */
  ghost predicate DataOnLast(fs: FileSystem, o: Options, names: seq<CString>, es: seq<Entry>) {
    forall p :: 0 <= p < |es| ==> DataAt(fs, o, names, es, p)
  }

  predicate DataAt(fs: FileSystem, o: Options, names: seq<CString>, es: seq<Entry>, p: nat)
    requires p < |es|
  {
    if LastOf(fs, es, p) then Shows(fs, o, es[p]) && FirstHard(fs, names, Inode(fs, es[p].name)) == Some(es[p].name)
    else es[p].st == es[p + 1].st.(size := 0) && es[p].data == ""
  }

  /** Each remembered inode's last name is the first that was read. */
  ghost predicate Firsts(fs: FileSystem, names: seq<CString>, gs: seq<Group>) {
    forall k :: 0 <= k < |gs| && gs[k].names != [] ==>
      FirstHard(fs, names, gs[k].st.ino) == Some(gs[k].names[|gs[k].names| - 1])
  }

  /** Entries are numbered alike exactly if their names have the same inode. */
  ghost predicate NumberedAlike(fs: FileSystem, es: seq<Entry>) {
    forall p, q :: 0 <= p < |es| && 0 <= q < |es| ==>
      (es[p].st.ino == es[q].st.ino <==> Inode(fs, es[p].name) == Inode(fs, es[q].name))
  }

  /** The data of all remembered files can be read. */
  predicate Readable(fs: FileSystem, gs: seq<Group>) {
    forall k :: 0 <= k < |gs| && gs[k].names != [] ==> DataFor(fs(gs[k].names[|gs[k].names| - 1]), gs[k].st).Some?
  }

  /** The group that the entry at p comes from. */
  lemma {:induction false} EntryGroup(fs: FileSystem, o: Options, gs: seq<Group>, p: nat) returns (k: nat, n: nat)
    requires GroupsOk(fs, o, gs) && p < |Drained(fs, o, gs)|
    ensures k < |gs| && n < |gs[k].names|
    ensures Drained(fs, o, gs)[p] == LinkEntry(fs, o, gs[k], gs[k].names[n], n == |gs[k].names| - 1)
    ensures Hard(fs, gs[k].names[n]) && Inode(fs, gs[k].names[n]) == gs[k].st.ino
    decreases gs
  {
    hide LinkEntry, Hard, Inode, GroupEntries;
    assert GroupOk(fs, o, gs[0]);
    var a := GroupEntries(fs, o, gs[0], gs[0].names);
    if p < |a| {
      GroupEntryAt(fs, o, gs[0], gs[0].names, p);
      k, n := 0, p;
    } else {
      TailOk(fs, o, gs);
      k, n := EntryGroup(fs, o, gs[1..], p - |a|);
      k := k + 1;
    }
  }

  lemma TailOk(fs: FileSystem, o: Options, gs: seq<Group>)
    requires GroupsOk(fs, o, gs) && gs != []
    ensures GroupsOk(fs, o, gs[1..])
  {
    forall k | 0 <= k < |gs[1..]|
      ensures GroupOk(fs, o, gs[1..][k])
    {
      assert GroupOk(fs, o, gs[k + 1]);
    }
  }

  lemma HeadInode(fs: FileSystem, o: Options, gs: seq<Group>, p: nat)
    requires GroupsOk(fs, o, gs) && gs != [] && p < |gs[0].names|
    ensures p < |Drained(fs, o, gs)| && Inode(fs, Drained(fs, o, gs)[p].name) == gs[0].st.ino
    ensures Drained(fs, o, gs)[p] == LinkEntry(fs, o, gs[0], gs[0].names[p], p == |gs[0].names| - 1)
  {
    assert GroupOk(fs, o, gs[0]);
    GroupEntryAt(fs, o, gs[0], gs[0].names, p);
  }

  lemma TailInode(fs: FileSystem, o: Options, gs: seq<Group>, p: nat)
    requires GroupsOk(fs, o, gs) && gs != [] && |gs[0].names| <= p < |Drained(fs, o, gs)|
    ensures p - |gs[0].names| < |Drained(fs, o, gs[1..])|
    ensures Drained(fs, o, gs)[p] == Drained(fs, o, gs[1..])[p - |gs[0].names|]
    ensures Inode(fs, Drained(fs, o, gs)[p].name) != gs[0].st.ino
  {
    hide GroupEntries;
    TailOk(fs, o, gs);
    var k, n := EntryGroup(fs, o, gs[1..], p - |gs[0].names|);
    assert gs[1..][k] == gs[k + 1];
  }

  lemma {:induction false} DrainedGrouped(fs: FileSystem, o: Options, gs: seq<Group>)
    requires GroupsOk(fs, o, gs)
    ensures Grouped(fs, Drained(fs, o, gs))
    decreases gs
  {
    hide Hard, LinkEntry, Inode, GroupsOk;
    var es := Drained(fs, o, gs);
    if gs != [] {
      TailOk(fs, o, gs);
      DrainedGrouped(fs, o, gs[1..]);
      var m := |gs[0].names|;
      forall p, q, r | 0 <= p < q < r < |es| && Inode(fs, es[p].name) == Inode(fs, es[r].name)
        ensures Inode(fs, es[q].name) == Inode(fs, es[p].name)
      {
        if p < m { HeadInode(fs, o, gs, p); } else { TailInode(fs, o, gs, p); }
        if q < m { HeadInode(fs, o, gs, q); } else { TailInode(fs, o, gs, q); }
        if r < m { HeadInode(fs, o, gs, r); } else { TailInode(fs, o, gs, r); }
      }
    }
  }

  lemma {:induction false} DrainedData(fs: FileSystem, o: Options, names: seq<CString>, gs: seq<Group>)
    requires GroupsOk(fs, o, gs) && Readable(fs, gs) && Firsts(fs, names, gs)
    ensures DataOnLast(fs, o, names, Drained(fs, o, gs))
    decreases gs
  {
    hide GroupsOk, Readable, Firsts, FirstHard, GroupEntries, DataAt;
    var es := Drained(fs, o, gs);
    if gs != [] {
      TailOk(fs, o, gs);
      ReadableTail(fs, gs);
      FirstsTail(fs, names, gs);
      DrainedData(fs, o, names, gs[1..]);
      forall p | 0 <= p < |es|
        ensures DataAt(fs, o, names, es, p)
      {
        if p < |gs[0].names| { HeadData(fs, o, names, gs, es, p); } else { TailData(fs, o, names, gs, es, Drained(fs, o, gs[1..]), p); }
      }
    }
  }

  /** The entries of the first group. */
  lemma HeadData(fs: FileSystem, o: Options, names: seq<CString>, gs: seq<Group>, es: seq<Entry>, p: nat)
    requires GroupsOk(fs, o, gs) && Readable(fs, gs) && gs != [] && es == Drained(fs, o, gs) && p < |gs[0].names|
    requires gs[0].names != [] ==> FirstHard(fs, names, gs[0].st.ino) == Some(gs[0].names[|gs[0].names| - 1])
    ensures p < |es| && DataAt(fs, o, names, es, p)
  {
    hide Hard, Inode, GroupsOk, LinkEntry, Shows, Readable, FirstHard, Drained, DataFor;
    HeadInode(fs, o, gs, p);
    LinkShows(fs, o, gs, p);
    if p + 1 < |gs[0].names| {
      HeadInode(fs, o, gs, p + 1);
    } else if p + 1 < |es| {
      TailInode(fs, o, gs, p + 1);
    }
  }

  /** Those of the others. */
  lemma TailData(fs: FileSystem, o: Options, names: seq<CString>, gs: seq<Group>, es: seq<Entry>, t: seq<Entry>, p: nat)
    requires GroupsOk(fs, o, gs) && gs != [] && es == Drained(fs, o, gs) && t == Drained(fs, o, gs[1..])
    requires |gs[0].names| <= p < |es| && DataOnLast(fs, o, names, t)
    ensures DataAt(fs, o, names, es, p)
  {
    hide Hard, Inode, GroupsOk, Shows, FirstHard, Drained;
    DrainedLength(fs, o, gs);
    TailInode(fs, o, gs, p);
    assert DataAt(fs, o, names, t, p - |gs[0].names|);
    if p + 1 < |es| { TailInode(fs, o, gs, p + 1); }
  }

  lemma DrainedLength(fs: FileSystem, o: Options, gs: seq<Group>)
    requires gs != []
    ensures |Drained(fs, o, gs)| == |gs[0].names| + |Drained(fs, o, gs[1..])|
  {
  }

  lemma FirstsTail(fs: FileSystem, names: seq<CString>, gs: seq<Group>)
    requires Firsts(fs, names, gs) && gs != []
    ensures Firsts(fs, names, gs[1..])
    ensures gs[0].names != [] ==> FirstHard(fs, names, gs[0].st.ino) == Some(gs[0].names[|gs[0].names| - 1])
  {
    hide FirstHard;
  }

  lemma ReadableTail(fs: FileSystem, gs: seq<Group>)
    requires Readable(fs, gs) && gs != []
    ensures Readable(fs, gs[1..])
    ensures gs[0].names != [] ==> DataFor(fs(gs[0].names[|gs[0].names| - 1]), gs[0].st).Some?
  {
    hide DataFor;
  }

  lemma LinkShows(fs: FileSystem, o: Options, gs: seq<Group>, p: nat)
    requires GroupsOk(fs, o, gs) && Readable(fs, gs) && gs != [] && p < |gs[0].names|
    ensures var e := LinkEntry(fs, o, gs[0], gs[0].names[p], p == |gs[0].names| - 1);
      e.name == gs[0].names[p] &&
      if p == |gs[0].names| - 1 then Shows(fs, o, e)
      else e.st == LinkEntry(fs, o, gs[0], gs[0].names[p + 1], p + 1 == |gs[0].names| - 1).st.(size := 0) && e.data == ""
  {
    hide DataFor, Normal, Describes;
    assert GroupOk(fs, o, gs[0]);
    ReadableTail(fs, gs);
    if p == |gs[0].names| - 1 { ShowsIs(fs, o, LinkEntry(fs, o, gs[0], gs[0].names[p], true)); }
  }

  lemma DrainedNumbers(fs: FileSystem, o: Options, gs: seq<Group>)
    requires GroupsOk(fs, o, gs) && o.renumber
    ensures NumberedAlike(fs, Drained(fs, o, gs))
  {
    var es := Drained(fs, o, gs);
    forall p, q | 0 <= p < |es| && 0 <= q < |es|
      ensures es[p].st.ino == es[q].st.ino <==> Inode(fs, es[p].name) == Inode(fs, es[q].name)
    {
      var k, n := EntryGroup(fs, o, gs, p);
      var l, m := EntryGroup(fs, o, gs, q);
      NumbersOfTwo(fs, o, gs, k, n, l, m);
    }
  }

  lemma NumbersOfTwo(fs: FileSystem, o: Options, gs: seq<Group>, k: nat, n: nat, l: nat, m: nat)
    requires GroupsOk(fs, o, gs) && o.renumber && k < |gs| && l < |gs| && n < |gs[k].names| && m < |gs[l].names|
    ensures LinkEntry(fs, o, gs[k], gs[k].names[n], n == |gs[k].names| - 1).st.ino == gs[k].mapped
    ensures gs[k].mapped == gs[l].mapped <==> gs[k].st.ino == gs[l].st.ino
    ensures LinkEntry(fs, o, gs[l], gs[l].names[m], m == |gs[l].names| - 1).st.ino == gs[l].mapped
  {
    hide DataFor, Hard, Inode, Normal;
    assert GroupOk(fs, o, gs[k]) && GroupOk(fs, o, gs[l]);
  }

  // ----- while names are read

  /** The names that are not remembered. */
  function PlainNames(fs: FileSystem, names: seq<CString>): seq<CString> {
    if names == [] then []
    else
      var n := names[|names| - 1];
      PlainNames(fs, names[..|names| - 1]) + (if Hard(fs, n) then [] else [n])
  }

  /** The number v is given, to an entry or to a remembered inode. */
  ghost predicate Given(es: seq<Entry>, gs: seq<Group>, v: nat) {
    (exists k :: 0 <= k < |es| && es[k].st.ino == v) || (exists k :: 0 <= k < |gs| && gs[k].mapped == v)
  }

  /** Every number up to next is given exactly once. */
  ghost predicate Numbered(es: seq<Entry>, gs: seq<Group>, next: nat) {
    && (forall k :: 0 <= k < |es| ==> 1 <= es[k].st.ino <= next)
    && (forall k, l :: 0 <= k < l < |es| ==> es[k].st.ino != es[l].st.ino)
    && (forall k :: 0 <= k < |gs| ==> 1 <= gs[k].mapped <= next)
    && (forall k, l :: 0 <= k < |es| && 0 <= l < |gs| ==> es[k].st.ino != gs[l].mapped)
    && (forall v: nat :: 1 <= v <= next ==> Given(es, gs, v))
  }

  /** How many inode numbers the names need: one for each name that is no hard link, and one for each inode that a hard
      link among them leads to. */
  ghost function NumbersNeeded(fs: FileSystem, names: seq<CString>): (r: nat)
    ensures r <= |names|
  {
    if names == [] then 0
    else
      var before, n := names[..|names| - 1], names[|names| - 1];
      NumbersNeeded(fs, before) + (if Hard(fs, n) && Seen(fs, before, Inode(fs, n)) then 0 else 1)
  }

  /** Without new numbers, each entry has the inode number of its name. */
  ghost predicate OwnInodes(fs: FileSystem, es: seq<Entry>) {
    forall k :: 0 <= k < |es| ==> es[k].st.ino == Inode(fs, es[k].name)
  }

  /** Some hard link to that inode is among the names. */
  ghost predicate Seen(fs: FileSystem, names: seq<CString>, ino: nat) {
    exists k :: 0 <= k < |names| && Hard(fs, names[k]) && Inode(fs, names[k]) == ino
  }

  ghost predicate InGroups(gs: seq<Group>, ino: nat) {
    exists k :: 0 <= k < |gs| && gs[k].st.ino == ino
  }

  /** The data of each inode with hard links can be read under the first of its names. */
  ghost predicate LinksReadable(fs: FileSystem, o: Options, names: seq<CString>) {
    names == [] ||
    (var before, n := names[..|names| - 1], names[|names| - 1];
     LinksReadable(fs, o, before) &&
     (Hard(fs, n) && !Seen(fs, before, Inode(fs, n)) ==> DataFor(fs(n), Normal(fs(n).value.st, o)).Some?))
  }

  /** A name exists, and if it is no hard link, its data can be read. */
  predicate NameReadable(fs: FileSystem, o: Options, n: CString) {
    fs(n).Some? && (Hard(fs, n) || DataFor(fs(n), Normal(fs(n).value.st, o)).Some?)
  }

  /** Nothing stops cpio_o. */
  ghost predicate AllReadable(fs: FileSystem, o: Options, names: seq<CString>) {
    (forall k :: 0 <= k < |names| ==> NameReadable(fs, o, names[k])) && LinksReadable(fs, o, names)
  }

  /** What is remembered is exactly the inodes seen, and can be read if they can. */
  /** The data that an entry needs can be read: a symbolic link's target, or as many bytes of a regular file as it
      has. */
  predicate HasData(f: File) {
    var kind := f.st.mode / 0x1000 % 16;
    f.st.size == 0 || (kind != 8 && kind != 10) || (f.content.Some? && (kind == 10 || f.st.size <= |f.content.value|))
  }

  /** Name k exists, and its data can be read, unless it is a hard link to an inode that has been there before. */
  ghost predicate GoodName(fs: FileSystem, names: seq<CString>, k: nat) {
    k < |names| && fs(names[k]).Some? && ((Hard(fs, names[k]) && SeenBefore(fs, names, k)) || HasData(fs(names[k]).value))
  }

  ghost predicate SeenBefore(fs: FileSystem, names: seq<CString>, k: nat)
    requires k < |names|
  {
    exists j :: 0 <= j < k && Hard(fs, names[j]) && Inode(fs, names[j]) == Inode(fs, names[k])
  }

  lemma HasDataIs(f: File, o: Options)
    ensures HasData(f) <==> DataFor(Some(f), Normal(f.st, o)).Some?
  {
  }

  lemma SeenIs(fs: FileSystem, names: seq<CString>, k: nat)
    requires k < |names|
    ensures SeenBefore(fs, names, k) <==> Seen(fs, names[..k], Inode(fs, names[k]))
  {
    hide Hard, Inode;
    assert forall j :: 0 <= j < k ==> names[..k][j] == names[j];
  }

  /** One more name can be archived if all before it can and it is good. */
  lemma OneMoreReadable(fs: FileSystem, o: Options, names: seq<CString>, n: nat)
    requires |names| == n + 1
    ensures AllReadable(fs, o, names) <==> AllReadable(fs, o, names[..n]) && GoodName(fs, names, n)
  {
    hide Hard, HasData, DataFor, Normal, Seen, SeenBefore, Inode;
    var before := names[..n];
    SeenIs(fs, names, n);
    if fs(names[n]).Some? {
      HasDataIs(fs(names[n]).value, o);
      assert fs(names[n]) == Some(fs(names[n]).value);
    }
    HardThere(fs, names[n]);
    assert forall k :: 0 <= k < n ==> before[k] == names[k];
    if AllReadable(fs, o, before) && GoodName(fs, names, n) {
      forall k | 0 <= k < |names|
        ensures NameReadable(fs, o, names[k])
      {
        if k < n { assert NameReadable(fs, o, before[k]); }
      }
    }
    if AllReadable(fs, o, names) {
      assert NameReadable(fs, o, names[n]);
      forall k | 0 <= k < n
        ensures NameReadable(fs, o, before[k])
      {
        assert NameReadable(fs, o, names[k]);
      }
    }
  }

  lemma {:induction false} GoodNames(fs: FileSystem, o: Options, names: seq<CString>)
    ensures AllReadable(fs, o, names) <==> forall k :: 0 <= k < |names| ==> GoodName(fs, names, k)
    decreases names
  {
    hide Hard, HasData, DataFor, Normal, Seen, SeenBefore, Inode, NameReadable, LinksReadable, AllReadable;
    var n := |names| - 1;
    if n >= 0 {
      var before := names[..n];
      GoodNames(fs, o, before);
      OneMoreReadable(fs, o, names, n);
      forall k | 0 <= k < n
        ensures GoodName(fs, names, k) <==> GoodName(fs, before, k)
      {
        SeenIs(fs, names, k);
        SeenIs(fs, before, k);
        assert names[..k] == before[..k];
      }
    } else {
      NoneReadable(fs, o);
      assert names == [];
    }
  }

  lemma NoneReadable(fs: FileSystem, o: Options)
    ensures AllReadable(fs, o, [])
  {
  }

  lemma HardThere(fs: FileSystem, n: CString)
    ensures Hard(fs, n) ==> fs(n).Some?
  {
  }

  // ----- the order of hard links

  /** The hard links to that inode. */
  function Links(fs: FileSystem, names: seq<CString>, ino: nat): seq<CString> {
    if names == [] then []
    else (if Hard(fs, names[0]) && Inode(fs, names[0]) == ino then [names[0]] else []) + Links(fs, names[1..], ino)
  }

  /** The names that are none. */
  function Others(fs: FileSystem, names: seq<CString>, ino: nat): (r: seq<CString>)
    ensures |r| <= |names|
  {
    if names == [] then []
    else (if Hard(fs, names[0]) && Inode(fs, names[0]) == ino then [] else [names[0]]) + Others(fs, names[1..], ino)
  }

  function Reversed(s: seq<CString>): seq<CString> {
    if s == [] then [] else Reversed(s[1..]) + [s[0]]
  }

  /** The hard links inode by inode: the inode that came up first is last, and of each inode the name that came up
      first. */
  function ByInode(fs: FileSystem, names: seq<CString>): seq<seq<CString>>
    decreases |names|
  {
    if names == [] then []
    else if !Hard(fs, names[0]) then ByInode(fs, names[1..])
    else
      var ino := Inode(fs, names[0]);
      ByInode(fs, Others(fs, names[1..], ino)) + [Reversed(Links(fs, names, ino))]
  }

  lemma {:induction false} LinksMore(fs: FileSystem, names: seq<CString>, n: CString, ino: nat)
    ensures Links(fs, names + [n], ino) == Links(fs, names, ino) + (if Hard(fs, n) && Inode(fs, n) == ino then [n] else [])
    decreases names
  {
    hide Hard, Inode;
    if names != [] {
      assert (names + [n])[1..] == names[1..] + [n];
      LinksMore(fs, names[1..], n, ino);
    }
  }

  lemma {:induction false} OthersMore(fs: FileSystem, names: seq<CString>, n: CString, ino: nat)
    ensures Others(fs, names + [n], ino) == Others(fs, names, ino) + (if Hard(fs, n) && Inode(fs, n) == ino then [] else [n])
    decreases names
  {
    hide Hard, Inode;
    if names != [] {
      assert (names + [n])[1..] == names[1..] + [n];
      OthersMore(fs, names[1..], n, ino);
    }
  }

  lemma {:induction false} ReversedMore(s: seq<CString>, n: CString)
    ensures Reversed(s + [n]) == [n] + Reversed(s)
  {
    if s != [] {
      assert (s + [n])[1..] == s[1..] + [n];
      ReversedMore(s[1..], n);
    }
  }

  lemma {:induction false} SeenOthers(fs: FileSystem, names: seq<CString>, ino: nat, other: nat)
    requires ino != other
    ensures Seen(fs, Others(fs, names, other), ino) <==> Seen(fs, names, ino)
    decreases names
  {
    hide Hard, Inode;
    if names != [] {
      SeenOthers(fs, names[1..], ino, other);
      SeenFirst(fs, names, ino);
      if !(Hard(fs, names[0]) && Inode(fs, names[0]) == other) {
        var r := Others(fs, names, other);
        assert r[0] == names[0] && r[1..] == Others(fs, names[1..], other);
        SeenFirst(fs, r, ino);
      } else {
        assert Others(fs, names, other) == Others(fs, names[1..], other);
      }
    }
  }

  lemma SeenFirst(fs: FileSystem, names: seq<CString>, ino: nat)
    requires names != []
    ensures Seen(fs, names, ino) <==> (Hard(fs, names[0]) && Inode(fs, names[0]) == ino) || Seen(fs, names[1..], ino)
  {
    hide Hard, Inode;
    assert forall k :: 1 <= k < |names| ==> names[1..][k - 1] == names[k];
  }

  lemma {:induction false} LastOfReversed(s: seq<CString>)
    requires s != []
    ensures Reversed(s) != [] && Reversed(s)[|Reversed(s)| - 1] == s[0]
  {
  }

  lemma ByInodeFirst(fs: FileSystem, names: seq<CString>, ino: nat)
    requires names != [] && ino == Inode(fs, names[0])
    ensures ByInode(fs, names) == if Hard(fs, names[0]) then ByInode(fs, Others(fs, names[1..], ino)) + [Reversed(Links(fs, names, ino))]
                                  else ByInode(fs, names[1..])
  {
    hide Hard, Inode, Reversed, Links, Others;
  }

  /** With one more name at the end, the same recursion. */
  lemma ByInodeMore(fs: FileSystem, names: seq<CString>, n: CString, ino: nat)
    requires names != [] && ino == Inode(fs, names[0])
    ensures var last := Hard(fs, n) && Inode(fs, n) == ino;
      ByInode(fs, names + [n]) ==
        if Hard(fs, names[0]) then
          ByInode(fs, Others(fs, names[1..], ino) + (if last then [] else [n]))
          + [(if last then [n] else []) + Reversed(Links(fs, names, ino))]
        else ByInode(fs, names[1..] + [n])
  {
    hide Hard, Inode, Reversed, Links, Others, ByInode;
    var all := names + [n];
    assert all[0] == names[0] && all[1..] == names[1..] + [n];
    ByInodeFirst(fs, all, ino);
    LinksMore(fs, names, n, ino);
    OthersMore(fs, names[1..], n, ino);
    ReversedMore(Links(fs, names, ino), n);
    assert Links(fs, names, ino) + [] == Links(fs, names, ino);
    assert [] + Reversed(Links(fs, names, ino)) == Reversed(Links(fs, names, ino));
  }

  /** A name that is no hard link does not matter. */
  lemma {:induction false} OrderPlain(fs: FileSystem, names: seq<CString>, n: CString)
    requires !Hard(fs, n)
    ensures ByInode(fs, names + [n]) == ByInode(fs, names)
    decreases |names|
  {
    if names == [] {
      assert [n][1..] == [] && [] + [n] == [n];
    } else {
      hide Hard, Inode, Reversed, Links, Others, ByInode;
      var ino := Inode(fs, names[0]);
      ByInodeFirst(fs, names, ino);
      ByInodeMore(fs, names, n, ino);
      OrderPlain(fs, names[1..], n);
      OrderPlain(fs, Others(fs, names[1..], ino), n);
      assert [] + Reversed(Links(fs, names, ino)) == Reversed(Links(fs, names, ino));
    }
  }

  /** What one more hard link n does to the order: of a new inode, it comes before all; otherwise, in front of the names
      at l, those of its inode. */
  ghost predicate Joins(fs: FileSystem, b: seq<seq<CString>>, n: CString, seen: bool, l: nat, r: seq<seq<CString>>) {
    if seen then l < |b| && b[l] != [] && Inode(fs, b[l][|b[l]| - 1]) == Inode(fs, n) && r == b[l := [n] + b[l]]
    else r == [[n]] + b
  }

  lemma {:induction false} OrderLink(fs: FileSystem, names: seq<CString>, n: CString) returns (l: nat)
    requires Hard(fs, n)
    ensures Joins(fs, ByInode(fs, names), n, Seen(fs, names, Inode(fs, n)), l, ByInode(fs, names + [n]))
    decreases |names|
  {
    l := 0;
    if names == [] {
      OnlyLink(fs, n);
    } else {
      hide Hard, Inode, Reversed, Links, Others, ByInode, Seen, Joins;
      var ino := Inode(fs, names[0]);
      ByInodeFirst(fs, names, ino);
      ByInodeMore(fs, names, n, ino);
      SeenFirst(fs, names, Inode(fs, n));
      if !Hard(fs, names[0]) {
        l := OrderLink(fs, names[1..], n);
      } else {
        var rest, last := Others(fs, names[1..], ino), Reversed(Links(fs, names, ino));
        FirstLinkLast(fs, names, ino);
        if ino == Inode(fs, n) {
          l := |ByInode(fs, rest)|;
          assert rest + [] == rest;
          JoinsLast(fs, ByInode(fs, rest), n, last);
        } else {
          SeenOthers(fs, names[1..], Inode(fs, n), ino);
          l := OrderLink(fs, rest, n);
          assert [] + last == last;
          JoinsBefore(fs, ByInode(fs, rest), n, Seen(fs, rest, Inode(fs, n)), l, ByInode(fs, rest + [n]), last);
        }
      }
    }
  }

  lemma FirstLinkLast(fs: FileSystem, names: seq<CString>, ino: nat)
    requires names != [] && Hard(fs, names[0]) && ino == Inode(fs, names[0])
    ensures var r := Reversed(Links(fs, names, ino)); r != [] && r[|r| - 1] == names[0]
  {
    hide Hard, Inode;
    LastOfReversed(Links(fs, names, ino));
  }

  lemma JoinsLast(fs: FileSystem, b: seq<seq<CString>>, n: CString, x: seq<CString>)
    requires x != [] && Inode(fs, x[|x| - 1]) == Inode(fs, n)
    ensures Joins(fs, b + [x], n, true, |b|, b + [[n] + x])
  {
    hide Inode;
  }

  lemma JoinsBefore(fs: FileSystem, b: seq<seq<CString>>, n: CString, seen: bool, l: nat, r: seq<seq<CString>>, x: seq<CString>)
    requires Joins(fs, b, n, seen, l, r)
    ensures Joins(fs, b + [x], n, seen, l, r + [x])
  {
    hide Inode;
  }

  lemma OnlyLink(fs: FileSystem, n: CString)
    requires Hard(fs, n)
    ensures !Seen(fs, [], Inode(fs, n)) && ByInode(fs, [] + [n]) == [[n]] + ByInode(fs, [])
  {
    hide Hard, Inode;
    assert [] + [n] == [n] && [n][1..] == [];
    assert Links(fs, [n], Inode(fs, n)) == [n] && Reversed([n]) == [n];
  }

  ghost predicate Remembered(fs: FileSystem, o: Options, names: seq<CString>, gs: seq<Group>) {
    && (forall ino: nat :: Seen(fs, names, ino) <==> InGroups(gs, ino)) && Firsts(fs, names, gs)
    && (Readable(fs, gs) <==> LinksReadable(fs, o, names))
    && NameLists(gs) == ByInode(fs, names)
  }

  /** The names that each group remembers. */
  function NameLists(gs: seq<Group>): (r: seq<seq<CString>>)
    ensures |r| == |gs| && forall k :: 0 <= k < |gs| ==> r[k] == gs[k].names
  {
    seq(|gs|, k requires 0 <= k < |gs| => gs[k].names)
  }

  function Flat(b: seq<seq<CString>>): seq<CString> {
    if b == [] then [] else b[0] + Flat(b[1..])
  }

  /** The entries for what is remembered stand in that order. */
  lemma {:induction false} DrainedOrder(fs: FileSystem, o: Options, gs: seq<Group>)
    ensures NamesOf(Drained(fs, o, gs)) == Flat(NameLists(gs))
    decreases gs
  {
    if gs != [] {
      hide GroupEntries;
      var a, b := GroupEntries(fs, o, gs[0], gs[0].names), Drained(fs, o, gs[1..]);
      DrainedOrder(fs, o, gs[1..]);
      GroupEntryNames(fs, o, gs[0], gs[0].names);
      NamesAppend(a, b);
      assert NameLists(gs)[1..] == NameLists(gs[1..]);
    }
  }

  /** Of a link to an inode that is remembered, it joins the group of that inode. */
  lemma OrderOld(fs: FileSystem, o: Options, names: seq<CString>, gs: seq<Group>, i: nat, n: CString, gs': seq<Group>)
    requires NameLists(gs) == ByInode(fs, names) && GroupsOk(fs, o, gs) && i < |gs|
    requires Hard(fs, n) && Inode(fs, n) == gs[i].st.ino && Seen(fs, names, Inode(fs, n))
    requires gs' == gs[i := gs[i].(names := [n] + gs[i].names)]
    ensures NameLists(gs') == ByInode(fs, names + [n])
  {
    hide Hard, Inode, Seen, ByInode, Normal;
    var l := OrderLink(fs, names, n);
    assert GroupOk(fs, o, gs[l]);
    assert l == i;
    assert NameLists(gs') == NameLists(gs)[i := [n] + gs[i].names];
  }

  /** A link to another one begins a group of its own. */
  lemma OrderNew(fs: FileSystem, names: seq<CString>, gs: seq<Group>, g: Group, n: CString)
    requires NameLists(gs) == ByInode(fs, names) && g.names == [n] && Hard(fs, n) && !Seen(fs, names, Inode(fs, n))
    ensures NameLists([g] + gs) == ByInode(fs, names + [n])
  {
    hide Hard, Inode, Seen, ByInode;
    var l := OrderLink(fs, names, n);
    assert NameLists([g] + gs) == [[n]] + NameLists(gs);
  }

  lemma SeenMore(fs: FileSystem, names: seq<CString>, n: CString, ino: nat)
    ensures Seen(fs, names + [n], ino) <==> Seen(fs, names, ino) || (Hard(fs, n) && Inode(fs, n) == ino)
  {
    hide Hard, Inode;
    var more := names + [n];
    if Seen(fs, names, ino) {
      var k :| 0 <= k < |names| && Hard(fs, names[k]) && Inode(fs, names[k]) == ino;
      assert more[k] == names[k];
    }
    if Hard(fs, n) && Inode(fs, n) == ino { assert more[|names|] == n; }
  }

  lemma LinksReadableMore(fs: FileSystem, o: Options, names: seq<CString>, n: CString)
    ensures LinksReadable(fs, o, names + [n]) <==>
              LinksReadable(fs, o, names) && (Hard(fs, n) && !Seen(fs, names, Inode(fs, n)) ==> DataFor(fs(n), Normal(fs(n).value.st, o)).Some?)
  {
    hide Inode, Seen, DataFor, Normal;
    assert (names + [n])[..|names|] == names;
  }

  lemma FirstHardMore(fs: FileSystem, names: seq<CString>, n: CString, ino: nat)
    ensures FirstHard(fs, names + [n], ino) == match FirstHard(fs, names, ino)
                                               case Some(m) => Some(m)
                                               case None => if Hard(fs, n) && Inode(fs, n) == ino then Some(n) else None
  {
    hide Hard, Inode;
    assert (names + [n])[..|names|] == names;
  }

  lemma {:induction false} FirstHardNone(fs: FileSystem, names: seq<CString>, ino: nat)
    ensures FirstHard(fs, names, ino) == None <==> !Seen(fs, names, ino)
  {
    hide Hard, Inode;
    if names != [] {
      var before, n := names[..|names| - 1], names[|names| - 1];
      FirstHardNone(fs, before, ino);
      assert names == before + [n];
      SeenMore(fs, before, n, ino);
    }
  }

  lemma FirstsMore(fs: FileSystem, names: seq<CString>, gs: seq<Group>, n: CString)
    requires Firsts(fs, names, gs)
    ensures Firsts(fs, names + [n], gs)
  {
    hide FirstHard;
    forall k | 0 <= k < |gs| && gs[k].names != []
      ensures FirstHard(fs, names + [n], gs[k].st.ino) == Some(gs[k].names[|gs[k].names| - 1])
    {
      FirstHardMore(fs, names, n, gs[k].st.ino);
    }
  }

  lemma FirstsUpdate(fs: FileSystem, names: seq<CString>, gs: seq<Group>, i: nat, n: CString, gs': seq<Group>)
    requires Firsts(fs, names, gs) && i < |gs| && gs[i].names != []
    requires gs' == gs[i := gs[i].(names := [n] + gs[i].names)]
    ensures Firsts(fs, names, gs')
  {
    hide FirstHard;
    assert gs'[i].names[|gs'[i].names| - 1] == gs[i].names[|gs[i].names| - 1];
  }

  lemma FirstsNew(fs: FileSystem, names: seq<CString>, gs: seq<Group>, g: Group, n: CString)
    requires Firsts(fs, names, gs) && g.names == [n] && FirstHard(fs, names, g.st.ino) == Some(n)
    ensures Firsts(fs, names, [g] + gs)
  {
    hide FirstHard;
    var gs' := [g] + gs;
    assert forall k :: 1 <= k < |gs'| ==> gs'[k] == gs[k - 1];
  }

  /** A name that is no hard link changes nothing of what is remembered. */
  lemma RememberedPlain(fs: FileSystem, o: Options, names: seq<CString>, gs: seq<Group>, n: CString)
    requires Remembered(fs, o, names, gs) && !Hard(fs, n)
    ensures Remembered(fs, o, names + [n], gs)
  {
    hide Hard, Inode, Seen, InGroups, LinksReadable, Readable, DataFor, Normal, Firsts, ByInode, NameLists;
    OrderPlain(fs, names, n);
    FirstsMore(fs, names, gs, n);
    LinksReadableMore(fs, o, names, n);
    forall ino: nat
      ensures Seen(fs, names + [n], ino) <==> InGroups(gs, ino)
    {
      SeenMore(fs, names, n, ino);
    }
  }

  lemma InGroupsUpdate(gs: seq<Group>, i: nat, g: Group, ino: nat)
    requires i < |gs| && g.st == gs[i].st
    ensures InGroups(gs[i := g], ino) <==> InGroups(gs, ino)
  {
    var gs' := gs[i := g];
    assert forall k :: 0 <= k < |gs| ==> gs'[k].st == gs[k].st;
  }

  lemma ReadableUpdate(fs: FileSystem, gs: seq<Group>, i: nat, g: Group, name: CString)
    requires i < |gs| && g == gs[i].(names := [name] + gs[i].names) && gs[i].names != []
    ensures Readable(fs, gs[i := g]) <==> Readable(fs, gs)
  {
    hide DataFor;
    var gs' := gs[i := g];
    assert g.names[|g.names| - 1] == gs[i].names[|gs[i].names| - 1];
    assert forall k :: 0 <= k < |gs| && k != i ==> gs'[k] == gs[k];
  }

  lemma RememberedLink(fs: FileSystem, o: Options, names: seq<CString>, gs: seq<Group>, i: nat, n: CString, gs': seq<Group>)
    requires Remembered(fs, o, names, gs) && i < |gs| && Hard(fs, n) && Inode(fs, n) == gs[i].st.ino && gs[i].names != []
    requires GroupsOk(fs, o, gs)
    requires gs' == gs[i := gs[i].(names := [n] + gs[i].names)]
    ensures Remembered(fs, o, names + [n], gs')
  {
    hide Hard, Inode, Seen, LinksReadable, Readable, DataFor, Normal, Firsts, ByInode, NameLists, GroupsOk;
    FirstsMore(fs, names, gs, n);
    FirstsUpdate(fs, names + [n], gs, i, n, gs');
    LinksReadableMore(fs, o, names, n);
    ReadableUpdate(fs, gs, i, gs'[i], n);
    assert InGroups(gs, gs[i].st.ino);
    OrderOld(fs, o, names, gs, i, n, gs');
    forall ino: nat
      ensures Seen(fs, names + [n], ino) <==> InGroups(gs', ino)
    {
      SeenMore(fs, names, n, ino);
      InGroupsUpdate(gs, i, gs'[i], ino);
    }
  }

  lemma InGroupsMore(g: Group, gs: seq<Group>, ino: nat)
    ensures InGroups([g] + gs, ino) <==> g.st.ino == ino || InGroups(gs, ino)
  {
    var gs' := [g] + gs;
    assert gs'[0] == g;
    if InGroups(gs, ino) {
      var k :| 0 <= k < |gs| && gs[k].st.ino == ino;
      assert gs'[k + 1] == gs[k];
    }
  }

  lemma ReadableNew(fs: FileSystem, g: Group, gs: seq<Group>)
    requires |g.names| == 1
    ensures Readable(fs, [g] + gs) <==> Readable(fs, gs) && DataFor(fs(g.names[0]), g.st).Some?
  {
    hide DataFor;
    var gs' := [g] + gs;
    assert gs'[0] == g && forall k :: 0 <= k < |gs| ==> gs'[k + 1] == gs[k];
    if Readable(fs, gs') {
      forall k | 0 <= k < |gs| && gs[k].names != []
        ensures DataFor(fs(gs[k].names[|gs[k].names| - 1]), gs[k].st).Some?
      {
        assert gs'[k + 1] == gs[k];
      }
    }
  }

  lemma RememberedNew(fs: FileSystem, o: Options, names: seq<CString>, gs: seq<Group>, g: Group, n: CString)
    requires Remembered(fs, o, names, gs) && GroupOk(fs, o, g) && g.names == [n]
    requires forall k :: 0 <= k < |gs| ==> gs[k].st.ino != g.st.ino
    ensures Remembered(fs, o, names + [n], [g] + gs)
  {
    hide Hard, Inode, Seen, LinksReadable, Readable, DataFor, Normal, Firsts, FirstHard, ByInode, NameLists;
    LinksReadableMore(fs, o, names, n);
    ReadableNew(fs, g, gs);
    assert g.names[0] == n && !InGroups(gs, g.st.ino);
    OrderNew(fs, names, gs, g, n);
    FirstsMore(fs, names, gs, n);
    FirstHardNone(fs, names, g.st.ino);
    FirstHardMore(fs, names, n, g.st.ino);
    FirstsNew(fs, names + [n], gs, g, n);
    forall ino: nat
      ensures Seen(fs, names + [n], ino) <==> InGroups([g] + gs, ino)
    {
      SeenMore(fs, names, n, ino);
      InGroupsMore(g, gs, ino);
    }
  }

  /** After names have been read: each of them is in an entry or remembered. */
  ghost predicate Progress(fs: FileSystem, o: Options, names: seq<CString>, gs: seq<Group>, es: seq<Entry>, next: nat) {
    && GroupsOk(fs, o, gs)
    && multiset(NamesOf(es)) + GroupNames(gs) == multiset(names)
    && NamesOf(es) == PlainNames(fs, names)
    && (forall k :: 0 <= k < |es| ==> Shows(fs, o, es[k]))
    && InodesGiven(fs, o, names, gs, es, next)
    && Remembered(fs, o, names, gs)
  }

  /** As many new numbers have been given as the names need, or each entry has its own. */
  ghost predicate InodesGiven(fs: FileSystem, o: Options, names: seq<CString>, gs: seq<Group>, es: seq<Entry>, next: nat) {
    if o.renumber then Numbered(es, gs, next) && next == NumbersNeeded(fs, names) else OwnInodes(fs, es)
  }

  lemma NumbersMore(fs: FileSystem, names: seq<CString>, n: CString)
    ensures NumbersNeeded(fs, names + [n]) == NumbersNeeded(fs, names) + (if Hard(fs, n) && Seen(fs, names, Inode(fs, n)) then 0 else 1)
  {
    hide Hard, Seen, Inode;
    assert (names + [n])[..|names|] == names;
  }

  lemma GivenEntry(es: seq<Entry>, gs: seq<Group>, e: Entry, v: nat)
    ensures Given(es, gs, v) || e.st.ino == v ==> Given(es + [e], gs, v)
  {
    var es' := es + [e];
    assert es'[|es|] == e && forall k :: 0 <= k < |es| ==> es'[k] == es[k];
  }

  lemma NumberedPlain(es: seq<Entry>, gs: seq<Group>, next: nat, e: Entry, next': nat)
    requires Numbered(es, gs, next) && next' == next + 1 && e.st.ino == next'
    ensures Numbered(es + [e], gs, next')
  {
    hide Given;
    forall v: nat | 1 <= v <= next'
      ensures Given(es + [e], gs, v)
    {
      GivenEntry(es, gs, e, v);
    }
  }

  lemma NumberedLink(es: seq<Entry>, gs: seq<Group>, next: nat, i: nat, gs': seq<Group>)
    requires Numbered(es, gs, next) && i < |gs| == |gs'| && forall k :: 0 <= k < |gs| ==> gs'[k].mapped == gs[k].mapped
    ensures Numbered(es, gs', next)
  {
    forall v: nat | 1 <= v <= next
      ensures Given(es, gs', v)
    {
      assert Given(es, gs, v);
    }
  }

  lemma GivenGroup(es: seq<Entry>, gs: seq<Group>, g: Group, v: nat)
    ensures Given(es, gs, v) || g.mapped == v ==> Given(es, [g] + gs, v)
  {
    var gs' := [g] + gs;
    assert gs'[0] == g && forall k :: 0 <= k < |gs| ==> gs'[k + 1] == gs[k];
  }

  lemma NumberedNew(es: seq<Entry>, gs: seq<Group>, next: nat, g: Group, next': nat)
    requires Numbered(es, gs, next) && next' == next + 1 && g.mapped == next'
    ensures Numbered(es, [g] + gs, next')
  {
    hide Given;
    forall v: nat | 1 <= v <= next'
      ensures Given(es, [g] + gs, v)
    {
      GivenGroup(es, gs, g, v);
    }
  }

  lemma GivenPlain(fs: FileSystem, o: Options, names: seq<CString>, gs: seq<Group>, es: seq<Entry>, next: nat, e: Entry, next': nat)
    requires InodesGiven(fs, o, names, gs, es, next) && !Hard(fs, e.name)
    requires if o.renumber then next' == next + 1 && e.st.ino == next' else next' == next && e.st.ino == Inode(fs, e.name)
    ensures InodesGiven(fs, o, names + [e.name], gs, es + [e], next')
  {
    hide Hard, Inode, Seen, Numbered;
    NumbersMore(fs, names, e.name);
    if o.renumber { NumberedPlain(es, gs, next, e, next'); }
  }

  lemma GivenLink(fs: FileSystem, o: Options, names: seq<CString>, gs: seq<Group>, es: seq<Entry>, next: nat, i: nat, n: CString,
                  gs': seq<Group>)
    requires InodesGiven(fs, o, names, gs, es, next) && Remembered(fs, o, names, gs)
    requires i < |gs| && Hard(fs, n) && Inode(fs, n) == gs[i].st.ino && gs' == gs[i := gs[i].(names := [n] + gs[i].names)]
    ensures InodesGiven(fs, o, names + [n], gs', es, next)
  {
    hide Hard, Inode, Seen, Numbered, Readable, LinksReadable, Firsts;
    NumbersMore(fs, names, n);
    assert InGroups(gs, gs[i].st.ino);
    if o.renumber { NumberedLink(es, gs, next, i, gs'); }
  }

  lemma GivenNew(fs: FileSystem, o: Options, names: seq<CString>, gs: seq<Group>, es: seq<Entry>, next: nat, g: Group, n: CString,
                 next': nat)
    requires InodesGiven(fs, o, names, gs, es, next) && Remembered(fs, o, names, gs)
    requires Inode(fs, n) == g.st.ino && forall k :: 0 <= k < |gs| ==> gs[k].st.ino != g.st.ino
    requires if o.renumber then next' == next + 1 && g.mapped == next' else next' == next
    ensures InodesGiven(fs, o, names + [n], [g] + gs, es, next')
  {
    hide Hard, Inode, Seen, Numbered, Readable, LinksReadable, Firsts;
    NumbersMore(fs, names, n);
    assert !InGroups(gs, g.st.ino);
    if o.renumber { NumberedNew(es, gs, next, g, next'); }
  }

  lemma NamesMore(names: seq<CString>, n: CString, fs: FileSystem)
    ensures multiset(names + [n]) == multiset(names) + multiset{n}
    ensures PlainNames(fs, names + [n]) == PlainNames(fs, names) + (if Hard(fs, n) then [] else [n])
  {
    assert (names + [n])[..|names|] == names;
  }

  lemma PlainStep(fs: FileSystem, o: Options, names: seq<CString>, gs: seq<Group>, es: seq<Entry>, next: nat, e: Entry, next': nat)
    requires Progress(fs, o, names, gs, es, next) && Shows(fs, o, e) && !Hard(fs, e.name)
    requires if o.renumber then next' == next + 1 && e.st.ino == next' else next' == next && e.st.ino == Inode(fs, e.name)
    ensures Progress(fs, o, names + [e.name], gs, es + [e], next')
  {
    hide Shows, Hard, Inode, GroupsOk, GroupNames, PlainNames, Remembered, InodesGiven;
    GivenPlain(fs, o, names, gs, es, next, e, next');
    RememberedPlain(fs, o, names, gs, e.name);
    NamesMore(names, e.name, fs);
    NamesAppend(es, [e]);
    assert NamesOf([e]) == [e.name];
    PlainMultiset(NamesOf(es), e.name);
  }

  lemma PlainMultiset(ns: seq<CString>, n: CString)
    ensures multiset(ns + [n]) == multiset(ns) + multiset{n}
  {
  }

  /** A further name of a remembered inode. */
  lemma LinkStep(fs: FileSystem, o: Options, names: seq<CString>, gs: seq<Group>, es: seq<Entry>, next: nat, i: nat, name: CString,
                 gs': seq<Group>)
    requires Progress(fs, o, names, gs, es, next) && i < |gs| && Hard(fs, name) && Inode(fs, name) == gs[i].st.ino
    requires gs' == gs[i := gs[i].(names := [name] + gs[i].names)]
    ensures Progress(fs, o, names + [name], gs', es, next)
  {
    hide Shows, PlainNames, Hard, Inode, GroupNames, Normal, Remembered, InodesGiven;
    NamesMore(names, name, fs);
    assert GroupOk(fs, o, gs[i]);
    GivenLink(fs, o, names, gs, es, next, i, name, gs');
    RememberedLink(fs, o, names, gs, i, name, gs');
    GroupNamesUpdate(gs, i, gs'[i], name);
    LinkGroups(fs, o, gs, i, name, gs');
  }

  lemma LinkGroups(fs: FileSystem, o: Options, gs: seq<Group>, i: nat, name: CString, gs': seq<Group>)
    requires GroupsOk(fs, o, gs) && i < |gs| && Hard(fs, name) && Inode(fs, name) == gs[i].st.ino
    requires gs' == gs[i := gs[i].(names := [name] + gs[i].names)]
    ensures GroupsOk(fs, o, gs')
  {
    hide Hard, Inode, Normal;
    forall k | 0 <= k < |gs'|
      ensures GroupOk(fs, o, gs'[k])
    {
      assert GroupOk(fs, o, gs[k]);
    }
  }

  /** The first name of an inode. */
  lemma NewLinkStep(fs: FileSystem, o: Options, names: seq<CString>, gs: seq<Group>, es: seq<Entry>, next: nat, g: Group, next': nat,
                    name: CString)
    requires Progress(fs, o, names, gs, es, next) && GroupOk(fs, o, g) && g.names == [name]
    requires forall k :: 0 <= k < |gs| ==> gs[k].st.ino != g.st.ino
    requires if o.renumber then next' == next + 1 && g.mapped == next' else next' == next
    ensures Progress(fs, o, names + [name], [g] + gs, es, next')
  {
    hide Shows, PlainNames, Hard, Inode, Normal, Remembered, InodesGiven, GroupsOk, GroupNames, Given;
    NewGroups(fs, o, names, gs, es, next, g, next', name);
    GivenNew(fs, o, names, gs, es, next, g, name, next');
    RememberedNew(fs, o, names, gs, g, name);
    NamesMore(names, name, fs);
    GroupNamesNew(gs, g, name);
  }

  lemma GroupNamesNew(gs: seq<Group>, g: Group, name: CString)
    requires g.names == [name]
    ensures GroupNames([g] + gs) == GroupNames(gs) + multiset{name}
  {
    assert ([g] + gs)[1..] == gs;
  }

  lemma NewGroups(fs: FileSystem, o: Options, names: seq<CString>, gs: seq<Group>, es: seq<Entry>, next: nat, g: Group, next': nat,
                  name: CString)
    requires GroupsOk(fs, o, gs) && InodesGiven(fs, o, names, gs, es, next) && GroupOk(fs, o, g) && g.names == [name]
    requires forall k :: 0 <= k < |gs| ==> gs[k].st.ino != g.st.ino
    requires o.renumber ==> next' == next + 1 && g.mapped == next'
    ensures GroupsOk(fs, o, [g] + gs) && Hard(fs, name) && Inode(fs, name) == g.st.ino
  {
    hide Hard, Inode, Normal, Given, NumbersNeeded;
    var gs' := [g] + gs;
    assert Hard(fs, g.names[0]) && Inode(fs, g.names[0]) == g.st.ino;
    forall k | 0 <= k < |gs'|
      ensures GroupOk(fs, o, gs'[k])
    {
      if k > 0 { assert GroupOk(fs, o, gs[k - 1]); }
    }
  }

  // ----- the archive

  ghost predicate Conserves(fs: FileSystem, o: Options, names: seq<CString>, es: seq<Entry>, k0: nat) {
    && k0 <= |es|
    // each name is emitted as often as it was read; those that are no hard links in their order
    && multiset(NamesOf(es)) == multiset(names)
    && NamesOf(es[..k0]) == PlainNames(fs, names) && (forall k :: 0 <= k < k0 ==> Shows(fs, o, es[k]))
    // hard links come last, inode by inode, and each inode has its data once
    && (forall k :: k0 <= k < |es| ==> Hard(fs, es[k].name))
    && NamesOf(es[k0..]) == Flat(ByInode(fs, names)) && Grouped(fs, es[k0..]) && DataOnLast(fs, o, names, es[k0..])
    // new inode numbers tell apart what is different, and only that
    && (o.renumber ==> forall p, q :: 0 <= p < |es| && 0 <= q < |es| ==>
          (es[p].st.ino == es[q].st.ino <==> p == q || SameLink(fs, es, k0, p, q)))
    && (if o.renumber then NumbersAre(es, NumbersNeeded(fs, names)) else OwnInodes(fs, es))
  }

  /** The inode numbers are those from 1 to n. */
  ghost predicate NumbersAre(es: seq<Entry>, n: nat) {
    && (forall p :: 0 <= p < |es| ==> 1 <= es[p].st.ino <= n)
    && (forall v: nat :: 1 <= v <= n ==> HasNumber(es, v))
  }

  ghost predicate HasNumber(es: seq<Entry>, v: nat) {
    exists p :: 0 <= p < |es| && es[p].st.ino == v
  }

  predicate SameLink(fs: FileSystem, es: seq<Entry>, k0: nat, p: nat, q: nat)
    requires p < |es| && q < |es|
  {
    p >= k0 && q >= k0 && Inode(fs, es[p].name) == Inode(fs, es[q].name)
  }

  lemma DrainedHard(fs: FileSystem, o: Options, gs: seq<Group>)
    requires GroupsOk(fs, o, gs)
    ensures forall p :: 0 <= p < |Drained(fs, o, gs)| ==> Hard(fs, Drained(fs, o, gs)[p].name)
  {
    hide Hard, GroupsOk, Inode;
    forall p | 0 <= p < |Drained(fs, o, gs)|
      ensures Hard(fs, Drained(fs, o, gs)[p].name)
    {
      var k, n := EntryGroup(fs, o, gs, p);
    }
  }

  /** The numbers of plain entries are not those of remembered ones. */
  lemma NumbersApart(fs: FileSystem, o: Options, es: seq<Entry>, gs: seq<Group>, next: nat, p: nat)
    requires GroupsOk(fs, o, gs) && o.renumber && Numbered(es, gs, next) && p < |Drained(fs, o, gs)|
    ensures forall k :: 0 <= k < |es| ==> es[k].st.ino != Drained(fs, o, gs)[p].st.ino
  {
    hide Hard, Inode, LinkEntry;
    var k, n := EntryGroup(fs, o, gs, p);
    NumbersOfTwo(fs, o, gs, k, n, k, n);
  }

  lemma AllNumbers(fs: FileSystem, o: Options, es: seq<Entry>, gs: seq<Group>, next: nat, all: seq<Entry>, p: nat, q: nat)
    requires GroupsOk(fs, o, gs) && o.renumber && Numbered(es, gs, next) && all == es + Drained(fs, o, gs)
    requires p < |all| && q < |all|
    ensures all[p].st.ino == all[q].st.ino <==> p == q || SameLink(fs, all, |es|, p, q)
  {
    hide Inode, GroupsOk, Drained;
    var k0 := |es|;
    DrainedNumbers(fs, o, gs);
    if p >= k0 && q < k0 { NumbersApart(fs, o, es, gs, next, p - k0); }
    if p < k0 && q >= k0 { NumbersApart(fs, o, es, gs, next, q - k0); }
  }

  lemma FirstsNow(fs: FileSystem, o: Options, names: seq<CString>, gs: seq<Group>)
    requires Remembered(fs, o, names, gs)
    ensures Firsts(fs, names, gs) && NameLists(gs) == ByInode(fs, names)
  {
    hide Firsts, NameLists, ByInode;
  }

  lemma OwnAll(fs: FileSystem, o: Options, es: seq<Entry>, gs: seq<Group>)
    requires GroupsOk(fs, o, gs) && !o.renumber && OwnInodes(fs, es)
    ensures OwnInodes(fs, es + Drained(fs, o, gs))
  {
    hide Hard, Inode, LinkEntry;
    var t := Drained(fs, o, gs);
    forall p | 0 <= p < |t|
      ensures t[p].st.ino == Inode(fs, t[p].name)
    {
      var k, n := EntryGroup(fs, o, gs, p);
      OwnInode(fs, o, gs, k, n);
    }
  }

  lemma OwnInode(fs: FileSystem, o: Options, gs: seq<Group>, k: nat, n: nat)
    requires GroupsOk(fs, o, gs) && !o.renumber && k < |gs| && n < |gs[k].names|
    ensures var e := LinkEntry(fs, o, gs[k], gs[k].names[n], n == |gs[k].names| - 1);
      e.st.ino == gs[k].st.ino && e.name == gs[k].names[n]
  {
    hide Hard, Inode, Normal, DataFor;
    assert GroupOk(fs, o, gs[k]);
  }

  /** Each remembered inode has an entry. */
  lemma {:induction false} DrainedGroup(fs: FileSystem, o: Options, gs: seq<Group>, k: nat)
    requires GroupsOk(fs, o, gs) && o.renumber && k < |gs|
    ensures HasNumber(Drained(fs, o, gs), gs[k].mapped)
    decreases gs
  {
    hide Hard, Inode, LinkEntry, GroupEntries;
    var t := Drained(fs, o, gs);
    assert GroupOk(fs, o, gs[0]);
    if k == 0 {
      HeadInode(fs, o, gs, 0);
      NumbersOfTwo(fs, o, gs, 0, 0, 0, 0);
      assert t[0].st.ino == gs[0].mapped;
    } else {
      TailOk(fs, o, gs);
      DrainedGroup(fs, o, gs[1..], k - 1);
      var rest := Drained(fs, o, gs[1..]);
      var p :| 0 <= p < |rest| && rest[p].st.ino == gs[k].mapped;
      assert t[|gs[0].names| + p] == rest[p];
    }
  }

  lemma GivenHas(fs: FileSystem, o: Options, es: seq<Entry>, gs: seq<Group>, v: nat)
    requires GroupsOk(fs, o, gs) && o.renumber && Given(es, gs, v)
    ensures HasNumber(es + Drained(fs, o, gs), v)
  {
    hide GroupsOk, Drained;
    var t := Drained(fs, o, gs);
    var all := es + t;
    if k :| 0 <= k < |es| && es[k].st.ino == v {
      assert all[k] == es[k];
    } else {
      var k :| 0 <= k < |gs| && gs[k].mapped == v;
      DrainedGroup(fs, o, gs, k);
      var p :| 0 <= p < |t| && t[p].st.ino == v;
      assert all[|es| + p] == t[p];
    }
  }

  /** The numbers given are those of the entries. */
  lemma NumbersFit(fs: FileSystem, o: Options, es: seq<Entry>, gs: seq<Group>, next: nat)
    requires GroupsOk(fs, o, gs) && o.renumber && Numbered(es, gs, next)
    ensures NumbersAre(es + Drained(fs, o, gs), next)
  {
    hide Hard, Inode, LinkEntry, Drained, GroupsOk, Given, HasNumber;
    var t := Drained(fs, o, gs);
    forall p | 0 <= p < |t|
      ensures 1 <= t[p].st.ino <= next
    {
      var k, n := EntryGroup(fs, o, gs, p);
      NumbersOfTwo(fs, o, gs, k, n, k, n);
    }
    forall v: nat | 1 <= v <= next
      ensures HasNumber(es + t, v)
    {
      GivenHas(fs, o, es, gs, v);
    }
  }

  lemma AllConserved(fs: FileSystem, o: Options, names: seq<CString>, gs: seq<Group>, es: seq<Entry>, next: nat, all: seq<Entry>)
    requires Progress(fs, o, names, gs, es, next) && Readable(fs, gs) && all == es + Drained(fs, o, gs)
    ensures Conserves(fs, o, names, all, |es|)
  {
    hide Hard, Shows, Drained, Inode, GroupsOk, Grouped, DataOnLast, Readable, PlainNames, GroupNames, Numbered,
      SameLink, Remembered, OwnInodes, Firsts, NumbersAre, NumbersNeeded, NameLists, ByInode, Flat;
    assert all[..|es|] == es && all[|es|..] == Drained(fs, o, gs);
    DrainedNames(fs, o, gs);
    DrainedHard(fs, o, gs);
    DrainedGrouped(fs, o, gs);
    FirstsNow(fs, o, names, gs);
    DrainedOrder(fs, o, gs);
    DrainedData(fs, o, names, gs);
    NamesAppend(es, Drained(fs, o, gs));
    if !o.renumber {
      OwnAll(fs, o, es, gs);
    } else {
      NumbersFit(fs, o, es, gs, next);
      forall p, q | 0 <= p < |all| && 0 <= q < |all|
        ensures all[p].st.ino == all[q].st.ino <==> p == q || SameLink(fs, all, |es|, p, q)
      {
        AllNumbers(fs, o, es, gs, next, all, p, q);
      }
    }
  }

  const NO_STAT := Stat(0, 0, 0, 0, 0, 0, 0, 0, 0, 0, 0)

  function TrailerEntry(): Entry {
    Entry(NO_STAT, TRAILER, "")
  }

  class Archiver {
    const fs: FileSystem
    const o: Options
    var out: string
    var bytes: nat
    var links: seq<Group>
    var nextInode: nat
    ghost var entries: seq<Entry>

    constructor (fs: FileSystem, o: Options)
      ensures this.fs == fs && this.o == o && links == [] && nextInode == 0 && entries == [] && Aligned()
    {
      this.fs, this.o := fs, o;
      out, bytes, links, nextInode, entries := "", 0, [], 0, [];
    }

    /** The bytes are counted right, and are those of the entries, each of which ends at a multiple of four. */
    ghost predicate Aligned()
      reads this
    {
      bytes == |out| && out == Archive(entries)
    }

    /** cpio_pad4 */
    method Pad4()
      requires bytes == |out|
      modifies this`out, this`bytes
      ensures bytes == |out| && out == old(out) + Zeros4(|old(out)|)
    {
      var i := (4 - bytes % 4) % 4;
      ghost var n := i;
      bytes := bytes + i;
      while i > 0
        invariant 0 <= i <= n && bytes == |old(out)| + n && out == old(out) + Zeros4(|old(out)|)[..n - i]
      {
        out := out + "\0";
        i := i - 1;
        assert Zeros4(|old(out)|)[..n - i] == Zeros4(|old(out)|)[..n - i - 1] + "\0";
      }
      assert Zeros4(|old(out)|)[..n] == Zeros4(|old(out)|);
    }

    /** The header and the name. */
    method PutHeader(st: Stat, name: CString)
      requires Aligned()
      modifies this`out, this`bytes
      ensures bytes == |out| && out == old(out) + Padded4(Header(st, name))
    {
      hide Header, Archive, Zeros4;
      ghost var start := out;
      var header := Header(st, name);
      out := out + header;
      bytes := bytes + |header|;
      Pad4();
      SameZeros(start, header);
      assert start + header + Zeros4(|header|) == start + (header + Zeros4(|header|));
    }

    /** The data, if they can be read. */
    method PutData(name: CString, st: Stat) returns (ok: bool, ghost data: string)
      requires bytes == |out| && |out| % 4 == 0
      modifies this`out, this`bytes
      ensures ok <==> DataFor(fs(name), st).Some?
      ensures ok ==> DataFor(fs(name), st) == Some(data) && bytes == |out| && out == old(out) + Padded4(data)
    {
      ghost var middle := out;
      ok, data := true, "";
      var content: string := "";
      if st.size != 0 {
        if fs(name) == None || fs(name).value.content == None { return false, ""; }
        content := fs(name).value.content.value;
        if !IsLnk(st) {
          if |content| < st.size { return false, ""; }
          content := content[..st.size];
        }
        out := out + content;
        bytes := bytes + |content|;
        Pad4();
      }
      data := content;
      PadData(middle, data, out);
    }

    /** Prints the header, the name and the data. */
    method Emit(st0: Stat, name: CString) returns (ok: bool)
      requires Aligned()
      modifies this`out, this`bytes, this`entries
      ensures ok <==> DataFor(fs(name), st0).Some?
      ensures ok ==> Aligned() && entries == old(entries) + [Entry(Shown(st0, o), name, DataFor(fs(name), st0).value)]
    {
      hide Header, Archive, Padded4, DataFor, Shown;
      ghost var start := out;
      var st := Shown(st0, o);
      ShownData(fs(name), st0, o);
      PutHeader(st, name);
      ghost var header := Padded4(Header(st, name));
      ghost var data;
      EndsAligned(entries, Header(st, name));
      ok, data := PutData(name, st);
      if ok {
        ghost var e := Entry(st, name, data);
        ArchiveMore(entries, e);
        EntryParts(e);
        assert start + header + Padded4(data) == start + (header + Padded4(data));
        entries := entries + [e];
      }
    }

    /** Stores a hard link for later. */
    method Remember(st: Stat, name: CString, ghost names: seq<CString>)
      requires Progress(fs, o, names, links, entries, nextInode)
      requires fs(name).Some? && Hard(fs, name) && st == Normal(fs(name).value.st, o)
      modifies this`links, this`nextInode
      ensures Progress(fs, o, names + [name], links, entries, nextInode)
    {
      hide Progress, Hard, Normal, GroupOk;
      NormalIno(fs(name), st, o);
      var l := 0;
      while l < |links| && links[l].st.ino != st.ino
        invariant 0 <= l <= |links| && forall k :: 0 <= k < l ==> links[k].st.ino != st.ino
      {
        l := l + 1;
      }
      ghost var gs, next := links, nextInode;
      if l == |links| {
        var mapped := 0;
        if o.renumber {
          nextInode := nextInode + 1;
          mapped := nextInode;
        }
        // the name is added at once
        var g := Group(st, [name], mapped);
        links := [g] + links;
        NewGroupOk(fs, o, g, name);
        NewLinkStep(fs, o, names, gs, entries, next, g, nextInode, name);
      } else {
        links := links[l := links[l].(names := [name] + links[l].names)];
        LinkStep(fs, o, names, gs, entries, next, l, name, links);
      }
    }

    /** One line of input. */
    method TakeLine(line: CString, ghost names: seq<CString>) returns (ok: bool)
      requires Aligned() && Progress(fs, o, names, links, entries, nextInode)
      modifies this
      ensures ok <==> Stripped(line) == "" || NameReadable(fs, o, Stripped(line))
      ensures ok ==> Aligned()
      ensures ok ==> Progress(fs, o, names + (if Stripped(line) == "" then [] else [Stripped(line)]), links, entries, nextInode)
    {
      hide Progress, Archive, Normal, Shown, DataFor, StandsFor;
      var name := Strip(line);
      StrippedIs(line, name);
      if name == "" {
        assert names + [] == names;
        return true;
      }
      if fs(name) == None { return false; }
      var st := Normal(fs(name).value.st, o);
      NormalKeeps(fs(name).value, st, o);
      if !IsDir(st) && st.nlink > 1 {
        Remember(st, name, names);
        return true;
      }
      ghost var next, es := nextInode, entries;
      var st' := st;
      if o.renumber {
        nextInode := nextInode + 1;
        st' := st.(ino := nextInode);
      }
      NumberNoData(fs(name), st, st');
      NormalIno(fs(name), st, o);
      ok := Emit(st', name);
      if ok {
        PlainShows(fs, o, name, st, st', entries[|entries| - 1]);
        PlainStep(fs, o, names, links, es, next, entries[|entries| - 1], nextInode);
      }
    }

    /** Takes the next remembered name and outputs it. */
    method TakeLink(ghost gs: seq<Group>, ghost all: seq<Entry>) returns (ok: bool)
      requires Aligned() && links != [] && GroupsOk(fs, o, links)
      requires entries + Drained(fs, o, links) == all && (Readable(fs, links) <==> Readable(fs, gs))
      modifies this
      ensures ok ==> Aligned() && GroupsOk(fs, o, links)
      ensures ok ==> entries + Drained(fs, o, links) == all && (Readable(fs, links) <==> Readable(fs, gs))
      ensures !ok ==> !Readable(fs, gs)
      ensures Left(links) < Left(old(links))
    {
      hide Archive, DataFor, Shown, Readable, GroupsOk, Drained;
      ghost var was := links;
      GroupsHead(fs, o, links);
      var st := links[0].st;
      var name := links[0].names[0];
      if links[0].mapped != 0 {
        st := st.(ino := links[0].mapped);
      }
      var rest := links[0].names[1..];
      if rest == [] {
        links := links[1..];
      } else {
        links := [links[0].(names := rest)] + links[1..];
        st := st.(size := 0);
      }
      ghost var es := entries;
      DrainOne(fs, o, was, links, st, name);
      ReadableMore(fs, was, links, st, name);
      ok := Emit(st, name);
      if ok {
        Reassoc(es, [entries[|es|]], Drained(fs, o, links));
      }
    }

    /** The whole of cpio_o: if nothing stops it, the archive holds each name, its data, and the trailer. */
    method CpioO(lines: seq<CString>) returns (ok: bool, ghost es: seq<Entry>, ghost plain: nat)
      requires links == [] && nextInode == 0 && entries == [] && Aligned()
      modifies this
      ensures ok <==> forall k :: 0 <= k < |NamesOfLines(lines)| ==> GoodName(fs, NamesOfLines(lines), k)
      ensures ok ==> out == Archive(es + [TrailerEntry()]) && bytes == |out|
      ensures ok ==> Conserves(fs, o, NamesOfLines(lines), es, plain)
      ensures ok ==> forall k :: 0 <= k < |es| ==> es[k].name != "" && !BeginsDotSlash(es[k].name)
    {
      hide Progress, Archive, Conserves, Readable, Drained, Stripped, NameReadable, LinksReadable, GoodName;
      es, plain := [], 0;
      GoodNames(fs, o, NamesOfLines(lines));
      ghost var names: seq<CString> := [];
      NothingYet(fs, o);
      var i := 0;
      assert lines[..0] == [];
      while i < |lines|
        invariant 0 <= i <= |lines| && names == NamesOfLines(lines[..i])
        invariant Aligned() && Progress(fs, o, names, links, entries, nextInode)
        invariant forall k :: 0 <= k < |names| ==> NameReadable(fs, o, names[k])
      {
        ok := TakeLine(lines[i], names);
        LinesMore(lines, i, i + 1);
        if !ok {
          NotReadable(fs, o, lines, i + 1, names, Stripped(lines[i]));
          return;
        }
        names := NamesOfLines(lines[..i + 1]);
        i := i + 1;
      }
      assert lines[..i] == lines;
      ghost var gs, es0, next := links, entries, nextInode;
      ghost var all := es0 + Drained(fs, o, gs);
      ProgressGroups(fs, o, names, gs, es0, next);
      assert names == NamesOfLines(lines);
      while links != []
        invariant Aligned() && GroupsOk(fs, o, links)
        invariant entries + Drained(fs, o, links) == all && (Readable(fs, links) <==> Readable(fs, gs))
        decreases Left(links)
      {
        ok := TakeLink(gs, all);
        if !ok { return; }
      }
      NothingDrained(fs, o, entries);
      AllConserved(fs, o, names, gs, es0, next, all);
      es, plain := entries, |es0|;
      EntriesClean(fs, o, lines, es, plain);
      TrailerShown(fs, o);
      ok := Emit(NO_STAT, TRAILER);
    }
  }

  /** How many remembered names are left. */
  function Left(gs: seq<Group>): nat {
    if gs == [] then 0 else 1 + |gs[0].names| + Left(gs[1..])
  }

  /** The device numbers do not matter to the data. */
  lemma ShownData(f: Option<File>, st: Stat, o: Options)
    ensures DataFor(f, Shown(st, o)) == DataFor(f, st)
  {
  }

  lemma EntryParts(e: Entry)
    ensures EntryBytes(e) == Padded4(Header(e.st, e.name)) + Padded4(e.data)
  {
    hide Header, Padded4;
  }

  lemma EndsAligned(es: seq<Entry>, header: string)
    ensures |Archive(es) + Padded4(header)| % 4 == 0
  {
    hide Archive, Padded4;
    Fours(Archive(es), Padded4(header));
  }

  lemma PadData(middle: string, data: string, out: string)
    requires |middle| % 4 == 0
    requires data == "" ==> out == middle || out == middle + data + Zeros4(|middle + data|)
    requires data != "" ==> out == middle + data + Zeros4(|middle + data|)
    ensures out == middle + Padded4(data)
  {
    hide Zeros4;
    SameZeros(middle, data);
    if data == "" {
      NoPadding();
      assert middle + data == middle && middle + Padded4(data) == middle;
    }
    assert middle + data + Zeros4(|data|) == middle + (data + Zeros4(|data|));
  }

  lemma SameZeros(middle: string, data: string)
    requires |middle| % 4 == 0
    ensures Zeros4(|middle + data|) == Zeros4(|data|)
  {
  }

  lemma NoPadding()
    ensures Padded4("") == "" && Zeros4(0) == ""
  {
  }

  lemma NormalIno(f: Option<File>, st: Stat, o: Options)
    requires f.Some? && st == Normal(f.value.st, o)
    ensures st.ino == f.value.st.ino
  {
  }

  lemma NormalKeeps(f: File, st: Stat, o: Options)
    requires st == Normal(f.st, o)
    ensures (!IsDir(st) && st.nlink > 1) <==> f.st.nlink > 1 && f.st.mode / 0x1000 % 16 != 4
  {
  }

  lemma NewGroupOk(fs: FileSystem, o: Options, g: Group, name: CString)
    requires g.names == [name] && Hard(fs, name) && g.st == Normal(fs(name).value.st, o) && g.st.ino == Inode(fs, name)
    requires if o.renumber then g.mapped > 0 else g.mapped == 0
    ensures GroupOk(fs, o, g)
  {
  }

  lemma PlainShows(fs: FileSystem, o: Options, name: CString, st: Stat, st': Stat, e: Entry)
    requires fs(name).Some? && st == Normal(fs(name).value.st, o) && st' == st.(ino := st'.ino)
    requires DataFor(fs(name), st').Some? && e == Entry(Shown(st', o), name, DataFor(fs(name), st').value)
    ensures Shows(fs, o, e) && e.st.ino == st'.ino
  {
    hide Normal, Describes;
    ShowsIs(fs, o, e);
  }

  lemma GroupsHead(fs: FileSystem, o: Options, gs: seq<Group>)
    requires GroupsOk(fs, o, gs) && gs != []
    ensures gs[0].names != [] && GroupOk(fs, o, gs[0])
  {
    assert GroupOk(fs, o, gs[0]);
  }

  /** One name fewer is remembered, and its entry is next. */
  lemma DrainOne(fs: FileSystem, o: Options, gs: seq<Group>, gs': seq<Group>, st: Stat, name: CString)
    requires GroupsOk(fs, o, gs) && gs != [] && gs[0].names != [] && name == gs[0].names[0]
    requires gs' == if |gs[0].names| == 1 then gs[1..] else [gs[0].(names := gs[0].names[1..])] + gs[1..]
    requires var s := if gs[0].mapped != 0 then gs[0].st.(ino := gs[0].mapped) else gs[0].st;
      st == if |gs[0].names| == 1 then s else s.(size := 0)
    ensures GroupsOk(fs, o, gs') && Left(gs') < Left(gs)
    ensures DataFor(fs(name), st).Some? ==>
              Drained(fs, o, gs) == [Entry(Shown(st, o), name, DataFor(fs(name), st).value)] + Drained(fs, o, gs')
  {
    hide Hard, Inode, Normal, Shown, GroupOk, LinkEntry, GroupsOk, Drained, DataFor;
    var g := gs[0];
    TailOk(fs, o, gs);
    GroupsHead(fs, o, gs);
    FirstLink(fs, o, g, st, name, |g.names| == 1);
    if |g.names| == 1 {
      DrainLast(fs, o, gs);
    } else {
      var h := g.(names := g.names[1..]);
      ShorterOk(fs, o, g, h);
      ShorterGroups(fs, o, gs, gs', h);
      DrainMore(fs, o, gs, gs', h);
    }
  }

  lemma DrainLast(fs: FileSystem, o: Options, gs: seq<Group>)
    requires gs != [] && |gs[0].names| == 1
    ensures Drained(fs, o, gs) == [LinkEntry(fs, o, gs[0], gs[0].names[0], true)] + Drained(fs, o, gs[1..])
  {
    hide LinkEntry;
    var g := gs[0];
    assert g.names[1..] == [];
    assert GroupEntries(fs, o, g, g.names) == [LinkEntry(fs, o, g, g.names[0], true)];
  }

  lemma DrainMore(fs: FileSystem, o: Options, gs: seq<Group>, gs': seq<Group>, h: Group)
    requires gs != [] && |gs[0].names| > 1 && h == gs[0].(names := gs[0].names[1..]) && gs' == [h] + gs[1..]
    ensures Drained(fs, o, gs) == [LinkEntry(fs, o, gs[0], gs[0].names[0], false)] + Drained(fs, o, gs')
  {
    hide LinkEntry;
    var g := gs[0];
    assert gs'[1..] == gs[1..] && gs'[0] == h;
    SameLinks(fs, o, g, h, h.names);
    Reassoc([LinkEntry(fs, o, g, g.names[0], false)], GroupEntries(fs, o, g, h.names), Drained(fs, o, gs[1..]));
  }

  lemma FirstLink(fs: FileSystem, o: Options, g: Group, st: Stat, name: CString, last: bool)
    requires var s := if g.mapped != 0 then g.st.(ino := g.mapped) else g.st;
      st == if last then s else s.(size := 0)
    ensures DataFor(fs(name), st).Some? ==>
              LinkEntry(fs, o, g, name, last) == Entry(Shown(st, o), name, DataFor(fs(name), st).value)
    ensures last ==> DataFor(fs(name), g.st) == DataFor(fs(name), st)
  {
  }

  lemma ShorterOk(fs: FileSystem, o: Options, g: Group, h: Group)
    requires GroupOk(fs, o, g) && |g.names| > 1 && h == g.(names := g.names[1..])
    ensures GroupOk(fs, o, h)
  {
    hide Hard, Inode, Normal;
  }

  lemma ShorterGroups(fs: FileSystem, o: Options, gs: seq<Group>, gs': seq<Group>, h: Group)
    requires GroupsOk(fs, o, gs) && gs != [] && GroupOk(fs, o, h) && h.st == gs[0].st && h.mapped == gs[0].mapped
    requires gs' == [h] + gs[1..]
    ensures GroupsOk(fs, o, gs')
  {
    hide GroupOk;
    forall k | 0 <= k < |gs'|
      ensures GroupOk(fs, o, gs'[k])
    {
      if k > 0 { assert gs'[k] == gs[k]; }
    }
  }

  lemma {:induction false} SameLinks(fs: FileSystem, o: Options, g: Group, h: Group, names: seq<CString>)
    requires h.st == g.st && h.mapped == g.mapped
    ensures GroupEntries(fs, o, g, names) == GroupEntries(fs, o, h, names)
    decreases names
  {
    if names != [] { SameLinks(fs, o, g, h, names[1..]); }
  }

  /** If this name's data can be read, all that was remembered can be read if the rest can; if not, it cannot. */
  lemma ReadableMore(fs: FileSystem, gs: seq<Group>, gs': seq<Group>, st: Stat, name: CString)
    requires gs != [] && gs[0].names != [] && name == gs[0].names[0]
    requires gs' == if |gs[0].names| == 1 then gs[1..] else [gs[0].(names := gs[0].names[1..])] + gs[1..]
    requires var s := if gs[0].mapped != 0 then gs[0].st.(ino := gs[0].mapped) else gs[0].st;
      st == if |gs[0].names| == 1 then s else s.(size := 0)
    ensures Readable(fs, gs) <==> Readable(fs, gs') && DataFor(fs(name), st).Some?
  {
    ReadableHead(fs, gs);
    if |gs[0].names| == 1 {
      NumberNoData(fs(name), gs[0].st, st);
    } else {
      ReadableHead(fs, gs');
      assert gs'[1..] == gs[1..] && gs'[0].names[|gs'[0].names| - 1] == gs[0].names[|gs[0].names| - 1];
    }
  }

  /** A new inode number changes nothing about the data. */
  lemma NumberNoData(f: Option<File>, a: Stat, b: Stat)
    requires b.size == a.size && b.mode == a.mode
    ensures DataFor(f, a) == DataFor(f, b)
  {
  }

  lemma ReadableHead(fs: FileSystem, gs: seq<Group>)
    requires gs != [] && gs[0].names != []
    ensures Readable(fs, gs) <==> Readable(fs, gs[1..]) && DataFor(fs(gs[0].names[|gs[0].names| - 1]), gs[0].st).Some?
  {
    hide DataFor;
    assert forall k :: 1 <= k < |gs| ==> gs[1..][k - 1] == gs[k];
    if Readable(fs, gs) { ReadableTail(fs, gs); }
  }

  lemma Reassoc(a: seq<Entry>, b: seq<Entry>, c: seq<Entry>)
    ensures a + b + c == a + (b + c)
  {
  }

  lemma NothingYet(fs: FileSystem, o: Options)
    ensures Progress(fs, o, [], [], [], 0)
  {
  }

  lemma LinesMore(lines: seq<CString>, i: nat, next: nat)
    requires next == i + 1 && i < |lines|
    ensures NamesOfLines(lines[..next]) == NamesOfLines(lines[..i]) + (if Stripped(lines[i]) == "" then [] else [Stripped(lines[i])])
  {
    hide Stripped;
    assert lines[..next][..i] == lines[..i];
  }

  lemma ProgressGroups(fs: FileSystem, o: Options, names: seq<CString>, gs: seq<Group>, es: seq<Entry>, next: nat)
    requires Progress(fs, o, names, gs, es, next)
    ensures GroupsOk(fs, o, gs) && (Readable(fs, gs) <==> LinksReadable(fs, o, names))
  {
    hide GroupsOk, Readable, LinksReadable;
  }

  /** What has stopped the reading of names is among all of them. */
  lemma NotReadable(fs: FileSystem, o: Options, lines: seq<CString>, i: nat, names: seq<CString>, n: CString)
    requires i <= |lines| && NamesOfLines(lines[..i]) == names + [n] && !NameReadable(fs, o, n)
    ensures !AllReadable(fs, o, NamesOfLines(lines))
  {
    hide NameReadable, LinksReadable;
    NamesStay(lines, i);
    assert (names + [n])[|names|] == n;
    var all := NamesOfLines(lines);
    assert all[|names|] == n;
  }

  lemma {:induction false} NamesStay(lines: seq<CString>, i: nat)
    requires i <= |lines|
    ensures NamesOfLines(lines[..i]) <= NamesOfLines(lines)
    decreases |lines| - i
  {
    if i == |lines| {
      assert lines[..i] == lines;
    } else {
      NamesStay(lines, i + 1);
      LinesMore(lines, i, i + 1);
    }
  }

  lemma NothingDrained(fs: FileSystem, o: Options, es: seq<Entry>)
    ensures es + Drained(fs, o, []) == es && Readable(fs, [])
  {
  }

  lemma EntriesClean(fs: FileSystem, o: Options, lines: seq<CString>, es: seq<Entry>, plain: nat)
    requires Conserves(fs, o, NamesOfLines(lines), es, plain)
    ensures forall k :: 0 <= k < |es| ==> es[k].name != "" && !BeginsDotSlash(es[k].name)
  {
    hide Shows, Hard, Inode, Grouped, DataOnLast, NumbersAre, SameLink, NumbersNeeded, OwnInodes, PlainNames;
    NamesClean(lines);
    forall k | 0 <= k < |es|
      ensures es[k].name in NamesOfLines(lines)
    {
      assert NamesOf(es)[k] in multiset(NamesOf(es));
      assert es[k].name in multiset(NamesOfLines(lines));
    }
  }

  lemma TrailerShown(fs: FileSystem, o: Options)
    ensures Shown(NO_STAT, o) == NO_STAT && DataFor(fs(TRAILER), NO_STAT) == Some("")
  {
  }
}
