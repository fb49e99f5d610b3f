/** What an archive that cpio_o has made is good for. */
module CpioResults {
  import opened Optionals
  import opened Versions
  import opened CpioFormat
  import opened Cpio

  // ----- reading it back

  /** The name whose file an entry for n shows: its own, or the first that was read for its inode. */
  function ShownName(fs: FileSystem, names: seq<CString>, n: CString): CString {
    if Hard(fs, n) && FirstHard(fs, names, Inode(fs, n)).Some? then FirstHard(fs, names, Inode(fs, n)).value else n
  }

  /** What is shown of n fits into a header, its inode number apart: the numbers have 32 bits, a symbolic link is as
      long as it is said to be, and the name is not that of the trailer. */
  predicate FileFits(fs: FileSystem, o: Options, names: seq<CString>, n: CString) {
    var m := ShownName(fs, names, n);
    && fs(m).Some? && n != TRAILER && |n| < 0xffff_ffff
    && (var st := Normal(fs(m).value.st, o);
        && Fits(Shown(st, o).(ino := 0))
        && DataFor(fs(m), st).Some? && |DataFor(fs(m), st).value| == st.size)
  }

  /** A header is fit for a file exactly if the numbers but the inode's fit, and that one does. */
  lemma FitsParts(st: Stat)
    ensures Fits(st) <==> Fits(st.(ino := 0)) && st.ino < 0x1_0000_0000
  {
  }

  lemma ShownSize(st: Stat, o: Options)
    ensures Shown(st, o).size == st.size
  {
  }

  /** An entry with all there is about its own name. */
  lemma WholeEntryFits(fs: FileSystem, o: Options, names: seq<CString>, e: Entry)
    requires Shows(fs, o, e) && ShownName(fs, names, e.name) == e.name
    ensures EntryFits(e) && e.name != TRAILER <==> FileFits(fs, o, names, e.name) && e.st.ino < 0x1_0000_0000
  {
    hide Normal, Shown, DataFor, ShownName, Fits, Describes;
    ShowsIs(fs, o, e);
    FitsParts(e.st);
    ShownSize(Normal(fs(e.name).value.st, o), o);
  }

  /** From an entry for a hard link to the last one of its inode, which says the same, and has the data. */
  lemma {:induction false} LastOfInode(fs: FileSystem, o: Options, names: seq<CString>, t: seq<Entry>, p: nat) returns (q: nat)
    requires p < |t| && DataOnLast(fs, o, names, t)
    ensures p <= q < |t| && LastOf(fs, t, q) && Inode(fs, t[q].name) == Inode(fs, t[p].name)
    ensures Shows(fs, o, t[q]) && FirstHard(fs, names, Inode(fs, t[p].name)) == Some(t[q].name)
    ensures t[p].st.(size := 0) == t[q].st.(size := 0)
    ensures p != q ==> t[p].st.size == 0 && t[p].data == ""
    decreases |t| - p
  {
    hide Inode, Shows, FirstHard;
    assert DataAt(fs, o, names, t, p);
    if LastOf(fs, t, p) { q := p; } else { q := LastOfInode(fs, o, names, t, p + 1); }
  }

  lemma SizeFits(a: Stat, b: Stat)
    requires a.(size := 0) == b.(size := 0) && a.size == 0
    ensures Fits(b) ==> Fits(a)
  {
  }

  /** The entry for a hard link fits if its file does, and the file fits if the last entry of the inode does. */
  lemma LinkFits(fs: FileSystem, o: Options, names: seq<CString>, t: seq<Entry>, p: nat, q: nat)
    requires p < |t| && q < |t| && Hard(fs, t[p].name) && Hard(fs, t[q].name) && Inode(fs, t[q].name) == Inode(fs, t[p].name)
    requires Shows(fs, o, t[q]) && FirstHard(fs, names, Inode(fs, t[p].name)) == Some(t[q].name)
    requires t[p].st.(size := 0) == t[q].st.(size := 0) && (p != q ==> t[p].st.size == 0 && t[p].data == "")
    requires t[q].name != TRAILER && |t[q].name| < 0xffff_ffff
    ensures FileFits(fs, o, names, t[p].name) && t[p].st.ino < 0x1_0000_0000 ==> EntryFits(t[p]) && t[p].name != TRAILER
    ensures EntryFits(t[q]) && |t[p].name| < 0xffff_ffff && t[p].name != TRAILER ==> FileFits(fs, o, names, t[p].name)
  {
    hide Inode, Shows, FirstHard, Normal, Shown, DataFor, Hard, Fits;
    WholeEntryFits(fs, o, names, t[q]);
    if p != q { SizeFits(t[p].st, t[q].st); }
    assert ShownName(fs, names, t[p].name) == t[q].name == ShownName(fs, names, t[q].name);
  }

  lemma EmittedWhere(es: seq<Entry>, names: seq<CString>, n: CString) returns (p: nat)
    requires multiset(NamesOf(es)) == multiset(names) && n in names
    ensures p < |es| && es[p].name == n
  {
    assert n in multiset(names);
    assert n in NamesOf(es);
    p :| 0 <= p < |es| && NamesOf(es)[p] == n;
  }

  lemma ReadWhere(es: seq<Entry>, names: seq<CString>, p: nat)
    requires multiset(NamesOf(es)) == multiset(names) && p < |es|
    ensures es[p].name in names
  {
    assert NamesOf(es)[p] in multiset(NamesOf(es));
    assert es[p].name in multiset(names);
  }

  lemma {:induction false} PlainIsNotHard(fs: FileSystem, names: seq<CString>, n: CString)
    requires n in PlainNames(fs, names)
    ensures !Hard(fs, n)
  {
    hide Hard;
    if n in PlainNames(fs, names[..|names| - 1]) { PlainIsNotHard(fs, names[..|names| - 1], n); }
  }

  /** The inode numbers that an archive of the names has fit their fields. */
  ghost predicate InodesFit(fs: FileSystem, o: Options, names: seq<CString>) {
    if o.renumber then NumbersNeeded(fs, names) < 0x1_0000_0000
    else forall k :: 0 <= k < |names| ==> Inode(fs, names[k]) < 0x1_0000_0000
  }

  /** All files fit. */
  ghost predicate AllFit(fs: FileSystem, o: Options, names: seq<CString>) {
    && (forall k :: 0 <= k < |names| ==> FileFits(fs, o, names, names[k]))
    && InodesFit(fs, o, names)
  }

  ghost predicate EntriesFit(es: seq<Entry>) {
    forall p :: 0 <= p < |es| ==> EntryFits(es[p]) && es[p].name != TRAILER
  }

  /** What an entry at p shows: itself, or the last of its inode. */
  lemma WhatFits(fs: FileSystem, o: Options, names: seq<CString>, es: seq<Entry>, k0: nat, p: nat) returns (q: nat)
    requires Conserves(fs, o, names, es, k0) && p < |es|
    ensures q < |es|
    ensures FileFits(fs, o, names, es[p].name) && FileFits(fs, o, names, es[q].name) && es[p].st.ino < 0x1_0000_0000 ==>
              EntryFits(es[p]) && es[p].name != TRAILER
    ensures EntryFits(es[p]) && es[p].name != TRAILER && EntryFits(es[q]) && es[q].name != TRAILER ==>
              FileFits(fs, o, names, es[p].name)
  {
    hide Shows, Hard, Inode, FirstHard, Grouped, Fits, Normal, Shown, DataFor, DataOnLast;
    if p < k0 {
      q := p;
      assert NamesOf(es[..k0])[p] == es[p].name;
      PlainIsNotHard(fs, names, es[p].name);
      WholeEntryFits(fs, o, names, es[p]);
    } else {
      var t := es[k0..];
      var r := LastOfInode(fs, o, names, t, p - k0);
      q := k0 + r;
      if es[q].name != TRAILER && |es[q].name| < 0xffff_ffff { LinkFits(fs, o, names, t, p - k0, r); }
    }
  }

  /** An archive is read back if and only if all files fit. */
  lemma ArchiveReadsBack(fs: FileSystem, o: Options, names: seq<CString>, es: seq<Entry>, k0: nat)
    requires Conserves(fs, o, names, es, k0)
    ensures ReadArchive(Archive(es + [TrailerEntry()])) == Some(es + [TrailerEntry()]) <==> AllFit(fs, o, names)
  {
    hide Conserves, FileFits, EntryFits, ReadArchive, Archive, InodesFit;
    ConservesNames(fs, o, names, es, k0);
    TrailerFits();
    ReadsBack(es, TrailerEntry());
    InodesFitIff(fs, o, names, es, k0);
    if AllFit(fs, o, names) {
      forall p | 0 <= p < |es|
        ensures EntryFits(es[p]) && es[p].name != TRAILER
      {
        var q := WhatFits(fs, o, names, es, k0, p);
        ReadWhere(es, names, p);
        ReadWhere(es, names, q);
      }
    }
    if EntriesFit(es) {
      forall k | 0 <= k < |names|
        ensures FileFits(fs, o, names, names[k])
      {
        var p := EmittedWhere(es, names, names[k]);
        var q := WhatFits(fs, o, names, es, k0, p);
      }
      forall p | 0 <= p < |es|
        ensures es[p].st.ino < 0x1_0000_0000
      {
        InoFits(es[p]);
      }
    }
  }

  /** The inode numbers in the archive fit if and only if the files' own do or, if they are counted, there are fewer
      than 2^32 to give. */
  lemma InodesFitIff(fs: FileSystem, o: Options, names: seq<CString>, es: seq<Entry>, k0: nat)
    requires Conserves(fs, o, names, es, k0)
    ensures (forall p :: 0 <= p < |es| ==> es[p].st.ino < 0x1_0000_0000) <==> InodesFit(fs, o, names)
  {
    if o.renumber { CountedFit(fs, o, names, es, k0); } else { OwnFit(fs, o, names, es, k0); }
  }

  lemma CountedFit(fs: FileSystem, o: Options, names: seq<CString>, es: seq<Entry>, k0: nat)
    requires Conserves(fs, o, names, es, k0) && o.renumber
    ensures (forall p :: 0 <= p < |es| ==> es[p].st.ino < 0x1_0000_0000) <==> NumbersNeeded(fs, names) < 0x1_0000_0000
  {
    hide Shows, Hard, Inode, Grouped, DataOnLast, NumbersNeeded;
    var n := NumbersNeeded(fs, names);
    if n >= 0x1_0000_0000 { assert HasNumber(es, n); }
  }

  lemma OwnFit(fs: FileSystem, o: Options, names: seq<CString>, es: seq<Entry>, k0: nat)
    requires Conserves(fs, o, names, es, k0) && !o.renumber
    ensures (forall p :: 0 <= p < |es| ==> es[p].st.ino < 0x1_0000_0000) <==> InodesFit(fs, o, names)
  {
    hide Shows, Hard, Inode, Grouped, DataOnLast;
    forall p | 0 <= p < |es|
      ensures es[p].name in names && es[p].st.ino == Inode(fs, es[p].name)
    {
      ReadWhere(es, names, p);
    }
    forall k | 0 <= k < |names|
      ensures exists p :: 0 <= p < |es| && es[p].st.ino == Inode(fs, names[k])
    {
      var p := EmittedWhere(es, names, names[k]);
    }
  }

  lemma InoFits(e: Entry)
    requires EntryFits(e)
    ensures e.st.ino < 0x1_0000_0000
  {
  }

  lemma TrailerFits()
    ensures EntryFits(TrailerEntry())
  {
  }

  lemma ConservesNames(fs: FileSystem, o: Options, names: seq<CString>, es: seq<Entry>, k0: nat)
    requires Conserves(fs, o, names, es, k0)
    ensures multiset(NamesOf(es)) == multiset(names)
  {
    hide Shows, Hard, Inode, Grouped, DataOnLast;
  }

  // ----- files on different devices

  predicate SameFile(fs: FileSystem, a: CString, b: CString) {
    && fs(a).Some? && fs(b).Some?
    && fs(a).value.st.ino == fs(b).value.st.ino
    && fs(a).value.st.devMajor == fs(b).value.st.devMajor && fs(a).value.st.devMinor == fs(b).value.st.devMinor
  }

  /** Some entry has the data of the file that n is a hard link to, unless there are none. */
  ghost predicate Kept(fs: FileSystem, o: Options, es: seq<Entry>, n: CString) {
    fs(n).Some? && (Normal(fs(n).value.st, o).size == 0 ||
                    exists q :: 0 <= q < |es| && Carries(fs, es[q], n))
  }

  predicate Carries(fs: FileSystem, e: Entry, n: CString) {
    Hard(fs, e.name) && SameFile(fs, e.name, n) && e.st.size != 0
  }

  /** The first name that was read for n's inode number is one of the same file, on the same device, and has data. */
  predicate FirstIsSame(fs: FileSystem, o: Options, names: seq<CString>, n: CString) {
    var m := ShownName(fs, names, n);
    SameFile(fs, m, n) && Normal(fs(m).value.st, o).size != 0
  }

  /** cpio_o goes by the inode number alone. A hard-linked file keeps its data if and only if it has none, or the first
      name read for its inode number is a name of the same file. */
  lemma KeptIff(fs: FileSystem, o: Options, names: seq<CString>, es: seq<Entry>, k0: nat, n: CString)
    requires Conserves(fs, o, names, es, k0) && n in names && Hard(fs, n)
    ensures Kept(fs, o, es, n) <==> Normal(fs(n).value.st, o).size == 0 || FirstIsSame(fs, o, names, n)
  {
    hide Shows, Grouped, DataOnLast, FirstHard, Normal, NamesOf, NumbersAre, SameLink, NumbersNeeded;
    var t := es[k0..];
    var p := EmittedWhere(es, names, n);
    if p < k0 {
      assert NamesOf(es[..k0])[p] == n;
      PlainIsNotHard(fs, names, n);
    }
    var r := LastOfInode(fs, o, names, t, p - k0);
    SizeShown(fs, o, t[r]);
    if FirstIsSame(fs, o, names, n) { assert Carries(fs, es[k0 + r], n); }
    if q :| 0 <= q < |es| && Carries(fs, es[q], n) {
      if q < k0 {
        assert NamesOf(es[..k0])[q] == es[q].name;
        PlainIsNotHard(fs, names, es[q].name);
      }
      var u := LastOfInode(fs, o, names, t, q - k0);
      SizeShown(fs, o, t[u]);
    }
  }

  lemma SizeShown(fs: FileSystem, o: Options, e: Entry)
    requires Shows(fs, o, e)
    ensures fs(e.name).Some? && e.st.size == Normal(fs(e.name).value.st, o).size
  {
    hide Normal, DataFor, Describes;
    ShowsIs(fs, o, e);
    ShownSize(Normal(fs(e.name).value.st, o), o);
  }

  function OneByteOn(device: nat, content: string): Option<File> {
    Some(File(Stat(7, 0x8000, 0, 0, 2, 0, 1, device, 0, 0, 0), Some(content)))
  }

  /** Two files of one byte on two devices, each with a second name somewhere, and both with inode number 7. */
  function TwoDevices(n: CString): Option<File> {
    if n == "a" then OneByteOn(1, "x") else if n == "b" then OneByteOn(2, "y") else None
  }

  /** The second one's byte is in no entry. */
  lemma SecondDeviceLost(o: Options, es: seq<Entry>, k0: nat)
    requires Conserves(TwoDevices, o, ["a", "b"], es, k0)
    ensures !Kept(TwoDevices, o, es, "b")
  {
    hide Conserves;
    var names: seq<CString> := ["a", "b"];
    assert names[..1] == ["a"] && names[..1][..0] == [];
    assert FirstHard(TwoDevices, names[..1], 7) == Some("a");
    assert FirstHard(TwoDevices, names, 7) == Some("a");
    KeptIff(TwoDevices, o, names, es, k0, "b");
  }
}
