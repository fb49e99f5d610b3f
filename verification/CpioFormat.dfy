/** The "newc" archive format: what cpio_o prints for an entry, and how it is read back. */
module CpioFormat {
  import opened Optionals
  import opened Versions

  /** What the header of an entry tells about a file. */
  datatype Stat = Stat(ino: nat, mode: nat, uid: nat, gid: nat, nlink: nat, mtime: nat, size: nat,
                       devMajor: nat, devMinor: nat, rdevMajor: nat, rdevMinor: nat)

  datatype Entry = Entry(st: Stat, name: CString, data: string)

  // ----- eight hexadecimal digits

  function HexDigit(d: nat): (c: char)
    requires d < 16
  {
    if d < 10 then '0' + d as char else 'A' + (d - 10) as char
  }

  function DigitOf(c: char): Option<nat> {
    if '0' <= c <= '9' then Some(c as int - '0' as int)
    else if 'A' <= c <= 'F' then Some(c as int - 'A' as int + 10)
    else None
  }

  function Pow16(k: nat): (p: nat)
    ensures p > 0
  {
    if k == 0 then 1 else 16 * Pow16(k - 1)
  }

  function Hex(n: nat, k: nat): (s: string)
    ensures |s| == k
  {
    if k == 0 then "" else Hex(n / 16, k - 1) + [HexDigit(n % 16)]
  }

  function ReadHex(s: string): Option<nat> {
    if s == "" then Some(0)
    else
      match ReadHex(s[..|s| - 1])
      case None => None
      case Some(n) =>
        match DigitOf(s[|s| - 1])
        case None => None
        case Some(d) => Some(16 * n + d)
  }

  lemma {:induction false} HexAgain(n: nat, k: nat)
    requires n < Pow16(k)
    ensures ReadHex(Hex(n, k)) == Some(n)
  {
    if k > 0 {
      HexAgain(n / 16, k - 1);
      assert Hex(n, k)[..k - 1] == Hex(n / 16, k - 1);
    }
  }

  function Word32(n: nat): nat {
    n % 0x1_0000_0000
  }

  function X8(n: nat): (s: string)
    ensures |s| == 8
  {
    Hex(Word32(n), 8)
  }

  lemma Pow16At8()
    ensures Pow16(8) == 0x1_0000_0000
  {
    assert Pow16(4) == 0x1_0000;
    assert Pow16(8) == 16 * (16 * (16 * (16 * Pow16(4))));
  }

  lemma X8Again(n: nat)
    requires n < 0x1_0000_0000
    ensures ReadHex(X8(n)) == Some(n)
  {
    hide Hex, ReadHex, Pow16;
    Pow16At8();
    HexAgain(n, 8);
  }

  // ----- entries

  function Zeros4(n: nat): (z: string)
    ensures |z| == (if n % 4 == 0 then 0 else 4 - n % 4) && forall k :: 0 <= k < |z| ==> z[k] == '\0'
  {
    seq(if n % 4 == 0 then 0 else 4 - n % 4, _ => '\0')
  }

  /** Filled up to a multiple of four. */
  function Padded4(s: string): (r: string)
    ensures |r| % 4 == 0 && |s| <= |r| < |s| + 4
  {
    s + Zeros4(|s|)
  }

  function Numbers(st: Stat, nameSize: nat): seq<nat> {
    [st.ino, st.mode, st.uid, st.gid, st.nlink, st.mtime, st.size,
     st.devMajor, st.devMinor, st.rdevMajor, st.rdevMinor, nameSize, 0]
  }

  function Hexes(ns: seq<nat>): (s: string)
    ensures |s| == 8 * |ns|
  {
    if ns == [] then "" else X8(ns[0]) + Hexes(ns[1..])
  }

  /** The magic number, thirteen numbers, the name and a NUL. */
  function Header(st: Stat, name: CString): (s: string)
    ensures |s| == 110 + |name| + 1
  {
    "070701" + Hexes(Numbers(st, |name| + 1)) + name + "\0"
  }

  function EntryBytes(e: Entry): (s: string)
    ensures |s| % 4 == 0
  {
    Fours(Padded4(Header(e.st, e.name)), Padded4(e.data));
    Padded4(Header(e.st, e.name)) + Padded4(e.data)
  }

  function Archive(es: seq<Entry>): (s: string)
    ensures |s| % 4 == 0
  {
    if es == [] then ""
    else
      var before, last := Archive(es[..|es| - 1]), EntryBytes(es[|es| - 1]);
      Fours(before, last);
      before + last
  }

  lemma Fours(a: string, b: string)
    requires |a| % 4 == 0 && |b| % 4 == 0
    ensures |a + b| % 4 == 0
  {
  }

  lemma ArchiveMore(es: seq<Entry>, e: Entry)
    ensures Archive(es + [e]) == Archive(es) + EntryBytes(e)
  {
    assert (es + [e])[..|es|] == es;
  }

  // ----- what stands where

  const DIGITS: CString := "0123456789ABCDEF"

  /** The eight characters at at are the lowest hexadecimal digits of n, the most significant one first. */
  predicate DigitsAt(s: string, at: nat, n: nat) {
    forall k :: 0 <= k < 8 ==> DigitAt(s, at, n, k)
  }

  predicate DigitAt(s: string, at: nat, n: nat, k: nat) {
    |DIGITS| == 16 && k < 8 && at + k < |s| && s[at + k] == DIGITS[n / Pow16(7 - k) % 16]
  }

  lemma TheDigits(d: nat)
    requires d < 16
    ensures |DIGITS| == 16 && HexDigit(d) == DIGITS[d]
  {
  }

  lemma {:induction false} HexDigits(n: nat, k: nat, j: nat)
    requires j < k
    ensures |DIGITS| == 16 && Hex(n, k)[j] == DIGITS[n / Pow16(k - 1 - j) % 16]
    decreases k
  {
    hide HexDigit;
    TheDigits(n % 16);
    if j < k - 1 {
      HexDigits(n / 16, k - 1, j);
      DivTwice(n, Pow16(k - 2 - j));
    }
  }

  lemma DivTwice(n: nat, p: nat)
    requires p > 0
    ensures n / (16 * p) == n / 16 / p
  {
    var q, r := n / 16 / p, n / 16 % p;
    assert n / 16 == q * p + r && n == 16 * (n / 16) + n % 16;
    assert n == (16 * p) * q + (16 * r + n % 16);
    QuotientIs(n, 16 * p, q, 16 * r + n % 16);
  }

  lemma Multiples(d: nat, a: nat, b: nat)
    requires a < b
    ensures d * a + d <= d * b
  {
    var k := b - a - 1;
    assert d * (a + 1 + k) == d * a + d + d * k;
  }

  lemma QuotientIs(n: nat, d: nat, q: nat, r: nat)
    requires d > 0 && n == d * q + r && r < d
    ensures n / d == q
  {
    var m := n / d;
    assert n == d * m + n % d;
    if m < q { Multiples(d, m, q); }
    if m > q { Multiples(d, q, m); }
  }

  lemma {:induction false} HexesAt(ns: seq<nat>, j: nat)
    requires j < |ns|
    ensures Hexes(ns)[8 * j..8 * j + 8] == X8(ns[j])
    decreases ns
  {
    hide X8;
    if j > 0 {
      HexesAt(ns[1..], j - 1);
      assert Hexes(ns)[8..] == Hexes(ns[1..]);
      assert Hexes(ns)[8 * j..8 * j + 8] == Hexes(ns)[8..][8 * (j - 1)..8 * (j - 1) + 8];
    }
  }

  lemma NumberAt(e: Entry, j: nat, at: nat, n: nat)
    requires j < 13 == |Numbers(e.st, |e.name| + 1)| && Numbers(e.st, |e.name| + 1)[j] == n && at == 6 + 8 * j
    ensures DigitsAt(EntryBytes(e), at, Word32(n))
  {
    hide Hex, HexDigit, Hexes, Pow16, Zeros4, Numbers;
    var ns := Numbers(e.st, |e.name| + 1);
    HexesAt(ns, j);
    var s := EntryBytes(e);
    assert s[at..at + 8] == Hexes(ns)[8 * j..8 * j + 8] == Hex(Word32(n), 8);
    forall k | 0 <= k < 8
      ensures DigitAt(s, at, Word32(n), k)
    {
      HexDigits(Word32(n), 8, k);
      assert s[at + k] == s[at..at + 8][k];
    }
  }

  /** Magic number, name, NUL and data stand where the format wants them. */
  predicate TextsAt(s: string, e: Entry) {
    var at := (114 + |e.name|) / 4 * 4;
    && |s| >= at + |e.data| && s[..6] == "070701" && s[110..110 + |e.name|] == e.name && s[110 + |e.name|] == '\0'
    && s[at..at + |e.data|] == e.data
  }

  lemma TextsThere(e: Entry)
    ensures TextsAt(EntryBytes(e), e)
  {
    hide Hexes, Header, Padded4, RoundUp;
    var h, d, s := Padded4(Header(e.st, e.name)), Padded4(e.data), EntryBytes(e);
    HeaderParts(e.st, e.name, s, d);
    HeaderEnd(|e.name|);
    DataFirst(e.data);
    assert s[|s| - |d|..] == d;
    assert s[|s| - |d|..|s| - |d| + |e.data|] == d[..|e.data|];
  }

  lemma HeaderEnd(n: nat)
    ensures RoundUp(111 + n) == (114 + n) / 4 * 4
  {
  }

  lemma DataFirst(data: string)
    ensures Padded4(data)[..|data|] == data
  {
  }

  /** The numbers that the header shows, and where. */
  lemma NumbersThere(e: Entry)
    ensures var s := EntryBytes(e);
      && DigitsAt(s, 6, Word32(e.st.ino)) && DigitsAt(s, 14, Word32(e.st.mode)) && DigitsAt(s, 22, Word32(e.st.uid))
      && DigitsAt(s, 30, Word32(e.st.gid)) && DigitsAt(s, 38, Word32(e.st.nlink)) && DigitsAt(s, 46, Word32(e.st.mtime))
      && DigitsAt(s, 54, Word32(e.st.size)) && DigitsAt(s, 62, Word32(e.st.devMajor)) && DigitsAt(s, 70, Word32(e.st.devMinor))
      && DigitsAt(s, 78, Word32(e.st.rdevMajor)) && DigitsAt(s, 86, Word32(e.st.rdevMinor))
      && DigitsAt(s, 94, Word32(|e.name| + 1)) && DigitsAt(s, 102, Word32(0))
  {
    hide EntryBytes, DigitsAt, Word32;
    NumberAt(e, 0, 6, e.st.ino);
    NumberAt(e, 1, 14, e.st.mode);
    NumberAt(e, 2, 22, e.st.uid);
    NumberAt(e, 3, 30, e.st.gid);
    NumberAt(e, 4, 38, e.st.nlink);
    NumberAt(e, 5, 46, e.st.mtime);
    NumberAt(e, 6, 54, e.st.size);
    NumberAt(e, 7, 62, e.st.devMajor);
    NumberAt(e, 8, 70, e.st.devMinor);
    NumberAt(e, 9, 78, e.st.rdevMajor);
    NumberAt(e, 10, 86, e.st.rdevMinor);
    NumberAt(e, 11, 94, |e.name| + 1);
    NumberAt(e, 12, 102, 0);
  }

  // ----- reading them back

  function RoundUp(n: nat): (m: nat)
    ensures n <= m < n + 4 && m % 4 == 0
  {
    if n % 4 == 0 then n else n + 4 - n % 4
  }

  /** The k numbers at the beginning of s. */
  function ReadNumbers(s: string, k: nat): Option<seq<nat>>
    requires |s| >= 8 * k
  {
    if k == 0 then Some([])
    else
      match ReadHex(s[..8])
      case None => None
      case Some(n) =>
        match ReadNumbers(s[8..], k - 1)
        case None => None
        case Some(ns) => Some([n] + ns)
  }

  lemma {:induction false} NumbersAgain(ns: seq<nat>, more: string)
    requires forall k :: 0 <= k < |ns| ==> ns[k] < 0x1_0000_0000
    ensures ReadNumbers(Hexes(ns) + more, |ns|) == Some(ns)
    decreases ns
  {
    hide ReadHex, X8;
    if ns != [] {
      assert ns == [ns[0]] + ns[1..];
      var s := Hexes(ns) + more;
      assert s[..8] == X8(ns[0]);
      assert s[8..] == Hexes(ns[1..]) + more;
      X8Again(ns[0]);
      NumbersAgain(ns[1..], more);
    }
  }

  /** The entry at the beginning of s, and its size. */
  function ReadEntry(s: string): Option<(Entry, nat)> {
    if |s| < 110 || s[..6] != "070701" then None
    else
      match ReadNumbers(s[6..110], 13)
      case None => None
      case Some(ns) => if |ns| == 13 then ReadBody(s, ns) else None
  }

  /** Name and data, once the numbers are known. */
  function ReadBody(s: string, ns: seq<nat>): Option<(Entry, nat)>
    requires |ns| == 13
  {
    var nameSize, size := ns[11], ns[6];
    var at := RoundUp(110 + nameSize);
    if nameSize == 0 || |s| < at || s[110 + nameSize - 1] != '\0' || '\0' in s[110..110 + nameSize - 1] then None
    else if |s| < at + RoundUp(size) then None
    else
      Some((Entry(Stat(ns[0], ns[1], ns[2], ns[3], ns[4], ns[5], size, ns[7], ns[8], ns[9], ns[10]),
                  s[110..110 + nameSize - 1], s[at..at + size]),
            at + RoundUp(size)))
  }

  const TRAILER: CString := "TRAILER!!!"

  /** All entries up to and with the trailer. */
  function ReadArchive(s: string): Option<seq<Entry>>
    decreases |s|
  {
    match ReadEntry(s)
    case None => None
    case Some((e, n)) =>
      if e.name == TRAILER then Some([e])
      else if n == 0 || n > |s| then None
      else
        match ReadArchive(s[n..])
        case None => None
        case Some(es) => Some([e] + es)
  }

  /** All numbers have 32 bits, and the size is that of the data. */
  predicate Fits(st: Stat) {
    && st.ino < 0x1_0000_0000 && st.mode < 0x1_0000_0000 && st.uid < 0x1_0000_0000 && st.gid < 0x1_0000_0000
    && st.nlink < 0x1_0000_0000 && st.mtime < 0x1_0000_0000 && st.size < 0x1_0000_0000
    && st.devMajor < 0x1_0000_0000 && st.devMinor < 0x1_0000_0000
    && st.rdevMajor < 0x1_0000_0000 && st.rdevMinor < 0x1_0000_0000
  }

  predicate EntryFits(e: Entry) {
    Fits(e.st) && |e.name| < 0xffff_ffff && e.st.size == |e.data|
  }

  lemma HeaderParts(st: Stat, name: CString, s: string, more: string)
    requires s == Padded4(Header(st, name)) + more
    ensures |s| >= RoundUp(111 + |name|) && s[..6] == "070701" && s[6..110] == Hexes(Numbers(st, |name| + 1))
    ensures s[110..110 + |name|] == name && s[110 + |name|] == '\0' && s[RoundUp(111 + |name|)..] == more
  {
    var h, x := Header(st, name), Hexes(Numbers(st, |name| + 1));
    assert h[..6] == "070701" && h[6..110] == x && h[110..110 + |name|] == name && h[110 + |name|] == '\0';
    assert s[..|h|] == h;
    assert s[..6] == h[..6] && s[6..110] == h[6..110] && s[110..110 + |name|] == h[110..110 + |name|];
  }

  lemma EntryAgain(e: Entry, more: string, s: string)
    requires EntryFits(e) && s == EntryBytes(e) + more
    ensures ReadEntry(s) == Some((e, |EntryBytes(e)|))
    ensures |EntryBytes(e)| > 0 && s[|EntryBytes(e)|..] == more
  {
    hide Hexes, Header, ReadBody, Padded4, RoundUp, X8, Zeros4, ReadNumbers;
    var d := Padded4(e.data);
    var ns := Numbers(e.st, |e.name| + 1);
    var at := RoundUp(111 + |e.name|);
    assert s == Padded4(Header(e.st, e.name)) + (d + more);
    HeaderParts(e.st, e.name, s, d + more);
    NumbersAgain(ns, "");
    assert Hexes(ns) + "" == Hexes(ns);
    BodyAgain(e, s, ns, at, d, more);
  }

  lemma BodyAgain(e: Entry, s: string, ns: seq<nat>, at: nat, d: string, more: string)
    requires EntryFits(e) && ns == Numbers(e.st, |e.name| + 1) && at == RoundUp(111 + |e.name|) && d == Padded4(e.data)
    requires |s| >= at && s[110..110 + |e.name|] == e.name && s[110 + |e.name|] == '\0' && s[at..] == d + more
    ensures ReadBody(s, ns) == Some((e, at + |d|))
  {
    assert (d + more)[..|e.data|] == e.data;
    assert s[at..at + |e.data|] == s[at..][..|e.data|];
  }

  /** Entries of which only the last is named like the trailer are read back as they are. */
  lemma {:induction false} ArchiveAgain(es: seq<Entry>)
    requires es != [] && es[|es| - 1].name == TRAILER
    requires forall k :: 0 <= k < |es| ==> EntryFits(es[k])
    requires forall k :: 0 <= k < |es| - 1 ==> es[k].name != TRAILER
    ensures ReadArchive(Archive(es)) == Some(es)
    decreases es
  {
    hide EntryFits, ReadEntry, EntryBytes;
    var e, rest := es[0], es[1..];
    FirstEntry(es);
    EntryAgain(e, Archive(rest), Archive(es));
    if rest == [] {
      assert es == [e];
    } else {
      assert rest[|rest| - 1] == es[|es| - 1];
      ArchiveAgain(rest);
      assert es == [e] + rest;
    }
  }

  lemma Joined(a: string, b: string, c: string)
    ensures a + b + c == a + (b + c)
  {
  }

  lemma {:induction false} FirstEntry(es: seq<Entry>)
    requires es != []
    ensures Archive(es) == EntryBytes(es[0]) + Archive(es[1..])
    decreases es
  {
    hide EntryBytes;
    var n := |es| - 1;
    if n == 0 {
      assert es[..n] == [] && es[1..] == [];
      assert Archive([]) == "" && EntryBytes(es[0]) + "" == "" + EntryBytes(es[0]);
    } else {
      FirstEntry(es[..n]);
      assert es[..n][1..] == es[1..][..n - 1];
      assert es[1..][n - 1] == es[n];
      Joined(EntryBytes(es[0]), Archive(es[1..][..n - 1]), EntryBytes(es[n]));
    }
  }

  // ----- only such archives are read back

  lemma {:induction false} ReadHexFits(s: string, n: nat)
    requires ReadHex(s) == Some(n)
    ensures n < Pow16(|s|)
    decreases s
  {
    if s != "" {
      var m := ReadHex(s[..|s| - 1]).value;
      ReadHexFits(s[..|s| - 1], m);
    }
  }

  lemma {:induction false} ReadNumbersFit(s: string, k: nat, ns: seq<nat>)
    requires |s| >= 8 * k && ReadNumbers(s, k) == Some(ns)
    ensures |ns| == k && forall i :: 0 <= i < k ==> ns[i] < 0x1_0000_0000
    decreases k
  {
    hide ReadHex, Pow16;
    if k > 0 {
      Pow16At8();
      ReadHexFits(s[..8], ReadHex(s[..8]).value);
      ReadNumbersFit(s[8..], k - 1, ReadNumbers(s[8..], k - 1).value);
    }
  }

  /** An entry that has been read fits into its header. */
  lemma ReadEntryFits(s: string, e: Entry, n: nat)
    requires ReadEntry(s) == Some((e, n))
    ensures EntryFits(e)
  {
    hide ReadNumbers;
    ReadNumbersFit(s[6..110], 13, ReadNumbers(s[6..110], 13).value);
  }

  lemma {:induction false} ReadArchiveFits(s: string, es: seq<Entry>)
    requires ReadArchive(s) == Some(es)
    ensures es != [] && es[|es| - 1].name == TRAILER
    ensures forall k :: 0 <= k < |es| ==> EntryFits(es[k])
    ensures forall k :: 0 <= k < |es| - 1 ==> es[k].name != TRAILER
    decreases |s|
  {
    hide ReadEntry, EntryFits;
    var (e, n) := ReadEntry(s).value;
    ReadEntryFits(s, e, n);
    if e.name != TRAILER {
      var rest := ReadArchive(s[n..]).value;
      ReadArchiveFits(s[n..], rest);
      assert es == [e] + rest;
    }
  }

  /** An archive is read back if and only if every entry fits into its header and only the last is named like the
      trailer. */
  lemma ReadsBack(es: seq<Entry>, trailer: Entry)
    requires trailer.name == TRAILER && EntryFits(trailer)
    ensures ReadArchive(Archive(es + [trailer])) == Some(es + [trailer])
            <==> forall k :: 0 <= k < |es| ==> EntryFits(es[k]) && es[k].name != TRAILER
  {
    hide Archive, ReadArchive, EntryFits;
    var all := es + [trailer];
    if ReadArchive(Archive(all)) == Some(all) {
      ReadArchiveFits(Archive(all), all);
      assert forall k :: 0 <= k < |es| ==> es[k] == all[k];
    }
    if forall k :: 0 <= k < |es| ==> EntryFits(es[k]) && es[k].name != TRAILER {
      ArchiveAgain(all);
    }
  }
}
