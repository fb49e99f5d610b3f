/** The status table, and the three words of a package's status. */
module Statuses {
  import opened Optionals
  import opened Versions
  import opened CStrings
  import opened Probing
  import opened NameTables
  import opened PackageTables

  // ----- the words

  /** Where word number n begins. */
  function WordStart(s: CString, n: nat): (i: nat)
    requires n >= 1
    ensures i <= |s|
  {
    if n == 1 then 0 else SpanEnd(s, BreakEnd(s, WordStart(s, n - 1), " "), " ")
  }

  /** The want, flag or status word. */
  function Word(s: CString, n: nat): CString
    requires n >= 1
  {
    s[WordStart(s, n)..BreakEnd(s, WordStart(s, n), " \n")]
  }

  predicate Clean(w: CString) {
    ' ' !in w && '\n' !in w
  }

  lemma WordClean(s: CString, n: nat)
    requires n >= 1
    ensures Clean(Word(s, n))
  {
  }

  lemma FirstStart(s: CString)
    ensures WordStart(s, 1) == 0
  {
  }

  lemma NextWord(s: CString, n: nat, next: nat)
    requires n >= 1 && next == n + 1
    ensures WordStart(s, next) == SpanEnd(s, BreakEnd(s, WordStart(s, n), " "), " ")
  {
  }

  method GetStatus(statusString: CString, num: nat) returns (word: CString)
    requires num >= 1
    ensures word == Word(statusString, num)
  {
    hide WordStart;
    FirstStart(statusString);
    var at := 0;
    var i := 1;
    while i < num
      invariant 1 <= i <= num && at == WordStart(statusString, i)
    {
      at := BreakEnd(statusString, at, " ");
      at := SpanEnd(statusString, at, " ");
      i := i + 1;
      NextWord(statusString, i - 1, i);
    }
    word := statusString[at..BreakEnd(statusString, at, " \n")];
  }

  /** The text begins with the word w. */
  predicate FirstIs(text: CString, w: CString) {
    && |w| <= |text| && text[..|w|] == w && ' ' !in w && '\n' !in w
    && (|w| < |text| ==> text[|w|] == ' ' || text[|w|] == '\n')
  }

  predicate SpacesIn(text: CString, i: nat, j: nat) {
    i < j <= |text| && forall k :: i <= k < j ==> text[k] == ' '
  }

  predicate NoSpaceIn(text: CString, i: nat, j: nat) {
    i <= j <= |text| && forall k :: i <= k < j ==> text[k] != ' '
  }

  /** Behind two runs of other characters and the spaces after each, the text goes on with the word w. */
  ghost predicate ThirdIs(text: CString, w: CString) {
    exists a: nat, b: nat, c: nat, d: nat :: ThirdAt(text, w, a, b, c, d)
  }

  predicate ThirdAt(text: CString, w: CString, a: nat, b: nat, c: nat, d: nat) {
    NoSpaceIn(text, 0, a) && SpacesIn(text, a, b) && b < c && NoSpaceIn(text, b, c) && SpacesIn(text, c, d) && FirstIs(text[d..], w)
  }

  lemma WordAt(text: CString, i: nat, w: CString)
    requires i <= |text|
    ensures text[i..BreakEnd(text, i, " \n")] == w <==> FirstIs(text[i..], w)
  {
    var e := BreakEnd(text, i, " \n");
    var t: CString := text[i..];
    assert forall k :: 0 <= k < |t| ==> t[k] == text[i + k];
    if text[i..e] == w {
      assert t[..|w|] == w && forall k :: 0 <= k < |w| ==> w[k] == text[i + k];
    }
    if FirstIs(t, w) {
      assert forall k :: 0 <= k < |w| ==> t[..|w|][k] == text[i + k];
      BreakEndIs(text, i, " \n", i + |w|);
    }
  }

  /** What the first word is, without looking for its end. */
  lemma FirstWordIs(text: CString, w: CString)
    ensures Word(text, 1) == w <==> FirstIs(text, w)
  {
    WordAt(text, 0, w);
    assert text[0..] == text;
  }

  /** What the third word is, unless it is empty. */
  lemma ThirdWordIs(text: CString, w: CString)
    requires w != ""
    ensures Word(text, 3) == w <==> ThirdIs(text, w)
  {
    hide BreakEnd, SpanEnd, FirstIs, Word, WordStart;
    var a := BreakEnd(text, 0, " ");
    var b := SpanEnd(text, a, " ");
    var c := BreakEnd(text, b, " ");
    var d := SpanEnd(text, c, " ");
    ThirdStart(text, a, b, c, d);
    WordAt(text, d, w);
    if Word(text, 3) == w {
      RunsThere(text, w, a, b, c, d);
    }
    if ThirdIs(text, w) {
      var a': nat, b': nat, c': nat, d': nat :| ThirdAt(text, w, a', b', c', d');
      SameRuns(text, w, a', b', c', d');
    }
  }

  lemma ThirdStart(text: CString, a: nat, b: nat, c: nat, d: nat)
    requires a == BreakEnd(text, 0, " ") && b == SpanEnd(text, a, " ") && c == BreakEnd(text, b, " ") && d == SpanEnd(text, c, " ")
    ensures Word(text, 3) == text[d..BreakEnd(text, d, " \n")]
  {
    hide BreakEnd, SpanEnd;
    FirstStart(text);
    NextWord(text, 1, 2);
    NextWord(text, 2, 3);
  }

  lemma RunsThere(text: CString, w: CString, a: nat, b: nat, c: nat, d: nat)
    requires a == BreakEnd(text, 0, " ") && b == SpanEnd(text, a, " ") && c == BreakEnd(text, b, " ") && d == SpanEnd(text, c, " ")
    requires w != "" && FirstIs(text[d..], w)
    ensures ThirdAt(text, w, a, b, c, d)
  {
    hide BreakEnd, SpanEnd;
    assert d < |text|;
  }

  lemma SameRuns(text: CString, w: CString, a: nat, b: nat, c: nat, d: nat)
    requires w != "" && ThirdAt(text, w, a, b, c, d)
    ensures a == BreakEnd(text, 0, " ") && b == SpanEnd(text, a, " ") && c == BreakEnd(text, b, " ") && d == SpanEnd(text, c, " ")
  {
    assert text[d..][..|w|][0] == text[d];
    BreakEndIs(text, 0, " ", a);
    SpanEndIs(text, a, " ", b);
    BreakEndIs(text, b, " ", c);
    SpanEndIs(text, c, " ", d);
  }

  function Status3(want: CString, flag: CString, status: CString): CString {
    want + " " + flag + " " + status
  }

  /** Replaces one word; None is where set_status exits with an error. */
  method SetStatus(statusString: CString, newValue: CString, position: nat) returns (newStatus: Option<CString>)
    ensures newStatus == None <==> !(1 <= position <= 3)
    ensures newStatus.Some? ==> newStatus.value == WithWord(statusString, newValue, position)
  {
    var want := GetStatus(statusString, 1);
    var flag := GetStatus(statusString, 2);
    var status := GetStatus(statusString, 3);
    match position {
      case 1 => want := newValue;
      case 2 => flag := newValue;
      case 3 => status := newValue;
      case _ => return None;
    }
    newStatus := Some(Status3(want, flag, status));
  }

  function WithWord(s: CString, v: CString, position: nat): CString {
    Status3(if position == 1 then v else Word(s, 1), if position == 2 then v else Word(s, 2),
            if position == 3 then v else Word(s, 3))
  }

  lemma FirstWord(w: CString, f: CString, s: CString, t: CString)
    requires Clean(w) && t == Status3(w, f, s)
    ensures Word(t, 1) == w && BreakEnd(t, 0, " ") == |w|
  {
    assert t[|w|] == ' ';
    BreakEndIs(t, 0, " \n", |w|);
    BreakEndIs(t, 0, " ", |w|);
  }

  lemma MiddleWord(w: CString, f: CString, s: CString, t: CString)
    requires Clean(w) && Clean(f) && f != "" && t == Status3(w, f, s)
    ensures WordStart(t, 2) == |w| + 1 && Word(t, 2) == f && BreakEnd(t, |w| + 1, " ") == |w| + 1 + |f|
  {
    FirstWord(w, f, s, t);
    var b, e := |w| + 1, |w| + 1 + |f|;
    assert t[|w|] == ' ' && t[b] == f[0] && t[e] == ' ' && t[b..e] == f;
    SpanEndIs(t, |w|, " ", b);
    forall k | b <= k < e
      ensures t[k] == f[k - b]
    {
    }
    BreakEndIs(t, b, " \n", e);
    BreakEndIs(t, b, " ", e);
  }

  lemma LastWord(w: CString, f: CString, s: CString, t: CString)
    requires Clean(w) && Clean(f) && f != "" && Clean(s) && t == Status3(w, f, s)
    ensures Word(t, 3) == s
  {
    hide BreakEnd, SpanEnd, Word, Clean;
    MiddleWord(w, f, s, t);
    Behind(w, f, s, t);
    AtLast(t, |w| + 1 + |f|, s);
    ThirdWord(t, |w| + 1, |w| + 1 + |f|);
  }

  /** The last word is what stands behind the second space. */
  lemma Behind(w: CString, f: CString, s: CString, t: CString)
    requires t == Status3(w, f, s)
    ensures |t| == |w| + 2 + |f| + |s| && t[|w| + 1 + |f|] == ' ' && t[|w| + 2 + |f|..] == s
  {
  }

  lemma AtLast(t: CString, e: nat, s: CString)
    requires e < |t| && t[e] == ' ' && t[e + 1..] == s && Clean(s)
    ensures SpanEnd(t, e, " ") == e + 1 && BreakEnd(t, e + 1, " \n") == |t|
  {
    forall k | e < k < |t|
      ensures t[k] != ' ' && t[k] != '\n'
    {
      assert t[k] == t[e + 1..][k - e - 1];
    }
    SpanEndIs(t, e, " ", e + 1);
    BreakEndIs(t, e + 1, " \n", |t|);
  }

  lemma ThirdWord(t: CString, b: nat, e: nat)
    requires b <= e < |t| && WordStart(t, 2) == b && BreakEnd(t, b, " ") == e
    requires SpanEnd(t, e, " ") == e + 1 && BreakEnd(t, e + 1, " \n") == |t|
    ensures Word(t, 3) == t[e + 1..]
  {
    hide BreakEnd, SpanEnd;
  }

  /** Without a flag, the third word is taken for the second. */
  lemma NoFlag(w: CString, s: CString, t: CString)
    requires Clean(w) && Clean(s) && t == Status3(w, "", s)
    ensures Word(t, 2) == s && Word(t, 3) == ""
  {
    FirstWord(w, "", s, t);
    var b := |w| + 2;
    assert t[|w|] == ' ' && t[|w| + 1] == ' ' && t[b..] == s && |t| == b + |s|;
    assert b < |t| ==> t[b] == s[0];
    SpanEndIs(t, |w|, " ", b);
    forall k | b <= k < |t|
      ensures t[k] == s[k - b]
    {
    }
    BreakEndIs(t, b, " \n", |t|);
    BreakEndIs(t, b, " ", |t|);
  }

  /** Three words put together are read back if and only if the middle one is there, or the last is not. */
  lemma WordsAgain(w: CString, f: CString, s: CString)
    requires Clean(w) && Clean(f) && Clean(s)
    ensures var t := Status3(w, f, s);
      (Word(t, 1) == w && Word(t, 2) == f && Word(t, 3) == s) <==> (f != "" || s == "")
  {
    var t := Status3(w, f, s);
    FirstWord(w, f, s, t);
    if f == "" {
      NoFlag(w, s, t);
    } else {
      MiddleWord(w, f, s, t);
      LastWord(w, f, s, t);
    }
  }

  /** Word n as it should be after set_status. */
  function NewWord(s: CString, v: CString, position: nat, n: nat): CString
    requires n >= 1
  {
    if n == position then v else Word(s, n)
  }

  /** After set_status, get_status gives the new word and the other two as before, if and only if there is a second word
      then, or no third. */
  lemma SetThenGet(s: CString, v: CString, position: nat)
    requires 1 <= position <= 3 && Clean(v)
    ensures (forall n :: 1 <= n <= 3 ==> Word(WithWord(s, v, position), n) == NewWord(s, v, position, n))
            <==> NewWord(s, v, position, 2) != "" || NewWord(s, v, position, 3) == ""
  {
    hide Word, Status3;
    WordClean(s, 1);
    WordClean(s, 2);
    WordClean(s, 3);
    WordsAgain(NewWord(s, v, position, 1), NewWord(s, v, position, 2), NewWord(s, v, position, 3));
    var t := WithWord(s, v, position);
    if Word(t, 1) == NewWord(s, v, position, 1) && Word(t, 2) == NewWord(s, v, position, 2) && Word(t, 3) == NewWord(s, v, position, 3) {
      forall n | 1 <= n <= 3
        ensures Word(t, n) == NewWord(s, v, position, n)
      {
      }
    }
  }

  // ----- the table

  /** A package that the status file lists, and its three words. */
  datatype Status = Status(package: nat, text: CString)

  type StatusSlots = seq<Option<Status>>

  /** The name that a status belongs to. */
  function NameOf(ps: Packages, s: Status): CString {
    if s.package < |ps| && ps[s.package].Some? then ps[s.package].value.name else ""
  }

  function StatusHash(hash: CString -> Hash, ps: Packages): Status -> Hash {
    (s: Status) => hash(NameOf(ps, s))
  }

  /** Each status belongs to a stored package, none to the name of another, and all can be found. */
  ghost predicate StatusesOk(t: StatusSlots, ps: Packages, p: nat, hash: CString -> Hash) {
    && AllLinked(t, p, StatusHash(hash, ps))
    && (forall s: nat :: s < p && t[s].Some? ==> t[s].value.package < |ps| && ps[t[s].value.package].Some?)
    && (forall s: nat, u: nat :: s < p && u < p && t[s].Some? && t[u].Some? && s != u ==>
          NameOf(ps, t[s].value) != NameOf(ps, t[u].value))
  }

  /** Storing a package where the search for its name ended changes no status. */
  lemma StatusesStay(t: StatusSlots, ps: Packages, ps': Packages, p: nat, hash: CString -> Hash, at: nat, n: Node)
    requires StatusesOk(t, ps, p, hash) && at < |ps| && ps' == ps[at := Some(n)]
    requires ps[at] == None || ps[at].value.name == n.name
    ensures StatusesOk(t, ps', p, hash)
  {
    forall s: nat | s < p && t[s].Some?
      ensures NameOf(ps', t[s].value) == NameOf(ps, t[s].value)
    {
    }
    SameHashes(t, p, StatusHash(hash, ps), StatusHash(hash, ps'));
  }

  predicate StopsFor(t: StatusSlots, ps: Packages, key: CString, s: nat)
    requires s < |t|
  {
    t[s] == None || NameOf(ps, t[s].value) == key
  }

  /** The slot for a name: its status, or empty if it has none. */
  ghost predicate Located(t: StatusSlots, ps: Packages, p: nat, key: CString, at: nat) {
    && at < p <= |t|
    && (t[at].Some? ==> NameOf(ps, t[at].value) == key)
    && (t[at] == None ==> forall s: nat :: s < p && t[s].Some? ==> NameOf(ps, t[s].value) != key)
  }

  lemma LocatedNow(t: StatusSlots, ps: Packages, p: nat, hash: CString -> Hash, key: CString, k: nat)
    requires StatusesOk(t, ps, p, hash) && k < p && StopsFor(t, ps, key, Slot(hash(key), p, k))
    requires forall j: nat :: j < k ==> !StopsFor(t, ps, key, Slot(hash(key), p, j))
    ensures Located(t, ps, p, key, Slot(hash(key), p, k))
  {
    var h := hash(key);
    if t[Slot(h, p, k)] == None {
      forall s: nat | s < p && t[s].Some?
        ensures NameOf(ps, t[s].value) != key
      {
        if NameOf(ps, t[s].value) == key {
          var j := StoredBefore(t, p, StatusHash(hash, ps), h, k, s);
          assert false;
        }
      }
    }
  }

  lemma LookGoesOn(t: StatusSlots, ps: Packages, p: nat, h: Hash, key: CString, k: nat)
    requires Prime(p) && |t| >= p && k <= p
    requires exists s: nat :: s < p && StopsFor(t, ps, key, s)
    requires forall j: nat :: j < k ==> !StopsFor(t, ps, key, Slot(h, p, j))
    ensures k < p
  {
    var s: nat :| s < p && StopsFor(t, ps, key, s);
    var j := EverySlot(h, p, s);
  }

  class StatusTable {
    const hash: CString -> Hash
    const slots: array<Option<Status>>

    constructor (hash: CString -> Hash)
      ensures this.hash == hash && fresh(slots) && slots.Length == STATUS_HASH_PRIME + 1
      ensures forall ps :: Valid(ps)
      ensures forall s :: 0 <= s < slots.Length ==> slots[s] == None
    {
      this.hash := hash;
      slots := new Option<Status>[STATUS_HASH_PRIME + 1](_ => None);
    }

    ghost predicate Valid(ps: Packages)
      reads slots
    {
      slots.Length == STATUS_HASH_PRIME + 1 && StatusesOk(slots[..], ps, STATUS_HASH_PRIME, hash)
    }

    method Search(key: CString, ps: Packages) returns (probeAddress: nat)
      requires Valid(ps) && exists s: nat :: s < STATUS_HASH_PRIME && StopsFor(slots[..], ps, key, s)
      ensures Located(slots[..], ps, STATUS_HASH_PRIME, key, probeAddress)
    {
      hide Slot, StatusesOk, Located;
      ThePrimes();
      ghost var t, h := slots[..], hash(key);
      probeAddress := hash(key).low % STATUS_HASH_PRIME;
      var probeDecrement := 1 + hash(key).whole % (STATUS_HASH_PRIME - 1);
      ghost var k := 0;
      StartSlot(h, STATUS_HASH_PRIME);
      while slots[probeAddress].Some?
        invariant k < STATUS_HASH_PRIME && probeAddress == Slot(h, STATUS_HASH_PRIME, k)
        invariant forall j: nat :: j < k ==> !StopsFor(t, ps, key, Slot(h, STATUS_HASH_PRIME, j))
        decreases STATUS_HASH_PRIME - k
      {
        if key == NameOf(ps, slots[probeAddress].value) {
          break;
        }
        StepSlot(h, STATUS_HASH_PRIME, k, k + 1, probeAddress, probeDecrement);
        var next: int := probeAddress - probeDecrement;
        if next < 0 {
          next := next + STATUS_HASH_PRIME;
        }
        probeAddress := next;
        k := k + 1;
        LookGoesOn(t, ps, STATUS_HASH_PRIME, h, key, k);
      }
      LocatedNow(t, ps, STATUS_HASH_PRIME, hash, key, k);
    }
  }
}
