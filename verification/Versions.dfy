/** The order of Debian version numbers. */
module Versions {

  /** What a C string can hold. */
  type CString = s: string | '\0' !in s witness ""

  predicate IsDigit(c: char) {
    '0' <= c <= '9'
  }

  predicate IsAlpha(c: char) {
    'a' <= c <= 'z' || 'A' <= c <= 'Z'
  }

  function Order(x: char): int {
    if x == '~' then -1
    else if x == '\0' then 0
    else if IsDigit(x) then 0
    else if IsAlpha(x) then x as int
    else x as int + 256
  }

  lemma OrderInjective(x: char, y: char)
    requires Order(x) == Order(y) && x != '\0' && !IsDigit(x)
    ensures x == y
  {
  }

  // ----- keys: the orders of the non-digits before each number, a zero, the number

  /** Where the run of digits at i ends. */
  function RunEnd(s: string, i: nat): (e: nat)
    requires i <= |s|
    ensures i <= e <= |s| && (e < |s| ==> !IsDigit(s[e]))
    ensures forall k :: i <= k < e ==> IsDigit(s[k])
    decreases |s| - i
  {
    if i < |s| && IsDigit(s[i]) then RunEnd(s, i + 1) else i
  }

  function Digit(c: char): nat
    requires IsDigit(c)
  {
    c as int - '0' as int
  }

  predicate AllDigits(s: string, i: nat, e: nat) {
    i <= e <= |s| && forall k :: i <= k < e ==> IsDigit(s[k])
  }

  /** The number that the digits from i to e stand for. */
  function Number(s: string, i: nat, e: nat): nat
    requires AllDigits(s, i, e)
    decreases e
  {
    if i == e then 0 else 10 * Number(s, i, e - 1) + Digit(s[e - 1])
  }

  /** What counts of the string from i on: the order of each non-digit, and for each number a zero, which
      ends the non-digits before it, and its value. */
  function Key(s: string, i: nat): seq<int>
    requires i <= |s|
    decreases |s| - i
  {
    if i == |s| then []
    else if !IsDigit(s[i]) then [Order(s[i])] + Key(s, i + 1)
    else [0, Number(s, i, RunEnd(s, i))] + Key(s, RunEnd(s, i + 1))
  }

  // ----- comparing keys

  function Sign(x: int): int {
    if x < 0 then -1 else if x > 0 then 1 else 0
  }

  /** The entry at k; behind the end there are only zeros. */
  function Padded(a: seq<int>, k: nat): int {
    if k < |a| then a[k] else 0
  }

  function Tail(a: seq<int>): seq<int> {
    if a == [] then [] else a[1..]
  }

  /** Compares entry by entry, with zeros behind the end of the shorter one. */
  function Compare(a: seq<int>, b: seq<int>): int
    decreases |a| + |b|
  {
    if a == [] && b == [] then 0
    else if Padded(a, 0) != Padded(b, 0) then Sign(Padded(a, 0) - Padded(b, 0))
    else Compare(Tail(a), Tail(b))
  }

  /** The first entry that differs decides. */
  ghost predicate DiffersAt(a: seq<int>, b: seq<int>, k: nat) {
    && (forall j: nat :: j < k ==> Padded(a, j) == Padded(b, j))
    && Padded(a, k) != Padded(b, k)
  }

  lemma {:induction false} CompareDecides(a: seq<int>, b: seq<int>, k: nat)
    requires DiffersAt(a, b, k)
    ensures Compare(a, b) == Sign(Padded(a, k) - Padded(b, k))
  {
    if k > 0 {
      assert Padded(a, 0) == Padded(b, 0);
      forall j: nat | j <= k - 1
        ensures Padded(Tail(a), j) == Padded(a, j + 1) && Padded(Tail(b), j) == Padded(b, j + 1)
      {
      }
      CompareDecides(Tail(a), Tail(b), k - 1);
    }
  }

  lemma {:induction false} CompareEqual(a: seq<int>, b: seq<int>)
    requires forall j: nat :: Padded(a, j) == Padded(b, j)
    ensures Compare(a, b) == 0
    decreases |a| + |b|
  {
    if a != [] || b != [] {
      assert Padded(a, 0) == Padded(b, 0);
      forall j: nat
        ensures Padded(Tail(a), j) == Padded(Tail(b), j)
      {
        assert Padded(a, j + 1) == Padded(b, j + 1);
      }
      CompareEqual(Tail(a), Tail(b));
    }
  }

  /** Where two keys first differ, if they do. */
  lemma FirstDiff(a: seq<int>, b: seq<int>) returns (same: bool, k: nat)
    ensures same ==> forall j: nat :: Padded(a, j) == Padded(b, j)
    ensures !same ==> DiffersAt(a, b, k)
  {
    k := 0;
    while k < |a| + |b|
      invariant forall j: nat :: j < k ==> Padded(a, j) == Padded(b, j)
    {
      if Padded(a, k) != Padded(b, k) { return false, k; }
      k := k + 1;
    }
    same := true;
  }

  lemma CompareSplit(a: seq<int>, b: seq<int>) returns (same: bool, k: nat)
    ensures same ==> Compare(a, b) == 0 && forall j: nat :: Padded(a, j) == Padded(b, j)
    ensures !same ==> DiffersAt(a, b, k) && Compare(a, b) == Sign(Padded(a, k) - Padded(b, k))
  {
    same, k := FirstDiff(a, b);
    if same { CompareEqual(a, b); } else { CompareDecides(a, b, k); }
  }

  lemma CompareOpposite(a: seq<int>, b: seq<int>)
    ensures Compare(a, b) == -Compare(b, a)
  {
    var same, k := CompareSplit(a, b);
    if same { CompareEqual(b, a); } else { CompareDecides(b, a, k); }
  }

  lemma CompareTransitive(a: seq<int>, b: seq<int>, c: seq<int>)
    requires Compare(a, b) <= 0 && Compare(b, c) <= 0
    ensures Compare(a, c) <= 0
    ensures Compare(a, c) == 0 ==> Compare(a, b) == 0 && Compare(b, c) == 0
  {
    var same1, k := CompareSplit(a, b);
    var same2, l := CompareSplit(b, c);
    if same1 && same2 {
      CompareEqual(a, c);
    } else if same1 || (!same2 && l < k) {
      CompareDecides(a, c, l);
    } else {
      CompareDecides(a, c, k);
    }
  }

  // ----- version_compare_part

  /** The character that a pointer at i sees. */
  function Cur(s: CString, i: nat): char
    requires i <= |s|
  {
    if i < |s| then s[i] else '\0'
  }

  lemma HeadIsOrder(s: CString, i: nat)
    requires i <= |s|
    ensures Padded(Key(s, i), 0) == Order(Cur(s, i))
  {
  }

  /** Both skip the same non-digit. */
  lemma SkipBoth(v: CString, w: CString, i: nat, j: nat)
    requires i <= |v| && j <= |w| && Order(Cur(v, i)) == Order(Cur(w, j))
    requires (i < |v| && !IsDigit(v[i])) || (j < |w| && !IsDigit(w[j]))
    ensures i < |v| && j < |w| && Compare(Key(v, i), Key(w, j)) == Compare(Key(v, i + 1), Key(w, j + 1))
  {
    if i < |v| && !IsDigit(v[i]) { OrderInjective(v[i], Cur(w, j)); } else { OrderInjective(w[j], Cur(v, i)); }
    assert Tail(Key(v, i)) == Key(v, i + 1);
    assert Tail(Key(w, j)) == Key(w, j + 1);
  }

  lemma DifferentOrders(v: CString, w: CString, i: nat, j: nat)
    requires i <= |v| && j <= |w| && Order(Cur(v, i)) != Order(Cur(w, j))
    ensures Compare(Key(v, i), Key(w, j)) == Sign(Order(Cur(v, i)) - Order(Cur(w, j)))
  {
    HeadIsOrder(v, i);
    HeadIsOrder(w, j);
  }

  lemma RunEndIs(s: string, i: nat, e: nat)
    requires AllDigits(s, i, e) && (e < |s| ==> !IsDigit(s[e]))
    ensures RunEnd(s, i) == e
  {
  }

  /** The number at i, which is 0 at the end of the string. */
  function NumberAt(s: string, i: nat): nat
    requires i <= |s|
  {
    Number(s, i, RunEnd(s, i))
  }

  lemma KeyAtNumber(s: string, i: nat, a: seq<int>)
    requires i <= |s| && (i < |s| ==> IsDigit(s[i])) && a == Key(s, i)
    ensures Padded(a, 0) == 0 && Padded(a, 1) == NumberAt(s, i)
    ensures Tail(Tail(a)) == Key(s, RunEnd(s, i))
  {
    if i < |s| {
      var n, rest := NumberAt(s, i), Key(s, RunEnd(s, i));
      assert Tail([0, n] + rest) == [n] + rest;
      assert Tail([n] + rest) == rest;
    }
  }

  /** At a number on both sides, or the end, the numbers decide, and then what is behind them. */
  lemma CompareNumbers(v: string, w: string, i: nat, j: nat)
    requires i <= |v| && (i < |v| ==> IsDigit(v[i])) && j <= |w| && (j < |w| ==> IsDigit(w[j]))
    ensures NumberAt(v, i) != NumberAt(w, j) ==> Compare(Key(v, i), Key(w, j)) == Sign(NumberAt(v, i) - NumberAt(w, j))
    ensures NumberAt(v, i) == NumberAt(w, j) ==>
              Compare(Key(v, i), Key(w, j)) == Compare(Key(v, RunEnd(v, i)), Key(w, RunEnd(w, j)))
  {
    var a, b := Key(v, i), Key(w, j);
    KeyAtNumber(v, i, a);
    KeyAtNumber(w, j, b);
    TwoEntries(a, b);
  }

  lemma TwoEntries(a: seq<int>, b: seq<int>)
    requires Padded(a, 0) == Padded(b, 0) == 0
    ensures Padded(a, 1) != Padded(b, 1) ==> Compare(a, b) == Sign(Padded(a, 1) - Padded(b, 1))
    ensures Padded(a, 1) == Padded(b, 1) ==> Compare(a, b) == Compare(Tail(Tail(a)), Tail(Tail(b)))
  {
    assert Padded(Tail(a), 0) == Padded(a, 1) && Padded(Tail(b), 0) == Padded(b, 1);
    assert a == [] && b == [] ==> Compare(a, b) == Compare(Tail(a), Tail(b));
  }

  /** Zeros at the beginning do not count. */
  lemma {:induction false} LeadingZero(s: string, i: nat, e: nat)
    requires AllDigits(s, i, e) && i < e && s[i] == '0'
    ensures Number(s, i, e) == Number(s, i + 1, e)
    decreases e
  {
    if i + 1 < e { LeadingZero(s, i, e - 1); }
  }

  function Pow10(n: nat): nat {
    if n == 0 then 1 else 10 * Pow10(n - 1)
  }

  lemma {:induction false} NumberBelow(s: string, i: nat, e: nat)
    requires AllDigits(s, i, e)
    ensures Number(s, i, e) < Pow10(e - i)
    decreases e
  {
    if i < e { NumberBelow(s, i, e - 1); }
  }

  lemma {:induction false} NumberAbove(s: string, i: nat, e: nat)
    requires AllDigits(s, i, e) && i < e && s[i] != '0'
    ensures Number(s, i, e) >= Pow10(e - i - 1)
    decreases e
  {
    if i + 1 < e { NumberAbove(s, i, e - 1); }
  }

  lemma {:induction false} Pow10Mono(a: nat, b: nat)
    requires a <= b
    ensures Pow10(a) <= Pow10(b)
    decreases b
  {
    if a < b { Pow10Mono(a, b - 1); }
  }

  /** Without zeros at the beginning, the longer number is the greater one. */
  lemma LongerIsGreater(v: string, w: string, i: nat, e: nat, j: nat, f: nat)
    requires AllDigits(v, i, e) && AllDigits(w, j, f) && e - i > f - j && v[i] != '0'
    ensures Number(v, i, e) > Number(w, j, f)
  {
    NumberAbove(v, i, e);
    NumberBelow(w, j, f);
    Pow10Mono(f - j, e - i - 1);
  }

  /** What has been seen of two numbers compares like the first difference. */
  ghost predicate Leading(firstDiff: int, a: nat, b: nat) {
    Sign(firstDiff) == Sign(a - b)
  }

  lemma LeadingStep(firstDiff: int, a: nat, b: nat, x: char, y: char, next: int)
    requires Leading(firstDiff, a, b) && IsDigit(x) && IsDigit(y)
    requires next == if firstDiff == 0 then x as int - y as int else firstDiff
    ensures Leading(next, 10 * a + Digit(x), 10 * b + Digit(y))
  {
  }

  method SkipZeros(s: CString, i0: nat) returns (i: nat)
    requires i0 <= |s|
    ensures i0 <= i <= |s| && Cur(s, i) != '0'
    ensures RunEnd(s, i) == RunEnd(s, i0) && NumberAt(s, i) == NumberAt(s, i0)
  {
    i := i0;
    while Cur(s, i) == '0'
      invariant i0 <= i <= |s| && RunEnd(s, i) == RunEnd(s, i0) && NumberAt(s, i) == NumberAt(s, i0)
      decreases |s| - i
    {
      LeadingZero(s, i, RunEnd(s, i));
      i := i + 1;
    }
  }

  /** Compares the numbers at i0 and j0 and moves behind them; firstDiff is the verdict if both are as long. */
  method CompareDigits(v: CString, w: CString, i0: nat, j0: nat) returns (i: nat, j: nat, r: int)
    requires i0 <= |v| && j0 <= |w|
    requires Cur(v, i0) != '0' && Cur(w, j0) != '0'
    ensures i0 <= i <= |v| && j0 <= j <= |w|
    ensures Sign(r) == Sign(NumberAt(v, i0) - NumberAt(w, j0))
    ensures r == 0 ==> i == RunEnd(v, i0) && j == RunEnd(w, j0)
  {
    var firstDiff := 0;
    i, j := i0, j0;
    while IsDigit(Cur(v, i)) && IsDigit(Cur(w, j))
      invariant AllDigits(v, i0, i) && AllDigits(w, j0, j) && i - i0 == j - j0
      invariant Leading(firstDiff, Number(v, i0, i), Number(w, j0, j))
      decreases |v| - i
    {
      ghost var was := firstDiff;
      if firstDiff == 0 {
        firstDiff := v[i] as int - w[j] as int;
      }
      LeadingStep(was, Number(v, i0, i), Number(w, j0, j), v[i], w[j], firstDiff);
      i, j := i + 1, j + 1;
    }
    RunTail(v, i0, i);
    RunTail(w, j0, j);
    if IsDigit(Cur(v, i)) {
      LongerIsGreater(v, w, i0, RunEnd(v, i0), j0, j);
      return i, j, 1;
    }
    if IsDigit(Cur(w, j)) {
      LongerIsGreater(w, v, j0, RunEnd(w, j0), i0, i);
      return i, j, -1;
    }
    r := firstDiff;
  }

  lemma {:induction false} RunTail(s: CString, i: nat, k: nat)
    requires AllDigits(s, i, k)
    ensures RunEnd(s, i) >= k && (RunEnd(s, i) == k <==> !IsDigit(Cur(s, k)))
    decreases k - i
  {
    if i < k { RunTail(s, i + 1, k); }
  }

  /** Skips non-digits as long as they are the same; stops at the first that differ. */
  method SkipSame(v: CString, w: CString, i0: nat, j0: nat) returns (i: nat, j: nat, vc: int, rc: int)
    requires i0 <= |v| && j0 <= |w|
    ensures i0 <= i <= |v| && j0 <= j <= |w|
    ensures Compare(Key(v, i), Key(w, j)) == Compare(Key(v, i0), Key(w, j0))
    ensures vc != rc ==> Compare(Key(v, i), Key(w, j)) == Sign(vc - rc)
    ensures vc == rc ==> (i < |v| ==> IsDigit(v[i])) && (j < |w| ==> IsDigit(w[j]))
  {
    i, j, vc, rc := i0, j0, 0, 0;
    while (i < |v| && !IsDigit(v[i])) || (j < |w| && !IsDigit(w[j]))
      invariant i0 <= i <= |v| && j0 <= j <= |w| && vc == rc
      invariant Compare(Key(v, i), Key(w, j)) == Compare(Key(v, i0), Key(w, j0))
      decreases |v| - i
    {
      vc, rc := Order(Cur(v, i)), Order(Cur(w, j));
      if vc != rc {
        DifferentOrders(v, w, i, j);
        return;
      }
      SkipBoth(v, w, i, j);
      i, j := i + 1, j + 1;
    }
  }

  /** Compares like the keys. */
  method VersionComparePart(val: CString, ref: CString) returns (r: int)
    ensures Sign(r) == Compare(Key(val, 0), Key(ref, 0))
  {
    var i, j := 0, 0;
    while i < |val| || j < |ref|
      invariant 0 <= i <= |val| && 0 <= j <= |ref|
      invariant Compare(Key(val, i), Key(ref, j)) == Compare(Key(val, 0), Key(ref, 0))
      decreases |val| - i + |ref| - j
    {
      ghost var i0, j0 := i, j;
      var vc, rc;
      i, j, vc, rc := SkipSame(val, ref, i, j);
      if vc != rc {
        return vc - rc;
      }
      CompareNumbers(val, ref, i, j);
      ghost var i1, j1 := i, j;
      i := SkipZeros(val, i);
      j := SkipZeros(ref, j);
      i, j, r := CompareDigits(val, ref, i, j);
      if r != 0 {
        return r;
      }
    }
    r := 0;
  }

  // ----- whole versions: epoch, upstream version and revision

  function FirstIndex(s: string, c: char, i: nat): (k: nat)
    requires i <= |s|
    ensures i <= k <= |s| && (k < |s| ==> s[k] == c) && forall j :: i <= j < k ==> s[j] != c
    decreases |s| - i
  {
    if i < |s| && s[i] != c then FirstIndex(s, c, i + 1) else i
  }

  /** One more than the last index of c, or 0. */
  function LastIndex(s: string, c: char, n: nat): (k: nat)
    requires n <= |s|
    ensures k <= n && (k > 0 ==> s[k - 1] == c) && forall j :: k <= j < n ==> s[j] != c
  {
    if n > 0 && s[n - 1] != c then LastIndex(s, c, n - 1) else n
  }

  predicate IsSpace(c: char) {
    c == ' ' || 9 <= c as int <= 13
  }

  function SkipSpace(s: string, i: nat): (k: nat)
    requires i <= |s|
    ensures i <= k <= |s|
    decreases |s| - i
  {
    if i < |s| && IsSpace(s[i]) then SkipSpace(s, i + 1) else i
  }

  /** atoi, as far as the number is an int. */
  function Atoi(s: string): int {
    var i := SkipSpace(s, 0);
    if i < |s| && s[i] == '-' then 0 - NumberAt(s, i + 1)
    else if i < |s| && s[i] == '+' then NumberAt(s, i + 1)
    else NumberAt(s, i)
  }

  function Epoch(s: string): nat {
    if FirstIndex(s, ':', 0) < |s| then Atoi(s) % 0x1_0000_0000 else 0
  }

  /** Without the epoch. */
  function Rest(s: CString): CString {
    var k := FirstIndex(s, ':', 0);
    if k < |s| then s[k + 1..] else s
  }

  function Upstream(s: CString): CString {
    var r := Rest(s);
    var k := LastIndex(r, '-', |r|);
    if k > 0 then r[..k - 1] else r
  }

  function Revision(s: CString): CString {
    var r := Rest(s);
    var k := LastIndex(r, '-', |r|);
    if k > 0 then r[k..] else ""
  }

  /** Epochs, then upstream versions, then revisions. */
  function CompareVersions(a: CString, b: CString): int {
    if Epoch(a) != Epoch(b) then Sign(Epoch(a) - Epoch(b))
    else if Compare(Key(Upstream(a), 0), Key(Upstream(b), 0)) != 0 then Compare(Key(Upstream(a), 0), Key(Upstream(b), 0))
    else Compare(Key(Revision(a), 0), Key(Revision(b), 0))
  }

  /** Where there is a colon, the epoch is before it. */
  method TakeEpoch(ver: CString) returns (epoch: nat, ch: CString)
    ensures epoch == Epoch(ver) && ch == Rest(ver)
  {
    epoch, ch := 0, ver;
    var colon := FirstIndex(ver, ':', 0);
    if colon < |ver| {
      epoch := Atoi(ver) % 0x1_0000_0000;
      ch := ver[colon + 1..];
    }
  }

  /** Chops off the Debian revision; an empty one stands for a null pointer too. */
  method ChopRevision(ch: CString, ghost ver: CString) returns (upstream: CString, deb: CString)
    requires ch == Rest(ver)
    ensures upstream == Upstream(ver) && deb == Revision(ver)
  {
    upstream, deb := ch, "";
    var dash := LastIndex(ch, '-', |ch|);
    if dash > 0 {
      upstream, deb := ch[..dash - 1], ch[dash..];
    }
  }

  method VersionCompare(ver1: CString, ver2: CString) returns (result: int)
    ensures Sign(result) == CompareVersions(ver1, ver2)
  {
    hide Epoch, Rest, Upstream, Revision, Compare, Key;
    var epoch1, ch1 := TakeEpoch(ver1);
    var epoch2, ch2 := TakeEpoch(ver2);
    if epoch1 < epoch2 { return -1; }
    if epoch1 > epoch2 { return 1; }
    var upstream1, deb1 := ChopRevision(ch1, ver1);
    var upstream2, deb2 := ChopRevision(ch2, ver2);
    result := VersionComparePart(upstream1, upstream2);
    if result == 0 {
      result := VersionComparePart(deb1, deb2);
    }
  }

  lemma VersionReflexive(a: CString)
    ensures CompareVersions(a, a) == 0
  {
    CompareEqual(Key(Upstream(a), 0), Key(Upstream(a), 0));
    CompareEqual(Key(Revision(a), 0), Key(Revision(a), 0));
  }

  lemma VersionOpposite(a: CString, b: CString)
    ensures CompareVersions(a, b) == -CompareVersions(b, a)
  {
    hide Compare, Key, Upstream, Revision, Epoch;
    CompareOpposite(Key(Upstream(a), 0), Key(Upstream(b), 0));
    CompareOpposite(Key(Revision(a), 0), Key(Revision(b), 0));
  }

  lemma VersionTransitive(a: CString, b: CString, c: CString)
    requires CompareVersions(a, b) <= 0 && CompareVersions(b, c) <= 0
    ensures CompareVersions(a, c) <= 0
    ensures CompareVersions(a, c) == 0 ==> CompareVersions(a, b) == 0 && CompareVersions(b, c) == 0
  {
    hide Compare, Key, Upstream, Revision, Epoch;
    if Epoch(a) == Epoch(b) == Epoch(c) {
      CompareTransitive(Key(Upstream(a), 0), Key(Upstream(b), 0), Key(Upstream(c), 0));
      if Compare(Key(Upstream(a), 0), Key(Upstream(c), 0)) == 0 {
        CompareTransitive(Key(Revision(a), 0), Key(Revision(b), 0), Key(Revision(c), 0));
      }
    }
  }

  // ----- consequences that section 5.6.12 of the Debian Policy Manual names

  /** A missing revision is the revision 0; a revision that is there is no longer one behind another. */
  lemma MissingRevision(v: CString)
    ensures CompareVersions(v, v + "-0") == 0 <==> '-' !in Rest(v)
  {
    hide Compare, Key, Epoch, Upstream, Revision, Rest;
    var w: CString := v + "-0";
    SameColon(v, w);
    SameEpoch(v, w);
    RestMore(v, w);
    WithDash(w, Rest(v));
    if '-' in Rest(v) {
      LastDash(v);
      NonDigitDecides(Upstream(v), '-', Revision(v), Rest(v), 0);
      CompareOpposite(Key(Rest(v), 0), Key(Upstream(v), 0));
    } else {
      WithoutDash(v);
      CompareEqual(Key(Rest(v), 0), Key(Rest(v), 0));
      NoRevision();
    }
  }

  lemma LastDash(v: CString)
    requires '-' in Rest(v)
    ensures Rest(v) == Upstream(v) + "-" + Revision(v)
  {
    hide Rest;
  }

  lemma RestMore(v: CString, w: CString)
    requires w == v + "-0"
    ensures Rest(w) == Rest(v) + "-0"
  {
    SameColon(v, w);
  }

  lemma WithoutDash(v: CString)
    requires '-' !in Rest(v)
    ensures Upstream(v) == Rest(v) && Revision(v) == ""
  {
    hide Rest;
  }

  lemma WithDash(w: CString, r: CString)
    requires Rest(w) == r + "-0"
    ensures Upstream(w) == r && Revision(w) == "0"
  {
    hide Rest;
    var x := Rest(w);
    assert x[|r|] == '-' && x[|r| + 1] == '0';
    assert LastIndex(x, '-', |x|) == |r| + 1;
    assert x[|r| + 1..] == "0" && x[..|r|] == r;
  }

  lemma NoRevision()
    ensures Compare(Key("", 0), Key("0", 0)) == 0
  {
    CompareNumbers("", "0", 0, 0);
  }

  lemma SameColon(v: CString, w: CString)
    requires w == v + "-0"
    ensures FirstIndex(v, ':', 0) < |v| ==> FirstIndex(w, ':', 0) == FirstIndex(v, ':', 0)
    ensures FirstIndex(v, ':', 0) == |v| ==> FirstIndex(w, ':', 0) == |w|
  {
    var k, l := FirstIndex(v, ':', 0), FirstIndex(w, ':', 0);
    if k < |v| { assert w[k] == ':'; }
    if l < |v| { assert v[l] == ':'; }
    assert w[|v|] == '-' && w[|v| + 1] == '0';
  }

  lemma SameEpoch(v: CString, w: CString)
    requires v <= w && FirstIndex(v, ':', 0) < |v| ==> FirstIndex(w, ':', 0) == FirstIndex(v, ':', 0)
    requires v <= w && FirstIndex(v, ':', 0) == |v| ==> FirstIndex(w, ':', 0) == |w|
    requires v <= w
    ensures Epoch(v) == Epoch(w)
  {
    var k := FirstIndex(v, ':', 0);
    if k < |v| {
      SameSpace(v, w, 0, k);
      var i := SkipSpace(v, 0);
      SameNumber(v, w, i, k);
      if i < k { SameNumber(v, w, i + 1, k); }
    }
  }

  lemma {:induction false} SameSpace(v: string, w: string, i: nat, k: nat)
    requires v <= w && i <= k < |v| && v[k] == ':'
    ensures SkipSpace(v, i) == SkipSpace(w, i) <= k
    decreases k - i
  {
    if i < k { SameSpace(v, w, i + 1, k); }
  }

  lemma {:induction false} SameRun(v: string, w: string, i: nat, k: nat)
    requires v <= w && i <= k < |v| && v[k] == ':'
    ensures RunEnd(v, i) == RunEnd(w, i)
    decreases k - i
  {
    if i < k { SameRun(v, w, i + 1, k); }
  }

  lemma {:induction false} SameValue(v: string, w: string, i: nat, e: nat)
    requires AllDigits(v, i, e) && e <= |w| && forall k :: i <= k < e ==> v[k] == w[k]
    ensures Number(v, i, e) == Number(w, i, e)
    decreases e
  {
    if i < e { SameValue(v, w, i, e - 1); }
  }

  lemma SameNumber(v: string, w: string, i: nat, k: nat)
    requires v <= w && i <= k < |v| && v[k] == ':'
    ensures NumberAt(v, i) == NumberAt(w, i)
  {
    SameRun(v, w, i, k);
    SameValue(v, w, i, RunEnd(v, i));
  }

  /** A string that goes on with a non-digit is sorted by that character against the string that ends there. */
  lemma {:induction false} NonDigitDecides(s: string, c: char, t: string, w: string, i: nat)
    requires w == s + [c] + t && i <= |s| && !IsDigit(c) && c != '\0'
    ensures Compare(Key(w, i), Key(s, i)) == Sign(Order(c)) != 0
    decreases |s| - i
  {
    if i == |s| {
      assert w[i] == c;
    } else if !IsDigit(s[i]) {
      NonDigitDecides(s, c, t, w, i + 1);
      assert Tail(Key(w, i)) == Key(w, i + 1) && Tail(Key(s, i)) == Key(s, i + 1);
    } else {
      var e := RunEnd(s, i);
      RunEndIs(w, i, e);
      SameValue(s, w, i, e);
      NonDigitDecides(s, c, t, w, e);
      CompareNumbers(w, s, i, i);
    }
  }

  /** The tilde sorts before everything, even the end of a part. */
  lemma TildeFirst(s: string, t: string, w: string, i: nat)
    requires w == s + "~" + t && i <= |s|
    ensures Compare(Key(w, i), Key(s, i)) == -1
  {
    NonDigitDecides(s, '~', t, w, i);
  }

  // ----- test_version

  datatype Operator = VER_NULL | VER_EQUAL | VER_LESS | VER_LESS_EQUAL | VER_MORE | VER_MORE_EQUAL | VER_ANY

  /** Whether version a stands in the relation op to version b. */
  predicate Passes(a: CString, b: CString, op: Operator) {
    match op
    case VER_ANY => true
    case VER_EQUAL => CompareVersions(a, b) == 0
    case VER_LESS => CompareVersions(a, b) < 0
    case VER_LESS_EQUAL => CompareVersions(a, b) <= 0
    case VER_MORE => CompareVersions(a, b) > 0
    case VER_MORE_EQUAL => CompareVersions(a, b) >= 0
    case VER_NULL => false
  }

  method TestVersion(version1: CString, version2: CString, op: Operator) returns (ok: bool)
    ensures ok == Passes(version1, version2, op)
  {
    var result := VersionCompare(version1, version2);
    match op {
      case VER_ANY => ok := true;
      case VER_EQUAL => ok := result == 0;
      case VER_LESS => ok := result < 0;
      case VER_LESS_EQUAL => ok := result <= 0;
      case VER_MORE => ok := result > 0;
      case VER_MORE_EQUAL => ok := result >= 0;
      case VER_NULL => ok := false;
    }
  }
}
