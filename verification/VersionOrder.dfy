/** What the order of versions means, character by character and number by number. */
module VersionOrder {
  import opened Versions

  /** Comparing one part. */
  ghost function Part(v: CString, w: CString): int {
    Compare(Key(v, 0), Key(w, 0))
  }

  predicate DigitAt(s: string, n: nat) {
    n < |s| && IsDigit(s[n])
  }

  // ----- behind a common beginning

  /** Both begin with the same n characters, and no number goes across their end. */
  predicate Cut(v: string, w: string, n: nat) {
    && n <= |v| && n <= |w| && (forall k :: 0 <= k < n ==> v[k] == w[k])
    && ((n > 0 && DigitAt(v, n - 1)) ==> !DigitAt(v, n) && !DigitAt(w, n))
  }

  lemma {:induction false} CommonGone(v: CString, w: CString, i: nat, n: nat)
    requires Cut(v, w, n) && i <= n
    ensures Compare(Key(v, i), Key(w, i)) == Compare(Key(v, n), Key(w, n))
    decreases n - i
  {
    hide Key, Compare, Order;
    if i == n {
    } else if !IsDigit(v[i]) {
      SkipBoth(v, w, i, i);
      CommonGone(v, w, i + 1, n);
    } else {
      var e := RunEnd(v, i);
      assert e > n ==> DigitAt(v, n - 1) && DigitAt(v, n);
      assert e == n ==> DigitAt(v, n - 1);
      RunEndIs(w, i, e);
      SameValue(v, w, i, e);
      CompareNumbers(v, w, i, i);
      CommonGone(v, w, e, n);
    }
  }

  /** Of two versions with a common beginning, only one part of it matters, the upstream version or the revision. */
  lemma BehindCommon(s: CString, x: CString, y: CString) returns (p: CString)
    requires '-' !in x && '-' !in y && (':' in s || (':' !in x && ':' !in y))
    ensures |p| <= |s| && s[|s| - |p|..] == p
    ensures CompareVersions(s + x, s + y) == Part(p + x, p + y)
  {
    hide Key, Compare, Upstream, Revision, Epoch;
    EpochAndRest(s, x);
    EpochAndRest(s, y);
    UpstreamAndRevision(s, x);
    UpstreamAndRevision(s, y);
    p := if '-' in Rest(s) then Revision(s) else Rest(s);
    if '-' in Rest(s) { LastDash(s); }
    CompareEqual(Key(Upstream(s), 0), Key(Upstream(s), 0));
    CompareEqual(Key("", 0), Key("", 0));
  }

  lemma SameFirstColon(s: string, x: string, w: string)
    requires w == s + x && (':' in s || ':' !in x)
    ensures FirstIndex(s, ':', 0) < |s| ==> FirstIndex(w, ':', 0) == FirstIndex(s, ':', 0)
    ensures FirstIndex(s, ':', 0) == |s| ==> FirstIndex(w, ':', 0) == |w|
  {
    hide FirstIndex;
    var k, l := FirstIndex(s, ':', 0), FirstIndex(w, ':', 0);
    if k < |s| { assert w[k] == ':'; }
    if l < |s| { assert s[l] == ':'; }
  }

  lemma EpochAndRest(s: CString, x: CString)
    requires ':' in s || ':' !in x
    ensures Epoch(s + x) == Epoch(s) && Rest(s + x) == Rest(s) + x
  {
    hide FirstIndex, Epoch, Rest;
    var w: CString := s + x;
    SameFirstColon(s, x, w);
    SameEpoch(s, w);
    RestLonger(s, x, w);
  }

  lemma RestLonger(s: CString, x: CString, w: CString)
    requires w == s + x
    requires FirstIndex(s, ':', 0) < |s| ==> FirstIndex(w, ':', 0) == FirstIndex(s, ':', 0)
    requires FirstIndex(s, ':', 0) == |s| ==> FirstIndex(w, ':', 0) == |w|
    ensures Rest(w) == Rest(s) + x
  {
    hide FirstIndex;
    var k := FirstIndex(s, ':', 0);
    if k < |s| { TailOfSum(s, x, k + 1); }
  }

  lemma TailOfSum(s: string, x: string, k: nat)
    requires k <= |s|
    ensures (s + x)[k..] == s[k..] + x
  {
  }

  lemma UpstreamAndRevision(s: CString, x: CString)
    requires Rest(s + x) == Rest(s) + x && '-' !in x
    ensures if '-' in Rest(s) then Upstream(s + x) == Upstream(s) && Revision(s + x) == Revision(s) + x
            else Upstream(s + x) == Rest(s) + x && Revision(s + x) == ""
  {
    hide Rest, LastIndex;
    var r := Rest(s);
    var w := r + x;
    var k, l := LastIndex(r, '-', |r|), LastIndex(w, '-', |w|);
    if k > 0 { assert w[k - 1] == '-'; }
    if 0 < l <= |r| { assert r[l - 1] == '-'; }
    assert l == k;
    if k > 0 { assert w[k..] == r[k..] + x && w[..k - 1] == r[..k - 1]; }
  }

  // ----- characters

  /** Of two characters that are no digits, c comes first: the tilde, then letters, then all others. */
  predicate Before(c: char, d: char) {
    var letterC := 'a' <= c <= 'z' || 'A' <= c <= 'Z';
    var letterD := 'a' <= d <= 'z' || 'A' <= d <= 'Z';
    if c == '~' || d == '~' then c == '~' && d != '~'
    else if letterC != letterD then letterC
    else c < d
  }

  predicate Plain(c: char) {
    !('0' <= c <= '9') && c != '-' && c != '\0'
  }

  /** At their first difference, two versions are sorted by character, unless there is a digit. */
  lemma CharactersSort(s: CString, c: char, t: CString, d: char, u: CString)
    requires Plain(c) && Plain(d) && Before(c, d) && '-' !in t && '-' !in u
    requires ':' in s || (c != ':' && d != ':' && ':' !in t && ':' !in u)
    ensures CompareVersions(s + [c] + t, s + [d] + u) == -1
  {
    hide Key, Compare, Upstream, Revision, Epoch, CompareVersions;
    var x: CString, y: CString := [c] + t, [d] + u;
    assert s + [c] + t == s + x && s + [d] + u == s + y;
    var p := BehindCommon(s, x, y);
    CommonGone(p + x, p + y, 0, |p|);
    DifferentOrders(p + x, p + y, |p|, |p|);
  }

  /** Only a tilde sorts before the end. */
  lemma EndSorts(s: CString, c: char, t: CString)
    requires Plain(c) && '-' !in t && (':' in s || (c != ':' && ':' !in t))
    ensures CompareVersions(s + [c] + t, s) == if c == '~' then -1 else 1
  {
    hide Key, Compare, Upstream, Revision, Epoch, CompareVersions;
    var x: CString := [c] + t;
    assert s + [c] + t == s + x && s == s + "";
    var p := BehindCommon(s, x, "");
    CommonGone(p + x, p + "", 0, |p|);
    DifferentOrders(p + x, p + "", |p|, |p|);
  }

  predicate EndsInDigit(s: string) {
    s != "" && '0' <= s[|s| - 1] <= '9'
  }

  /** Where no number is under way, a digit sorts before all but the tilde. */
  lemma DigitSorts(s: CString, c: char, t: CString, d: char, u: CString)
    requires '0' <= c <= '9' && Plain(d) && '-' !in t && '-' !in u && !EndsInDigit(s)
    requires ':' in s || (d != ':' && ':' !in t && ':' !in u)
    ensures CompareVersions(s + [c] + t, s + [d] + u) == if d == '~' then 1 else -1
  {
    hide Key, Compare, Upstream, Revision, Epoch, CompareVersions;
    var x: CString, y: CString := [c] + t, [d] + u;
    assert s + [c] + t == s + x && s + [d] + u == s + y;
    var p := BehindCommon(s, x, y);
    if p != "" { assert p[|p| - 1] == s[|s| - 1]; }
    CommonGone(p + x, p + y, 0, |p|);
    DifferentOrders(p + x, p + y, |p|, |p|);
  }

  // ----- numbers

  predicate Digits(x: string) {
    forall k :: 0 <= k < |x| ==> '0' <= x[k] <= '9'
  }

  predicate BeginsWithDigit(s: string) {
    s != "" && '0' <= s[0] <= '9'
  }

  lemma ThreeParts(p: string, x: string, t: string, s: string)
    requires s == p + x + t
    ensures |s| == |p| + |x| + |t| && s[|p|..|p| + |x|] == x && s[|p| + |x|..] == t
    ensures t != "" ==> s[|p| + |x|] == t[0]
    ensures x != "" ==> s[|p|] == x[0]
  {
  }

  lemma DigitsInside(s: string, i: nat, x: string)
    requires i + |x| <= |s| && s[i..i + |x|] == x && Digits(x)
    ensures AllDigits(s, i, i + |x|)
  {
    assert forall k :: i <= k < i + |x| ==> s[k] == s[i..i + |x|][k - i];
  }

  /** s is a number x behind p, or nothing, and t behind it. */
  predicate AsNumber(s: string, p: string, x: string, t: string) {
    s == p + x + t && Digits(x) && !BeginsWithDigit(t) && (x != "" || t == "")
  }

  lemma NumberThere(p: string, x: string, t: string, s: string)
    requires AsNumber(s, p, x, t)
    ensures |p| + |x| <= |s| && AllDigits(s, |p|, |p| + |x|) && RunEnd(s, |p|) == |p| + |x| && s[|p| + |x|..] == t
    ensures |p| < |s| ==> IsDigit(s[|p|])
  {
    hide RunEnd, Digits;
    ThreeParts(p, x, t, s);
    DigitsInside(s, |p|, x);
    RunEndIs(s, |p|, |p| + |x|);
  }

  /** Behind the same beginning, in which no number is under way, compare from there on. */
  lemma BehindPart(p: CString, v: CString, w: CString)
    requires !EndsInDigit(p)
    ensures Part(p + v, p + w) == Compare(Key(p + v, |p|), Key(p + w, |p|))
  {
    hide Key, Compare;
    var a, b := p + v, p + w;
    assert forall k :: 0 <= k < |p| ==> a[k] == p[k] == b[k];
    assert |p| > 0 ==> !DigitAt(a, |p| - 1);
    CommonGone(a, b, 0, |p|);
  }

  lemma RunsDecide(a: string, b: string, i: nat, e: nat, f: nat)
    requires AllDigits(a, i, e) && RunEnd(a, i) == e && (i < |a| ==> IsDigit(a[i]))
    requires AllDigits(b, i, f) && RunEnd(b, i) == f && (i < |b| ==> IsDigit(b[i]))
    ensures var m, n, c := Number(a, i, e), Number(b, i, f), Compare(Key(a, i), Key(b, i));
      (m != n ==> c == Sign(m - n)) && (m == n && a[e..] == b[f..] ==> c == 0)
  {
    hide Key, Compare, Number, RunEnd, Sign;
    CompareNumbers(a, b, i, i);
    if a[e..] == b[f..] { TailsEqual(a, e, b, f, a[e..]); }
  }

  /** At two numbers, or at a number and the end. */
  lemma AtNumbers(p: string, x: string, t: string, y: string, u: string, a: string, b: string)
    requires AsNumber(a, p, x, t) && AsNumber(b, p, y, u)
    ensures AllDigits(a, |p|, |p| + |x|) && AllDigits(b, |p|, |p| + |y|)
    ensures var m, n, c := Number(a, |p|, |p| + |x|), Number(b, |p|, |p| + |y|), Compare(Key(a, |p|), Key(b, |p|));
      (m != n ==> c == Sign(m - n)) && (m == n && t == u ==> c == 0)
  {
    hide Key, Compare, Number, RunEnd, AsNumber, Sign;
    NumberThere(p, x, t, a);
    NumberThere(p, y, u, b);
    RunsDecide(a, b, |p|, |p| + |x|, |p| + |y|);
  }

  /** Two numbers behind the same beginning: if they differ, they decide. */
  lemma NumbersDecide(s: CString, x: CString, t: CString, y: CString, u: CString) returns (p: CString)
    requires Digits(x) && Digits(y) && !EndsInDigit(s) && !BeginsWithDigit(t) && !BeginsWithDigit(u)
    requires x != "" || t == ""
    requires y != "" || u == ""
    requires '-' !in t && '-' !in u && (':' in s || (':' !in t && ':' !in u))
    ensures AllDigits(p + x + t, |p|, |p| + |x|) && AllDigits(p + y + u, |p|, |p| + |y|)
    ensures var m, n := Number(p + x + t, |p|, |p| + |x|), Number(p + y + u, |p|, |p| + |y|);
      && (m != n ==> CompareVersions(s + x + t, s + y + u) == Sign(m - n))
      && (m == n && t == u ==> CompareVersions(s + x + t, s + y + u) == 0)
  {
    hide Key, Compare, CompareVersions, Number, RunEnd, Part;
    var v: CString, w: CString := x + t, y + u;
    assert s + x + t == s + v && s + y + u == s + w;
    p := BehindCommon(s, v, w);
    if p != "" { assert p[|p| - 1] == s[|s| - 1]; }
    assert p + x + t == p + v && p + y + u == p + w;
    BehindPart(p, v, w);
    AtNumbers(p, x, t, y, u, p + v, p + w);
  }

  /** The same from some place on. */
  lemma TailsEqual(v: string, i: nat, w: string, j: nat, t: string)
    requires i <= |v| && j <= |w| && v[i..] == t && w[j..] == t
    ensures Compare(Key(v, i), Key(w, j)) == 0
  {
    hide Key, Compare;
    KeyOfTail(v, i);
    KeyOfTail(w, j);
    CompareEqual(Key(t, 0), Key(t, 0));
  }

  lemma KeyOfTail(v: string, i: nat)
    requires i <= |v|
    ensures Key(v, i) == Key(v[i..], 0)
  {
    KeyShift(v, i, v[i..], 0);
  }

  /** v from i on is w from j on. */
  predicate SameFrom(v: string, i: nat, w: string, j: nat) {
    i <= |v| && j <= |w| && SameTail(v, i, w, j - i)
  }

  predicate SameTail(v: string, i: nat, w: string, d: int) {
    |w| == |v| + d && forall k :: i <= k < |v| ==> SameChar(v, w, k, d)
  }

  predicate SameChar(v: string, w: string, k: nat, d: int) {
    k < |v| && 0 <= k + d < |w| && v[k] == w[k + d]
  }

  lemma {:induction false} KeyShift(v: string, i: nat, w: string, j: nat)
    requires SameFrom(v, i, w, j)
    ensures Key(v, i) == Key(w, j)
    decreases |v| - i
  {
    hide Number, RunEnd, Order;
    if i < |v| {
      assert SameChar(v, w, i, j - i);
      if !IsDigit(v[i]) {
        KeyShift(v, i + 1, w, j + 1);
      } else {
        var e := RunEnd(v, i);
        RunShift(v, i, w, j, e);
        NumberShift(v, i, w, j, e);
        NumberKey(v, i, e);
        NumberKey(w, j, j + (e - i));
        KeyShift(v, e, w, j + (e - i));
      }
    }
  }

  lemma NumberKey(v: string, i: nat, e: nat)
    requires i < |v| && IsDigit(v[i]) && e == RunEnd(v, i)
    ensures AllDigits(v, i, e) && Key(v, i) == [0, Number(v, i, e)] + Key(v, e)
  {
    hide Number, Order;
  }

  lemma RunShift(v: string, i: nat, w: string, j: nat, e: nat)
    requires SameFrom(v, i, w, j) && e == RunEnd(v, i)
    ensures e - i <= |w| - j && j + (e - i) == RunEnd(w, j) && SameFrom(v, e, w, j + (e - i)) && v[i..e] == w[j..j + (e - i)]
  {
    hide RunEnd;
    var f := j + (e - i);
    forall k | j <= k < f
      ensures IsDigit(w[k])
    {
      assert SameChar(v, w, k - (j - i), j - i);
    }
    forall k | i <= k < e
      ensures v[k] == w[k + (j - i)]
    {
      assert SameChar(v, w, k, j - i);
    }
    if e < |v| { assert SameChar(v, w, e, j - i); }
    RunEndIs(w, j, f);
  }

  lemma {:induction false} NumberShift(v: string, i: nat, w: string, j: nat, e: nat)
    requires AllDigits(v, i, e) && j + (e - i) <= |w| && v[i..e] == w[j..j + (e - i)]
    ensures AllDigits(w, j, j + (e - i)) && Number(v, i, e) == Number(w, j, j + (e - i))
    decreases e
  {
    var f := j + (e - i);
    assert forall k :: j <= k < f ==> w[k] == w[j..f][k - j] == v[i..e][k - j] == v[i + (k - j)];
    if i < e {
      assert v[i..e - 1] == v[i..e][..e - 1 - i] && w[j..f - 1] == w[j..f][..e - 1 - i];
      NumberShift(v, i, w, j, e - 1);
    }
  }

  /** The number with more digits is the greater one, if it does not begin with a zero. */
  lemma MoreDigits(s: CString, x: CString, t: CString, y: CString, u: CString)
    requires Digits(x) && Digits(y) && !EndsInDigit(s) && !BeginsWithDigit(t) && !BeginsWithDigit(u)
    requires |x| > |y| && x[0] != '0' && (y != "" || u == "")
    requires '-' !in t && '-' !in u && (':' in s || (':' !in t && ':' !in u))
    ensures CompareVersions(s + x + t, s + y + u) == 1
  {
    hide CompareVersions, Number;
    var p := NumbersDecide(s, x, t, y, u);
    LongerIsGreater(p + x + t, p + y + u, |p|, |p| + |x|, |p|, |p| + |y|);
  }

  /** Of two numbers with as many digits, the first digit that differs decides. */
  lemma FirstDigitDecides(s: CString, q: CString, a: char, x: CString, t: CString, b: char, y: CString, u: CString)
    requires Digits(q) && Digits(x) && Digits(y) && '0' <= a < b <= '9' && |x| == |y|
    requires !EndsInDigit(s) && !BeginsWithDigit(t) && !BeginsWithDigit(u)
    requires '-' !in t && '-' !in u && (':' in s || (':' !in t && ':' !in u))
    ensures CompareVersions(s + (q + [a] + x) + t, s + (q + [b] + y) + u) == -1
  {
    hide CompareVersions, Number;
    var m: CString, n: CString := q + [a] + x, q + [b] + y;
    var p := NumbersDecide(s, m, t, n, u);
    SmallerNumber(p + m + t, p + n + u, |p|, |p| + |q|, |p| + |m|);
  }

  lemma {:induction false} SmallerNumber(v: string, w: string, i: nat, k: nat, e: nat)
    requires AllDigits(v, i, e) && AllDigits(w, i, e) && i <= k < e && v[k] < w[k]
    requires forall j :: i <= j < k ==> v[j] == w[j]
    ensures Number(v, i, e) < Number(w, i, e)
    decreases e
  {
    if k == e - 1 { SameValue(v, w, i, k); } else { SmallerNumber(v, w, i, k, e - 1); }
  }

  /** Zeros in front of a number do not count. */
  lemma ZerosDoNotCount(s: CString, x: CString, t: CString)
    requires Digits(x) && x != "" && !EndsInDigit(s) && !BeginsWithDigit(t)
    requires '-' !in t && (':' in s || ':' !in t)
    ensures CompareVersions(s + ("0" + x) + t, s + x + t) == 0
  {
    hide CompareVersions, Number;
    var z: CString := "0" + x;
    var p := NumbersDecide(s, z, t, x, t);
    var v, w, n := p + z + t, p + x + t, |p|;
    LeadingZero(v, n, n + |z|);
    assert v[n + 1..n + |z|] == x == w[n..n + |x|];
    NumberShift(v, n + 1, w, n, n + |z|);
  }

  // ----- epochs

  predicate EpochText(s: string, x: string, v: string) {
    s == x + ":" + v && Digits(x)
  }

  lemma EpochIs(x: CString, v: CString)
    requires Digits(x) && |x| <= 9
    ensures AllDigits(x, 0, |x|) && Epoch(x + ":" + v) == Number(x, 0, |x|) && Rest(x + ":" + v) == v
  {
    hide Epoch, Rest, Number;
    EpochOf(x + ":" + v, x, v);
  }

  lemma EpochOf(s: CString, x: CString, v: CString)
    requires EpochText(s, x, v) && |x| <= 9
    ensures AllDigits(x, 0, |x|) && Epoch(s) == Number(x, 0, |x|) && Rest(s) == v
  {
    hide Number, FirstIndex, RunEnd, EpochText, Atoi;
    PlainText(x, v, s);
    ColonAt(s, |x|);
    AtoiPlain(s, |x|);
    SameValue(x, s, 0, |x|);
    NumberBelow(x, 0, |x|);
    Pow10Mono(|x|, 9);
    TenToNine();
  }

  lemma PlainText(x: string, v: string, s: string)
    requires EpochText(s, x, v)
    ensures |s| == |x| + 1 + |v| && s[|x|] == ':' && s[|x| + 1..] == v && AllDigits(s, 0, |x|) && AllDigits(x, 0, |x|)
    ensures forall k :: 0 <= k < |x| ==> s[k] == x[k] && s[k] != ':'
  {
  }

  lemma AtoiPlain(s: string, e: nat)
    requires AllDigits(s, 0, e) && e < |s| && s[e] == ':'
    ensures Atoi(s) == Number(s, 0, e)
  {
    hide Number, RunEnd;
    assert SkipSpace(s, 0) == 0;
    RunEndIs(s, 0, e);
  }

  /** Where the parts of a signed epoch stand. */
  lemma SignedText(sign: char, x: string, v: string, s: string)
    requires s == [sign] + x + ":" + v
    ensures |s| == |x| + 2 + |v| && s[0] == sign && s[|x| + 1] == ':' && s[|x| + 2..] == v && s[1..|x| + 1] == x
  {
  }

  lemma ColonAt(s: string, n: nat)
    requires n < |s| && s[n] == ':' && forall j :: 0 <= j < n ==> s[j] != ':'
    ensures FirstIndex(s, ':', 0) == n
  {
  }

  lemma AtoiSigned(s: string, sign: char, e: nat)
    requires |s| > 0 && s[0] == sign && (sign == '-' || sign == '+') && AllDigits(s, 1, e) && (e < |s| ==> !IsDigit(s[e]))
    ensures Atoi(s) == if sign == '-' then 0 - Number(s, 1, e) else Number(s, 1, e)
  {
    hide Number, RunEnd;
    assert SkipSpace(s, 0) == 0;
    RunEndIs(s, 1, e);
  }

  lemma DigitsThere(x: string, s: string)
    requires Digits(x) && |s| > |x| && s[1..|x| + 1] == x
    ensures AllDigits(s, 1, |x| + 1) && AllDigits(x, 0, |x|) && Number(s, 1, |x| + 1) == Number(x, 0, |x|)
    ensures forall j :: 1 <= j < |x| + 1 ==> IsDigit(s[j])
  {
    hide Number;
    assert forall j :: 1 <= j < |x| + 1 ==> s[j] == s[1..|x| + 1][j - 1];
    assert x[0..|x|] == x;
    NumberShift(x, 0, s, 1, |x|);
  }

  /** A sign before the epoch. */
  lemma EpochSigned(sign: char, x: CString, v: CString)
    requires Digits(x) && |x| <= 9 && (sign == '-' || sign == '+')
    ensures AllDigits(x, 0, |x|) && Rest([sign] + x + ":" + v) == v
    ensures Epoch([sign] + x + ":" + v) == (if sign == '-' then 0 - Number(x, 0, |x|) else Number(x, 0, |x|)) % 0x1_0000_0000
  {
    hide Number, FirstIndex, RunEnd, Atoi, Digits;
    var s: CString := [sign] + x + ":" + v;
    SignedText(sign, x, v, s);
    DigitsThere(x, s);
    ColonAt(s, |x| + 1);
    AtoiSigned(s, sign, |x| + 1);
  }

  /** A minus sign makes an epoch later than all without one, for it is not negative any more in 32 bits. */
  lemma EpochMinus(x: CString, v: CString, y: CString, w: CString)
    requires Digits(x) && x != "" && x[0] != '0' && |x| <= 9 && Digits(y) && |y| <= 9
    ensures CompareVersions("-" + x + ":" + v, y + ":" + w) == 1
  {
    hide Epoch, Rest, Number, Upstream, Revision, Key, Compare;
    EpochSigned('-', x, v);
    EpochIs(y, w);
    NumberAbove(x, 0, |x|);
    Pow10Mono(0, |x| - 1);
    NumberBelow(x, 0, |x|);
    NumberBelow(y, 0, |y|);
    Pow10Mono(|x|, 9);
    Pow10Mono(|y|, 9);
    TenToNine();
  }

  /** A plus sign changes nothing. */
  lemma EpochPlus(x: CString, v: CString)
    requires Digits(x) && |x| <= 9
    ensures CompareVersions("+" + x + ":" + v, x + ":" + v) == 0
  {
    hide Epoch, Rest, Number, Upstream, Revision, Key, Compare;
    EpochSigned('+', x, v);
    EpochIs(x, v);
    NumberBelow(x, 0, |x|);
    Pow10Mono(|x|, 9);
    TenToNine();
    SameRest("+" + x + ":" + v, x + ":" + v);
    VersionReflexive(x + ":" + v);
    CompareEqual(Key(Upstream(x + ":" + v), 0), Key(Upstream(x + ":" + v), 0));
    CompareEqual(Key(Revision(x + ":" + v), 0), Key(Revision(x + ":" + v), 0));
  }

  lemma {:induction false} SpaceShift(w: string, s: string, i: nat)
    requires i <= |s| && |w| == |s| + 1 && w[1..] == s
    ensures SkipSpace(w, i + 1) == SkipSpace(s, i) + 1
    decreases |s| - i
  {
    if i < |s| {
      assert w[1..][i] == w[i + 1];
      SpaceShift(w, s, i + 1);
    }
  }

  lemma {:induction false} ColonShift(w: string, s: string, i: nat)
    requires i <= |s| && |w| == |s| + 1 && w[1..] == s
    ensures FirstIndex(w, ':', i + 1) == FirstIndex(s, ':', i) + 1
    decreases |s| - i
  {
    if i < |s| {
      assert w[1..][i] == w[i + 1];
      ColonShift(w, s, i + 1);
    }
  }

  lemma NumberAtShift(w: string, s: string, i: nat)
    requires i <= |s| && |w| == |s| + 1 && w[1..] == s
    ensures NumberAt(w, i + 1) == NumberAt(s, i)
  {
    hide Number, RunEnd;
    forall k | i <= k < |s|
      ensures SameChar(s, w, k, 1)
    {
      assert w[1..][k] == w[k + 1];
    }
    var e := RunEnd(s, i);
    RunShift(s, i, w, i + 1, e);
    NumberShift(s, i, w, i + 1, e);
  }

  lemma AtoiShift(c: char, w: string, s: string)
    requires |w| == |s| + 1 && w[1..] == s && w[0] == c && (c == ' ' || 9 <= c as int <= 13)
    ensures Atoi(w) == Atoi(s)
  {
    hide NumberAt, SkipSpace;
    FirstSpace(w);
    SpaceShift(w, s, 0);
    var i := SkipSpace(s, 0);
    if i < |s| {
      assert w[1..][i] == w[i + 1];
      NumberAtShift(w, s, i + 1);
    }
    NumberAtShift(w, s, i);
  }

  lemma FirstSpace(w: string)
    requires w != "" && (w[0] == ' ' || 9 <= w[0] as int <= 13)
    ensures SkipSpace(w, 0) == SkipSpace(w, 1)
  {
  }

  lemma SpaceBefore(c: char, s: CString, w: CString)
    requires ':' in s && (c == ' ' || 9 <= c as int <= 13) && w == [c] + s
    ensures Epoch(w) == Epoch(s) && Rest(w) == Rest(s)
  {
    hide Atoi, FirstIndex, Rest;
    assert w[1..] == s;
    ColonShift(w, s, 0);
    ColonStart(w);
    AtoiShift(c, w, s);
    RestAt(s, w, FirstIndex(s, ':', 0));
  }

  lemma RestAt(s: CString, w: CString, k: nat)
    requires k < |s| && |w| == |s| + 1 && w[1..] == s && FirstIndex(s, ':', 0) == k && FirstIndex(w, ':', 0) == k + 1
    ensures Rest(w) == Rest(s)
  {
    hide FirstIndex;
    assert w[k + 2..] == w[1..][k + 1..];
  }

  /** White space before the epoch does not count. */
  lemma EpochSpace(c: char, s: CString)
    requires ':' in s && (c == ' ' || 9 <= c as int <= 13)
    ensures CompareVersions([c] + s, s) == 0
  {
    hide Epoch, Rest, Upstream, Revision, Key, Compare;
    var w: CString := [c] + s;
    SpaceBefore(c, s, w);
    SameRest(w, s);
    CompareEqual(Key(Upstream(s), 0), Key(Upstream(s), 0));
    CompareEqual(Key(Revision(s), 0), Key(Revision(s), 0));
  }

  lemma ColonStart(w: string)
    requires w != "" && w[0] != ':'
    ensures FirstIndex(w, ':', 0) == FirstIndex(w, ':', 1)
  {
  }

  lemma TenToNine()
    ensures Pow10(9) == 1_000_000_000
  {
    assert Pow10(3) == 1000;
    assert Pow10(6) == 1000 * Pow10(3);
    assert Pow10(9) == 1000 * Pow10(6);
  }

  /** The epoch decides before anything else; here it has more digits. */
  lemma EpochMoreDigits(x: CString, v: CString, y: CString, w: CString)
    requires Digits(x) && Digits(y) && |y| < |x| <= 9 && x[0] != '0'
    ensures CompareVersions(x + ":" + v, y + ":" + w) == 1
  {
    hide Epoch, Rest, Number, Upstream, Revision, Key, Compare;
    EpochIs(x, v);
    EpochIs(y, w);
    LongerIsGreater(x, y, 0, |x|, 0, |y|);
  }

  /** Here it has as many. */
  lemma EpochFirstDigit(q: CString, a: char, x: CString, v: CString, b: char, y: CString, w: CString)
    requires Digits(q) && Digits(x) && Digits(y) && '0' <= a < b <= '9' && |x| == |y| && |q| + |x| < 9
    ensures CompareVersions((q + [a] + x) + ":" + v, (q + [b] + y) + ":" + w) == -1
  {
    hide Epoch, Rest, Number, Upstream, Revision, Key, Compare;
    var m: CString, n: CString := q + [a] + x, q + [b] + y;
    EpochIs(m, v);
    EpochIs(n, w);
    SmallerNumber(m, n, 0, |q|, |m|);
  }

  /** No epoch is the epoch 0. */
  lemma NoEpoch(v: CString)
    requires ':' !in v
    ensures CompareVersions("0:" + v, v) == 0
  {
    hide Upstream, Revision, Key, Compare, Number;
    var z: CString := "0:" + v;
    assert "0" + ":" + v == z;
    EpochIs("0", v);
    ZeroIsZero();
    SameRest(z, v);
    CompareEqual(Key(Upstream(v), 0), Key(Upstream(v), 0));
    CompareEqual(Key(Revision(v), 0), Key(Revision(v), 0));
  }

  lemma ZeroIsZero()
    ensures Number("0", 0, 1) == 0
  {
    var s := "0";
    assert Number(s, 0, 1) == 10 * Number(s, 0, 0) + Digit(s[0]);
  }

  lemma SameRest(v: CString, w: CString)
    requires Rest(v) == Rest(w)
    ensures Upstream(v) == Upstream(w) && Revision(v) == Revision(w)
  {
  }

  // ----- revisions

  /** The revision decides where the upstream versions are equal. */
  lemma RevisionsSecond(v: CString, r: CString, w: CString, q: CString)
    requires ':' !in v && ':' !in r && ':' !in w && ':' !in q
    requires '-' !in v && '-' !in r && '-' !in w && '-' !in q
    ensures CompareVersions(v + "-" + r, w + "-" + q)
         == if CompareVersions(v, w) != 0 then CompareVersions(v, w) else CompareVersions(r, q)
  {
    hide Epoch, Rest, Upstream, Revision, Key, Compare;
    WithRevision(v, r);
    WithRevision(w, q);
    Bare(v);
    Bare(w);
    Bare(r);
    Bare(q);
    CompareEqual(Key("", 0), Key("", 0));
  }

  lemma Bare(v: CString)
    requires ':' !in v && '-' !in v
    ensures Epoch(v) == 0 && Rest(v) == v && Upstream(v) == v && Revision(v) == ""
  {
    WithoutDash(v);
  }

  lemma WithRevision(v: CString, r: CString)
    requires ':' !in v && ':' !in r && '-' !in r
    ensures Epoch(v + "-" + r) == 0 && Upstream(v + "-" + r) == v && Revision(v + "-" + r) == r
  {
    var s: CString := v + "-" + r;
    var k, l := FirstIndex(s, ':', 0), LastIndex(s, '-', |s|);
    assert s[|v|] == '-' && s[..|v|] == v && s[|v| + 1..] == r;
    assert Rest(s) == s;
  }
}
