/** The C library's way through a string: strspn, strcspn and strtok_r. */
module CStrings {
  import opened Versions

  /** strspn: the end of the characters of accept at i. */
  function SpanEnd(s: string, i: nat, accept: string): (e: nat)
    requires i <= |s|
    ensures i <= e <= |s| && (e < |s| ==> s[e] !in accept)
    ensures forall k :: i <= k < e ==> s[k] in accept
    decreases |s| - i
  {
    if i < |s| && s[i] in accept then SpanEnd(s, i + 1, accept) else i
  }

  /** strcspn: the end of the characters that are not in reject, at i. */
  function BreakEnd(s: string, i: nat, reject: string): (e: nat)
    requires i <= |s|
    ensures i <= e <= |s| && (e < |s| ==> s[e] in reject)
    ensures forall k :: i <= k < e ==> s[k] !in reject
    decreases |s| - i
  {
    if i < |s| && s[i] !in reject then BreakEnd(s, i + 1, reject) else i
  }

  lemma {:induction false} BreakEndIs(s: string, i: nat, reject: string, e: nat)
    requires i <= e <= |s| && (e < |s| ==> s[e] in reject) && forall k :: i <= k < e ==> s[k] !in reject
    ensures BreakEnd(s, i, reject) == e
    decreases e - i
  {
    if i < e { BreakEndIs(s, i + 1, reject, e); }
  }

  lemma {:induction false} SpanEndIs(s: string, i: nat, accept: string, e: nat)
    requires i <= e <= |s| && (e < |s| ==> s[e] !in accept) && forall k :: i <= k < e ==> s[k] in accept
    ensures SpanEnd(s, i, accept) == e
    decreases e - i
  {
    if i < e { SpanEndIs(s, i + 1, accept, e); }
  }

  /** The tokens that strtok_r finds from i on, one call after the other: none of them is empty. */
  function Tokens(s: CString, delim: char, i: nat): (ts: seq<CString>)
    requires i <= |s|
    ensures forall k :: 0 <= k < |ts| ==> ts[k] != "" && delim !in ts[k]
    decreases |s| - i
  {
    var b := SpanEnd(s, i, [delim]);
    if b == |s| then []
    else
      var e := BreakEnd(s, b, [delim]);
      [s[b..e]] + Tokens(s, delim, e)
  }
}
