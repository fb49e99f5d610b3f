/** Dependency lines as they are written, and that add_split_dependencies reads them back. */
module DependencyLines {
  import opened Optionals
  import opened Versions
  import opened CStrings
  import opened PackageTables
  import opened Dependencies

  // ----- how a line is written

  /** A part of a line that none of its punctuation occurs in. */
  predicate Plain(s: string) {
    forall k :: 0 <= k < |s| ==> s[k] != '\0' && s[k] !in " (),|"
  }

  function OperatorText(op: Operator): string {
    match op
    case VER_EQUAL => "="
    case VER_LESS => "<<"
    case VER_LESS_EQUAL => "<="
    case VER_MORE => ">>"
    case VER_MORE_EQUAL => ">="
    case _ => ""
  }

  /** An alternative that can be written down: a name, and an operator with a version or neither. */
  predicate EdgeOk(e: Edge, kind: nat) {
    && e.name != "" && Plain(e.name) && e.kind == kind && e.alternatives == 0
    && e.op != VER_NULL && if e.op == VER_ANY then e.version == "ANY" else Plain(e.version)
  }

  function EdgeText(e: Edge): string {
    if e.op == VER_ANY then e.name else e.name + " (" + OperatorText(e.op) + " " + e.version + ")"
  }

  /** The parts with delim between each two. */
  function Join(parts: seq<string>, delim: char): string {
    if parts == [] then ""
    else if |parts| == 1 then parts[0]
    else parts[0] + [delim] + Join(parts[1..], delim)
  }

  /** Alternatives are set off by a bar with a space on each side. */
  function AlternativeTexts(es: seq<Edge>): (ts: seq<string>)
    ensures |ts| == |es|
  {
    seq(|es|, k requires 0 <= k < |es| =>
      (if k == 0 then "" else " ") + EdgeText(es[k]) + (if k == |es| - 1 then "" else " "))
  }

  function ClauseText(es: seq<Edge>): string {
    Join(AlternativeTexts(es), '|')
  }

  /** A clause that can be written down; only one to depend on has several alternatives. */
  predicate WrittenOk(c: Clause, kind: nat) {
    && c.kind == kind && c.alts != [] && (forall k :: 0 <= k < |c.alts| ==> EdgeOk(c.alts[k], kind))
    && (if |c.alts| > 1 then (kind == 1 || kind == 3) && c.ored && c.text == ClauseText(c.alts) else !c.ored && c.text == "")
  }

  /** Clauses are set off by a comma and a space. */
  function ClauseTexts(cs: seq<Clause>): (ts: seq<string>)
    ensures |ts| == |cs|
  {
    seq(|cs|, k requires 0 <= k < |cs| => (if k == 0 then "" else " ") + ClauseText(cs[k].alts))
  }

  function LineText(cs: seq<Clause>): string {
    Join(ClauseTexts(cs), ',')
  }

  // ----- what strtok_r makes of it

  predicate Splits(parts: seq<string>, delim: char) {
    forall k :: 0 <= k < |parts| ==> parts[k] != "" && delim !in parts[k]
  }

  /** The token at b, behind at most one delimiter. */
  lemma TokenAt(s: CString, delim: char, i: nat, b: nat, p: string, rest: string)
    requires i <= b < |s| && s[b..] == p + rest && p != "" && delim !in p && (rest != "" ==> rest[0] == delim)
    requires b == i || (b == i + 1 && s[i] == delim)
    ensures b + |p| <= |s| && s[b + |p|..] == rest && Tokens(s, delim, i) == [p] + Tokens(s, delim, b + |p|)
  {
    hide SpanEnd, BreakEnd;
    Behind(s, b, p, rest);
    assert p[0] in p;
    FromDelim(s, delim, i, b);
    forall k | b <= k < b + |p|
      ensures s[k] != delim
    {
      assert s[b + (k - b)] == p[k - b];
      assert p[k - b] in p;
    }
    UpToDelim(s, delim, b, b + |p|);
  }

  /** The tokens of parts that delimiters set off, behind at most one delimiter. */
  lemma {:induction false} TokensFrom(s: CString, delim: char, i: nat, parts: seq<string>, before: string)
    requires i <= |s| && Splits(parts, delim)
    requires before in ["", [delim]] && s[i..] == before + Join(parts, delim)
    ensures Tokens(s, delim, i) == parts
    decreases parts
  {
    hide Tokens, Join, Splits;
    if parts == [] {
      NoParts(s, delim, i, before);
    } else {
      var before', b := if |parts| == 1 then "" else [delim], i + |before|;
      var rest := before' + Join(parts[1..], delim);
      JoinFirst(parts, delim, before', rest);
      FirstPart(s, delim, i, b, before, parts[0] + rest);
      TokenAt(s, delim, i, b, parts[0], rest);
      TokensFrom(s, delim, b + |parts[0]|, parts[1..], before');
      assert parts == [parts[0]] + parts[1..];
    }
  }

  lemma NoParts(s: CString, delim: char, i: nat, before: string)
    requires i <= |s| && before in ["", [delim]] && s[i..] == before + Join([], delim)
    ensures Tokens(s, delim, i) == []
  {
    assert before + "" == before;
    OnlyDelims(s, delim, i);
  }

  lemma JoinFirst(parts: seq<string>, delim: char, before: string, rest: string)
    requires parts != [] && Splits(parts, delim) && before == (if |parts| == 1 then "" else [delim])
    requires rest == before + Join(parts[1..], delim)
    ensures Join(parts, delim) == parts[0] + rest && (rest != "" ==> rest[0] == delim)
    ensures parts[0] != "" && delim !in parts[0] && Splits(parts[1..], delim)
  {
    if |parts| == 1 {
      assert parts[0] + rest == parts[0];
    } else {
      assert parts[0] + [delim] + Join(parts[1..], delim) == parts[0] + rest;
    }
  }

  lemma FirstPart(s: string, delim: char, i: nat, b: nat, before: string, text: string)
    requires i <= |s| && text != "" && before in ["", [delim]] && b == i + |before| && s[i..] == before + text
    ensures i <= b < |s| && s[b..] == text && (b == i || (b == i + 1 && s[i] == delim))
  {
    assert before != "" ==> s[i..][0] == delim;
    assert s[b..] == s[i..][|before|..];
  }

  lemma Behind(s: string, b: nat, p: string, rest: string)
    requires b <= |s| && s[b..] == p + rest
    ensures b + |p| <= |s| && s[b..b + |p|] == p && s[b + |p|..] == rest
    ensures forall k :: 0 <= k < |p| ==> s[b + k] == p[k]
    ensures rest != "" ==> b + |p| < |s| && s[b + |p|] == rest[0]
  {
    assert s[b..][..|p|] == p && s[b..][|p|..] == rest;
    assert forall k :: 0 <= k < |p| ==> s[b..][k] == p[k];
    assert rest != "" ==> s[b..][|p|] == rest[0];
  }

  lemma OnlyDelims(s: CString, delim: char, i: nat)
    requires i <= |s| && (s[i..] == "" || s[i..] == [delim])
    ensures Tokens(s, delim, i) == []
  {
    assert forall k :: i <= k < |s| ==> s[k] == s[i..][k - i];
    SpanEndIs(s, i, [delim], |s|);
  }

  lemma FromDelim(s: string, delim: char, i: nat, b: nat)
    requires i <= b < |s| && s[b] != delim && forall k :: i <= k < b ==> s[k] == delim
    ensures SpanEnd(s, i, [delim]) == b
  {
    SpanEndIs(s, i, [delim], b);
  }

  lemma UpToDelim(s: string, delim: char, b: nat, e: nat)
    requires b <= e <= |s| && (e < |s| ==> s[e] == delim) && forall k :: b <= k < e ==> s[k] != delim
    ensures BreakEnd(s, b, [delim]) == e
  {
    BreakEndIs(s, b, [delim], e);
  }

  // ----- one alternative

  lemma OperatorAgain(op: Operator)
    requires op != VER_NULL && op != VER_ANY
    ensures ParseOperator(OperatorText(op)) == Some(op) && 1 <= |OperatorText(op)| <= 2
    ensures forall k :: 0 <= k < |OperatorText(op)| ==> OperatorText(op)[k] in "<=>"
  {
    assert "<="[1] != "<<"[1] && ">="[1] != ">>"[1] && ">="[0] != "<="[0];
    match op {
      case VER_LESS_EQUAL => assert !("<=" <= "<<");
      case VER_MORE => assert !(">>" <= "<<") && !(">>" <= "<=");
      case VER_MORE_EQUAL => assert !(">=" <= "<<") && !(">=" <= "<=") && !(">=" <= ">>");
      case _ =>
    }
  }

  lemma BlankFirst(before: string, s: string, field: string)
    requires before in ["", " "] && field == before + s && s != "" && s[0] != ' '
    ensures field[SpanEnd(field, 0, " ")..] == s
  {
    assert before != "" ==> field[0] == ' ';
    assert field[|before|] == s[0];
    SpanEndIs(field, 0, " ", |before|);
  }

  /** A name alone. */
  lemma NameAgain(name: CString, behind: string, s: string)
    requires name != "" && Plain(name) && behind in ["", " "] && s == name + behind
    ensures BreakEnd(s, 0, " (") == |name| && s[..|name|] == name && BreakEnd(s, 0, "(") == |s|
  {
    forall k | 0 <= k < |s|
      ensures s[k] != '(' && (k < |name| ==> s[k] == name[k])
    {
    }
    BreakEndIs(s, 0, " (", |name|);
    BreakEndIs(s, 0, "(", |s|);
  }

  /** Where the parts of an alternative with a version stand. */
  ghost predicate Parts(s: string, name: string, op: string, version: string) {
    var a, b := |name| + 2, |name| + 3 + |op|;
    && |s| > b + |version| && (forall k :: 0 <= k < |name| ==> s[k] == name[k])
    && s[|name|] == ' ' && s[|name| + 1] == '('
    && (forall k :: 0 <= k < |op| ==> s[a + k] == op[k]) && s[b - 1] == ' '
    && (forall k :: 0 <= k < |version| ==> s[b + k] == version[k]) && s[b + |version|] == ')'
  }

  lemma PartsAre(name: string, op: string, version: string, behind: string, s: string)
    requires s == name + " (" + op + " " + version + ")" + behind
    ensures Parts(s, name, op, version)
  {
  }

  /** The name ends at the space, the parenthesis is behind it. */
  lemma NamePart(s: string, name: string, op: string, version: string)
    requires Parts(s, name, op, version) && Plain(name)
    ensures BreakEnd(s, 0, " (") == |name| && s[..|name|] == name && BreakEnd(s, 0, "(") == |name| + 1
  {
    BreakEndIs(s, 0, " (", |name|);
    BreakEndIs(s, 0, "(", |name| + 1);
  }

  lemma OperatorPart(s: string, name: string, op: string, version: string)
    requires Parts(s, name, op, version) && op != "" && forall k :: 0 <= k < |op| ==> op[k] in "<=>"
    ensures SpanEnd(s, |name| + 1, " (") == |name| + 2 && SpanEnd(s, |name| + 2, "<=>") == |name| + 2 + |op|
    ensures s[|name| + 2..|name| + 2 + |op|] == op
  {
    var a := |name| + 2;
    assert s[a] == op[0];
    SpanEndIs(s, a - 1, " (", a);
    forall k | a <= k < a + |op|
      ensures s[k] in "<=>"
    {
      assert s[a + (k - a)] == op[k - a];
    }
    SpanEndIs(s, a, "<=>", a + |op|);
  }

  lemma VersionPart(s: string, name: string, op: string, version: string)
    requires Parts(s, name, op, version) && Plain(version)
    ensures var b := |name| + 3 + |op|;
      SpanEnd(s, b - 1, " ") == b && BreakEnd(s, b, " )") == b + |version| && s[b..b + |version|] == version
  {
    var b := |name| + 3 + |op|;
    assert version != "" ==> s[b + 0] == version[0];
    SpanEndIs(s, b - 1, " ", b);
    forall k | b <= k < b + |version|
      ensures s[k] !in " )"
    {
      assert s[b + (k - b)] == version[k - b];
    }
    BreakEndIs(s, b, " )", b + |version|);
  }

  lemma EdgeStart(e: Edge, kind: nat, behind: string)
    requires EdgeOk(e, kind)
    ensures EdgeText(e) + behind != "" && (EdgeText(e) + behind)[0] == e.name[0] != ' '
  {
  }

  lemma ParsedName(field: CString, kind: nat, s: string, name: CString)
    requires field[SpanEnd(field, 0, " ")..] == s && BreakEnd(s, 0, "(") == |s|
    requires s[..BreakEnd(s, 0, " (")] == name
    ensures ParseEdge(field, kind) == Some(Edge(VER_ANY, kind, name, "ANY", 0))
  {
    hide SpanEnd, BreakEnd, ParseOperator;
  }

  lemma ParsedVersion(field: CString, kind: nat, s: string, name: CString, open: nat, from: nat, to: nat, v: nat, end: nat,
                      op: Operator, version: CString)
    requires field[SpanEnd(field, 0, " ")..] == s && s[..BreakEnd(s, 0, " (")] == name
    requires open < |s| && BreakEnd(s, 0, "(") == open && SpanEnd(s, open, " (") == from && SpanEnd(s, from, "<=>") == to
    requires SpanEnd(s, to, " ") == v && BreakEnd(s, v, " )") == end
    requires ParseOperator(s[from..to]) == Some(op) && s[v..end] == version
    ensures ParseEdge(field, kind) == Some(Edge(op, kind, name, version, 0))
  {
    hide SpanEnd, BreakEnd, ParseOperator;
  }

  /** A space before it is skipped, and one behind it does no harm. */
  lemma EdgeAgain(e: Edge, kind: nat, before: string, behind: string, field: CString)
    requires EdgeOk(e, kind) && before in ["", " "] && behind in ["", " "] && field == before + EdgeText(e) + behind
    ensures ParseEdge(field, kind) == Some(e)
  {
    hide Plain, OperatorText, ParseOperator, BreakEnd, SpanEnd, Parts, ParseEdge;
    var s := EdgeText(e) + behind;
    EdgeStart(e, kind, behind);
    assert field == before + s;
    BlankFirst(before, s, field);
    if e.op == VER_ANY {
      NameAgain(e.name, behind, s);
      ParsedName(field, kind, s, e.name);
    } else {
      OperatorAgain(e.op);
      PartsAre(e.name, OperatorText(e.op), e.version, behind, s);
      VersionAgain(e.name, e.op, OperatorText(e.op), e.version, kind, s, field);
    }
  }

  lemma VersionAgain(name: CString, op: Operator, opText: string, version: CString, kind: nat, s: string, field: CString)
    requires Parts(s, name, opText, version) && Plain(name) && Plain(version) && field[SpanEnd(field, 0, " ")..] == s
    requires ParseOperator(opText) == Some(op) && opText != "" && forall k :: 0 <= k < |opText| ==> opText[k] in "<=>"
    ensures ParseEdge(field, kind) == Some(Edge(op, kind, name, version, 0))
  {
    hide Plain, ParseOperator, BreakEnd, SpanEnd, Parts, ParseEdge;
    NamePart(s, name, opText, version);
    OperatorPart(s, name, opText, version);
    VersionPart(s, name, opText, version);
    var a, b := |name| + 2, |name| + 2 + |opText|;
    PartsBound(s, name, opText, version);
    ParsedVersion(field, kind, s, name, a - 1, a, b, b + 1, b + 1 + |version|, op, version);
  }

  lemma PartsBound(s: string, name: string, op: string, version: string)
    requires Parts(s, name, op, version)
    ensures |s| > |name| + 3 + |op| + |version|
  {
  }
  // ----- characters that separate

  lemma EdgeTextWithout(e: Edge, kind: nat, c: char)
    requires EdgeOk(e, kind) && c in ['\0', '|', ',']
    ensures c !in EdgeText(e)
  {
    hide Plain, OperatorText, ParseOperator;
    PlainWithout(e.name, c);
    if e.op != VER_ANY {
      OperatorAgain(e.op);
      PlainWithout(e.version, c);
      PartsWithout(e.name, OperatorText(e.op), e.version, c);
    }
  }

  lemma PlainWithout(s: string, c: char)
    requires Plain(s) && c in ['\0', '|', ',']
    ensures c !in s
  {
  }

  lemma PartsWithout(name: string, op: string, version: string, c: char)
    requires c !in name && c !in version && c !in " ()" && c !in "<=>" && forall k :: 0 <= k < |op| ==> op[k] in "<=>"
    ensures c !in name + " (" + op + " " + version + ")"
  {
    var t := name + " (" + op + " " + version + ")";
    forall k | 0 <= k < |t|
      ensures t[k] != c
    {
      WhichPart(t, name, op, version, k);
    }
  }

  lemma WhichPart(t: string, name: string, op: string, version: string, k: nat)
    requires t == name + " (" + op + " " + version + ")" && k < |t|
    ensures t[k] in name || t[k] in op || t[k] in version || t[k] in " ()"
  {
  }

  lemma {:induction false} JoinWithout(parts: seq<string>, delim: char, c: char)
    requires c != delim && forall k :: 0 <= k < |parts| ==> c !in parts[k]
    ensures c !in Join(parts, delim)
    decreases parts
  {
    if |parts| > 1 { JoinWithout(parts[1..], delim, c); }
  }

  lemma JoinDelims(parts: seq<string>, delim: char)
    requires parts != [] && Splits(parts, delim)
    ensures delim in Join(parts, delim) <==> |parts| > 1
    ensures Join(parts, delim) != "" && Join(parts, delim)[0] == parts[0][0]
  {
    if |parts| > 1 { assert Join(parts, delim)[|parts[0]|] == delim; }
  }

  // ----- one clause

  lemma AlternativesSplit(es: seq<Edge>, kind: nat)
    requires forall k :: 0 <= k < |es| ==> EdgeOk(es[k], kind)
    ensures Splits(AlternativeTexts(es), '|')
    ensures forall k :: 0 <= k < |es| ==> '\0' !in AlternativeTexts(es)[k] && ',' !in AlternativeTexts(es)[k]
    ensures es != [] ==> AlternativeTexts(es)[0][0] != ' '
  {
    hide EdgeText, EdgeOk;
    forall k | 0 <= k < |es|
      ensures AlternativeTexts(es)[k] != "" && (k == 0 ==> AlternativeTexts(es)[k][0] != ' ')
      ensures forall c :: c in ['\0', '|', ','] ==> c !in AlternativeTexts(es)[k]
    {
      EdgeFirst(es[k], kind);
      EdgeTextWithout(es[k], kind, '\0');
      EdgeTextWithout(es[k], kind, '|');
      EdgeTextWithout(es[k], kind, ',');
    }
  }

  lemma EdgeFirst(e: Edge, kind: nat)
    requires EdgeOk(e, kind)
    ensures EdgeText(e) != "" && EdgeText(e)[0] != ' '
  {
    EdgeStart(e, kind, "");
    assert EdgeText(e) + "" == EdgeText(e);
  }

  /** What holds of the text of a clause. */
  lemma ClauseTextIs(es: seq<Edge>, kind: nat)
    requires es != [] && forall k :: 0 <= k < |es| ==> EdgeOk(es[k], kind)
    ensures ClauseText(es) != "" && ClauseText(es)[0] != ' ' && '\0' !in ClauseText(es) && ',' !in ClauseText(es)
    ensures '|' in ClauseText(es) <==> |es| > 1
  {
    hide EdgeOk, AlternativeTexts, Join;
    AlternativesSplit(es, kind);
    JoinDelims(AlternativeTexts(es), '|');
    JoinWithout(AlternativeTexts(es), '|', '\0');
    JoinWithout(AlternativeTexts(es), '|', ',');
  }

  lemma {:induction false} EdgesAgain(ts: seq<CString>, es: seq<Edge>, kind: nat)
    requires |ts| == |es| && forall k :: 0 <= k < |ts| ==> ParseEdge(ts[k], kind) == Some(es[k])
    ensures ParseEdges(ts, kind) == Some(es)
    decreases ts
  {
    hide ParseEdge;
    if ts != [] {
      var n := |ts| - 1;
      EdgesAgain(ts[..n], es[..n], kind);
      assert es == es[..n] + [es[n]];
    }
  }

  lemma AlternativesAgain(es: seq<Edge>, kind: nat, text: CString)
    requires es != [] && (forall k :: 0 <= k < |es| ==> EdgeOk(es[k], kind)) && text == ClauseText(es)
    ensures Tokens(text, '|', 0) == AlternativeTexts(es) && ParseEdges(Tokens(text, '|', 0), kind) == Some(es)
  {
    hide EdgeOk, EdgeText, ParseEdge, ParseEdges, Tokens, Join;
    AlternativesSplit(es, kind);
    assert text[0..] == "" + text;
    TokensFrom(text, '|', 0, AlternativeTexts(es), "");
    var ts := Tokens(text, '|', 0);
    forall k | 0 <= k < |ts|
      ensures ParseEdge(ts[k], kind) == Some(es[k])
    {
      EdgeAgain(es[k], kind, if k == 0 then "" else " ", if k == |es| - 1 then "" else " ", ts[k]);
    }
    EdgesAgain(ts, es, kind);
  }

  /** A clause is read back from its field, with or without a space before it. */
  lemma ClauseAgain(c: Clause, kind: nat, before: string, field: CString)
    requires WrittenOk(c, kind) && before in ["", " "] && field == before + ClauseText(c.alts)
    ensures ClausesOf(field, kind) == Some([c]) && Tokens(Stripped(field), '|', 0) != []
  {
    hide EdgeOk, ClauseText, AlternativeTexts, ParseEdges, Tokens, SpanEnd;
    ClauseTextIs(c.alts, kind);
    BlankFirst(before, ClauseText(c.alts), field);
    AlternativesAgain(c.alts, kind, Stripped(field));
    if |c.alts| == 1 { assert c.alts == [c.alts[0]] && Singles(c.alts, kind) == [c]; }
  }

  /** In lines of other kinds a bar only separates: each alternative stands alone. */
  lemma BarSeparates(es: seq<Edge>, kind: nat, before: string, field: CString)
    requires es != [] && (forall k :: 0 <= k < |es| ==> EdgeOk(es[k], kind)) && kind != 1 && kind != 3
    requires before in ["", " "] && field == before + ClauseText(es)
    ensures ClausesOf(field, kind) == Some(Singles(es, kind))
  {
    hide EdgeOk, ClauseText, AlternativeTexts, ParseEdges, Tokens, SpanEnd;
    ClauseTextIs(es, kind);
    BlankFirst(before, ClauseText(es), field);
    AlternativesAgain(es, kind, Stripped(field));
  }

  // ----- the line

  lemma {:induction false} ClausesAgain(fields: seq<CString>, cs: seq<Clause>, kind: nat)
    requires |fields| == |cs| && forall k :: 0 <= k < |fields| ==> ClausesOf(fields[k], kind) == Some([cs[k]])
    ensures LineClauses(fields, kind) == Some(cs)
    decreases fields
  {
    hide ClausesOf;
    if fields != [] {
      var n := |fields| - 1;
      ClausesAgain(fields[..n], cs[..n], kind);
      assert cs == cs[..n] + [cs[n]];
    }
  }

  lemma FieldsSplit(cs: seq<Clause>, kind: nat)
    requires forall k :: 0 <= k < |cs| ==> WrittenOk(cs[k], kind)
    ensures Splits(ClauseTexts(cs), ',')
  {
    hide ClauseText, EdgeOk;
    forall k | 0 <= k < |cs|
      ensures ClauseTexts(cs)[k] != "" && ',' !in ClauseTexts(cs)[k]
    {
      assert WrittenOk(cs[k], kind);
      ClauseTextIs(cs[k].alts, kind);
    }
  }

  /** A line that is written from clauses is read back as these clauses. */
  lemma LineAgain(cs: seq<Clause>, kind: nat, line: CString)
    requires cs != [] && (forall k :: 0 <= k < |cs| ==> WrittenOk(cs[k], kind)) && line == LineText(cs)
    ensures LineOk(line) && LineClauses(Tokens(line, ',', 0), kind) == Some(cs)
  {
    hide WrittenOk, ClauseText, ClausesOf, LineClauses, Tokens, Join;
    FieldsSplit(cs, kind);
    assert line[0..] == "" + line;
    TokensFrom(line, ',', 0, ClauseTexts(cs), "");
    var fields := Tokens(line, ',', 0);
    forall k | 0 <= k < |fields|
      ensures ClausesOf(fields[k], kind) == Some([cs[k]]) && Tokens(Stripped(fields[k]), '|', 0) != []
    {
      ClauseAgain(cs[k], kind, if k == 0 then "" else " ", fields[k]);
    }
    ClausesAgain(fields, cs, kind);
  }

  // ----- what the operators mean

  /** The relation that each operator of a dependency line asks for. */
  lemma OperatorsMean(a: CString, b: CString, op: Operator)
    ensures ParseOperator("=") == Some(op) ==> (Passes(a, b, op) <==> CompareVersions(a, b) == 0)
    ensures ParseOperator("<<") == Some(op) ==> (Passes(a, b, op) <==> CompareVersions(a, b) < 0)
    ensures ParseOperator("<=") == Some(op) ==> (Passes(a, b, op) <==> CompareVersions(a, b) <= 0)
    ensures ParseOperator(">>") == Some(op) ==> (Passes(a, b, op) <==> CompareVersions(a, b) > 0)
    ensures ParseOperator(">=") == Some(op) ==> (Passes(a, b, op) <==> CompareVersions(a, b) >= 0)
  {
    hide CompareVersions, ParseOperator;
    OperatorAgain(VER_EQUAL);
    OperatorAgain(VER_LESS);
    OperatorAgain(VER_LESS_EQUAL);
    OperatorAgain(VER_MORE);
    OperatorAgain(VER_MORE_EQUAL);
  }
}
