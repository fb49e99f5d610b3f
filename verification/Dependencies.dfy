/** Dependency lines: clauses of alternatives, stored as a flat list of edges. */
module Dependencies {
  import opened Optionals
  import opened Versions
  import opened CStrings
  import opened Probing
  import opened PackageTables

  /** One clause of a line. An "or" clause is announced by an edge of its own, which counts the alternatives. */
  datatype Clause = Clause(kind: nat, ored: bool, text: CString, alts: seq<Edge>)

  predicate Depends(kind: nat) {
    kind == EDGE_DEPENDS || kind == EDGE_PRE_DEPENDS
  }

  predicate AllOfKind(es: seq<Edge>, kind: nat) {
    forall k :: 0 <= k < |es| ==> es[k].kind == kind
  }

  /** What add_split_dependencies produces: an "or" clause of a dependency, or a single edge; never empty. */
  predicate ClauseOk(c: Clause) {
    && c.kind % 2 == 1 && AllOfKind(c.alts, c.kind)
    && if c.ored then c.alts != [] && Depends(c.kind) else |c.alts| == 1
  }

  predicate ClausesOk(cs: seq<Clause>) {
    forall k :: 0 <= k < |cs| ==> ClauseOk(cs[k])
  }

  function OrEdge(kind: nat, text: CString, alternatives: nat): Edge {
    Edge(VER_NULL, kind + 1, text, "", alternatives)
  }

  function ClauseEdges(c: Clause): seq<Edge> {
    (if c.ored then [OrEdge(c.kind, c.text, |c.alts|)] else []) + c.alts
  }

  /** The flat list. */
  function Flatten(cs: seq<Clause>): seq<Edge> {
    if cs == [] then [] else ClauseEdges(cs[0]) + Flatten(cs[1..])
  }

  lemma {:induction false} FlattenAppend(a: seq<Clause>, b: seq<Clause>)
    ensures Flatten(a + b) == Flatten(a) + Flatten(b)
    decreases a
  {
    if a == [] {
      assert a + b == b;
    } else {
      assert (a + b)[1..] == a[1..] + b;
      FlattenAppend(a[1..], b);
    }
  }

  /** The edges of a package are those of the clauses cs. */
  predicate NodeClauses(n: Node, cs: seq<Clause>) {
    ClausesOk(cs) && n.edges == Flatten(cs)
  }

  /** The stored packages have the edges of these clauses, slot by slot. */
  ghost predicate ClausesFor(t: Packages, clauses: seq<seq<Clause>>) {
    && |clauses| == PACKAGE_HASH_PRIME <= |t|
    && forall i :: 0 <= i < PACKAGE_HASH_PRIME && t[i].Some? ==> NodeClauses(t[i].value, clauses[i])
  }

  // ----- the text of a clause

  /** The operator that a run of the characters < = > stands for. */
  function ParseOperator(op: string): Option<Operator> {
    if op == "" then Some(VER_NULL)        // add_split_dependencies leaves the field as it is
    else if op <= "=" then Some(VER_EQUAL)
    else if op <= "<<" then Some(VER_LESS)
    else if op <= "<=" then Some(VER_LESS_EQUAL)
    else if op <= ">>" then Some(VER_MORE)
    else if op <= ">=" then Some(VER_MORE_EQUAL)
    else None
  }

  function Stripped(s: CString): CString {
    s[SpanEnd(s, 0, " ")..]
  }

  /** One alternative: a name, and in parentheses an operator and a version; None is an illegal operator. */
  function ParseEdge(field: CString, kind: nat): Option<Edge> {
    var s := Stripped(field);
    var name: CString := s[..BreakEnd(s, 0, " (")];
    var open := BreakEnd(s, 0, "(");
    if open == |s| then Some(Edge(VER_ANY, kind, name, "ANY", 0))
    else
      var from := SpanEnd(s, open, " (");
      var to := SpanEnd(s, from, "<=>");
      var v := SpanEnd(s, to, " ");
      match ParseOperator(s[from..to])
      case None => None
      case Some(op) => Some(Edge(op, kind, name, s[v..BreakEnd(s, v, " )")], 0))
  }

  function ParseEdges(fields: seq<CString>, kind: nat): (es: Option<seq<Edge>>)
    ensures es.Some? ==> |es.value| == |fields| && AllOfKind(es.value, kind)
  {
    if fields == [] then Some([])
    else
      match ParseEdges(fields[..|fields| - 1], kind)
      case None => None
      case Some(es) =>
        match ParseEdge(fields[|fields| - 1], kind)
        case None => None
        case Some(e) => Some(es + [e])
  }

  function Singles(es: seq<Edge>, kind: nat): (cs: seq<Clause>)
    ensures |cs| == |es| && forall k :: 0 <= k < |es| ==> cs[k] == Clause(kind, false, "", [es[k]])
  {
    seq(|es|, k requires 0 <= k < |es| => Clause(kind, false, "", [es[k]]))
  }

  lemma {:induction false} FlattenSingles(es: seq<Edge>, kind: nat)
    ensures Flatten(Singles(es, kind)) == es
  {
    if es != [] {
      assert Singles(es, kind)[1..] == Singles(es[1..], kind);
      FlattenSingles(es[1..], kind);
    }
  }

  /** An "or" clause for alternatives to depend on; for other kinds of edges, each alternative stands alone. */
  function ClausesOf(field: CString, kind: nat): Option<seq<Clause>> {
    var text := Stripped(field);
    match ParseEdges(Tokens(text, '|', 0), kind)
    case None => None
    case Some(es) =>
      if Depends(kind) && '|' in text then Some([Clause(kind, true, text, es)]) else Some(Singles(es, kind))
  }

  /** All clauses of a line. */
  function LineClauses(fields: seq<CString>, kind: nat): Option<seq<Clause>> {
    if fields == [] then Some([])
    else
      match LineClauses(fields[..|fields| - 1], kind)
      case None => None
      case Some(cs) =>
        match ClausesOf(fields[|fields| - 1], kind)
        case None => None
        case Some(more) => Some(cs + more)
  }

  /** No clause is empty; add_split_dependencies does not look out for empty ones. */
  predicate LineOk(line: CString) {
    var fields := Tokens(line, ',', 0);
    fields != [] && forall k :: 0 <= k < |fields| ==> Tokens(Stripped(fields[k]), '|', 0) != []
  }

  lemma {:induction false} LineClausesOk(fields: seq<CString>, kind: nat)
    requires kind % 2 == 1 && LineClauses(fields, kind).Some?
    requires forall k :: 0 <= k < |fields| ==> Tokens(Stripped(fields[k]), '|', 0) != []
    ensures ClausesOk(LineClauses(fields, kind).value)
    decreases fields
  {
    if fields != [] {
      LineClausesOk(fields[..|fields| - 1], kind);
    }
  }

  /** The first token of a text is the text itself only if there is no delimiter in it. */
  lemma FirstTokenWhole(s: CString, delim: char)
    requires Tokens(s, delim, 0) != []
    ensures Tokens(s, delim, 0)[0] == s <==> delim !in s
  {
    var b := SpanEnd(s, 0, [delim]);
    if delim !in s {
      SpanEndIs(s, 0, [delim], 0);
      BreakEndIs(s, 0, [delim], |s|);
    }
  }

  /** Appends the edges of the alternatives; where an "or" edge has been put at position root, counts them there. */
  method AddAlternatives(edges0: seq<Edge>, ts: seq<CString>, kind: nat, root: int) returns (edges: Option<seq<Edge>>)
    requires root == -1 || (0 <= root == |edges0| - 1 && edges0[root].alternatives == 0)
    ensures edges == match ParseEdges(ts, kind)
                     case None => None
                     case Some(es) => Some(Counting(edges0, root, |ts|) + es)
  {
    hide ParseEdges, ParseEdge, Counting;
    var es := edges0;
    var k := 0;
    ghost var acc: seq<Edge> := [];
    ParseNone(ts, kind);
    CountingZero(edges0, root);
    while k < |ts|
      invariant 0 <= k <= |ts| && ParseEdges(ts[..k], kind) == Some(acc) && Counted(edges0, root, k, acc, es)
    {
      match ParseEdge(ts[k], kind) {
        case None =>
          ParseMore(ts, k, k + 1, kind, acc);
          NoneStays(ts, k + 1, kind);
          return None;
        case Some(e) =>
          ghost var was := es;
          CountedAt(edges0, root, k, acc, es);
          if root != -1 {
            es := es[root := es[root].(alternatives := es[root].alternatives + 1)];
          }
          es := es + [e];
          CountedMore(edges0, root, k, k + 1, acc, e, was, es);
          ParseMore(ts, k, k + 1, kind, acc);
          acc := acc + [e];
          k := k + 1;
      }
    }
    assert ts[..k] == ts;
    edges := Some(es);
  }

  lemma ParseNone(ts: seq<CString>, kind: nat)
    ensures ParseEdges(ts[..0], kind) == Some([])
  {
  }

  lemma ParseMore(ts: seq<CString>, k: nat, next: nat, kind: nat, acc: seq<Edge>)
    requires next == k + 1 && k < |ts| && ParseEdges(ts[..k], kind) == Some(acc)
    ensures ParseEdges(ts[..next], kind) == match ParseEdge(ts[k], kind) case None => None case Some(e) => Some(acc + [e])
  {
    hide ParseEdge;
    assert ts[..next][..k] == ts[..k];
  }

  /** The edges before the alternatives, when n have been counted. */
  function Counting(edges0: seq<Edge>, root: int, n: nat): seq<Edge> {
    if 0 <= root < |edges0| then edges0[root := edges0[root].(alternatives := n)] else edges0
  }

  ghost predicate Counted(edges0: seq<Edge>, root: int, n: nat, acc: seq<Edge>, es: seq<Edge>) {
    es == Counting(edges0, root, n) + acc
  }

  lemma CountingZero(edges0: seq<Edge>, root: int)
    requires root == -1 || (0 <= root < |edges0| && edges0[root].alternatives == 0)
    ensures Counted(edges0, root, 0, [], edges0)
  {
  }

  lemma CountedAt(edges0: seq<Edge>, root: int, n: nat, acc: seq<Edge>, es: seq<Edge>)
    requires Counted(edges0, root, n, acc, es) && (root == -1 || 0 <= root < |edges0|)
    ensures root != -1 ==> root < |es| && es[root] == edges0[root].(alternatives := n)
  {
  }

  lemma CountedMore(edges0: seq<Edge>, root: int, n: nat, next: nat, acc: seq<Edge>, e: Edge, es: seq<Edge>, r: seq<Edge>)
    requires Counted(edges0, root, n, acc, es) && next == n + 1
    requires root == -1 || 0 <= root < |edges0|
    requires root == -1 ==> r == es + [e]
    requires root != -1 ==> root < |es| && r == es[root := edges0[root].(alternatives := next)] + [e]
    ensures Counted(edges0, root, next, acc + [e], r)
  {
    var c, d := Counting(edges0, root, n), Counting(edges0, root, next);
    if root == -1 {
      assert c + acc + [e] == c + (acc + [e]);
    } else {
      assert (c + acc)[root := d[root]] == d + acc;
      assert d + acc + [e] == d + (acc + [e]);
    }
  }

  lemma {:induction false} NoneStays(ts: seq<CString>, k: nat, kind: nat)
    requires k <= |ts| && ParseEdges(ts[..k], kind) == None
    ensures ParseEdges(ts, kind) == None
    decreases |ts| - k
  {
    if k == |ts| {
      assert ts[..k] == ts;
    } else {
      assert ts[..k + 1][..k] == ts[..k];
      NoneStays(ts, k + 1, kind);
    }
  }

  /** One comma-separated field. */
  method AddField(edges0: seq<Edge>, field0: CString, kind: nat) returns (edges: Option<seq<Edge>>)
    requires Tokens(Stripped(field0), '|', 0) != []
    ensures edges == match ClausesOf(field0, kind)
                     case None => None
                     case Some(cs) => Some(edges0 + Flatten(cs))
  {
    var field := Stripped(field0);
    var ts := Tokens(field, '|', 0);
    FirstTokenWhole(field, '|');
    var es, root := edges0, -1;
    if Depends(kind) && field != ts[0] {
      es := edges0 + [OrEdge(kind, field, 0)];
      root := |edges0|;
    }
    edges := AddAlternatives(es, ts, kind, root);
    if edges.Some? {
      FieldEdges(edges0, field0, kind, root, |ts|, ParseEdges(ts, kind).value, edges.value);
    }
  }

  lemma FieldEdges(edges0: seq<Edge>, field0: CString, kind: nat, root: int, n: nat, es: seq<Edge>, edges: seq<Edge>)
    requires ParseEdges(Tokens(Stripped(field0), '|', 0), kind) == Some(es) && n == |es|
    requires root == if Depends(kind) && '|' in Stripped(field0) then |edges0| else -1
    requires root == -1 ==> edges == edges0 + es
    requires root != -1 ==> edges == Counting(edges0 + [OrEdge(kind, Stripped(field0), 0)], root, n) + es
    ensures ClausesOf(field0, kind).Some? && edges == edges0 + Flatten(ClausesOf(field0, kind).value)
  {
    hide ParseEdges, Stripped, Tokens;
    if root == -1 {
      FlattenSingles(es, kind);
    } else {
      FlattenOne(Clause(kind, true, Stripped(field0), es));
      OrFirst(edges0, kind, Stripped(field0), es);
    }
  }

  lemma FlattenOne(c: Clause)
    ensures Flatten([c]) == ClauseEdges(c)
  {
    assert [c][1..] == [];
  }

  lemma OrFirst(edges0: seq<Edge>, kind: nat, text: CString, es: seq<Edge>)
    ensures Counting(edges0 + [OrEdge(kind, text, 0)], |edges0|, |es|) + es == edges0 + ([OrEdge(kind, text, |es|)] + es)
  {
    assert Counting(edges0 + [OrEdge(kind, text, 0)], |edges0|, |es|) == edges0 + [OrEdge(kind, text, |es|)];
  }

  /** Adds the edges of a whole line to those of a node; None is an illegal operator. */
  method AddSplitDependencies(edges0: seq<Edge>, line: CString, kind: nat) returns (edges: Option<seq<Edge>>)
    requires LineOk(line) && kind % 2 == 1
    ensures edges == match LineClauses(Tokens(line, ',', 0), kind)
                     case None => None
                     case Some(cs) => Some(edges0 + Flatten(cs))
    ensures edges.Some? ==> ClausesOk(LineClauses(Tokens(line, ',', 0), kind).value)
  {
    hide ClausesOf, LineClauses, Flatten, Tokens, ClausesOk;
    var fields := Tokens(line, ',', 0);
    var es := edges0;
    var k := 0;
    ghost var cs: seq<Clause> := [];
    NoLine(fields, kind, es);
    while k < |fields|
      invariant 0 <= k <= |fields| && LineClauses(fields[..k], kind) == Some(cs)
      invariant es == edges0 + Flatten(cs)
    {
      var more := AddField(es, fields[k], kind);
      LineMore(fields, k, k + 1, kind, cs);
      if more == None {
        LineNone(fields, k + 1, kind);
        return None;
      }
      FlattenMore(edges0, cs, ClausesOf(fields[k], kind).value);
      cs := cs + ClausesOf(fields[k], kind).value;
      es := more.value;
      k := k + 1;
    }
    assert fields[..k] == fields;
    LineClausesOk(fields, kind);
    edges := Some(es);
  }

  lemma NoLine(fields: seq<CString>, kind: nat, es: seq<Edge>)
    ensures LineClauses(fields[..0], kind) == Some([]) && es == es + Flatten([])
  {
  }

  lemma LineMore(fields: seq<CString>, k: nat, next: nat, kind: nat, cs: seq<Clause>)
    requires next == k + 1 && k < |fields| && LineClauses(fields[..k], kind) == Some(cs)
    ensures LineClauses(fields[..next], kind) == match ClausesOf(fields[k], kind) case None => None case Some(c) => Some(cs + c)
  {
    hide ClausesOf;
    assert fields[..next][..k] == fields[..k];
  }

  lemma FlattenMore(edges0: seq<Edge>, cs: seq<Clause>, more: seq<Clause>)
    ensures edges0 + Flatten(cs) + Flatten(more) == edges0 + Flatten(cs + more)
  {
    FlattenAppend(cs, more);
    assert edges0 + Flatten(cs) + Flatten(more) == edges0 + (Flatten(cs) + Flatten(more));
  }

  lemma {:induction false} LineNone(fields: seq<CString>, k: nat, kind: nat)
    requires k <= |fields| && LineClauses(fields[..k], kind) == None
    ensures LineClauses(fields, kind) == None
    decreases |fields| - k
  {
    if k == |fields| {
      assert fields[..k] == fields;
    } else {
      assert fields[..k + 1][..k] == fields[..k];
      LineNone(fields, k + 1, kind);
    }
  }
}
