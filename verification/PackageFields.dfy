/** fill_package_struct: a package from the fields of its control file, and what that keeps of the package table. */
module PackageFields {
  import opened Optionals
  import opened Versions
  import opened CStrings
  import opened Probing
  import opened PackageTables
  import opened Dependencies

  const PACKAGE: CString := "Package"
  const VERSION: CString := "Version"
  const UNKNOWN: CString := "unknown"
  const NO_NAME: CString := ""

  /** A field; without a name where read_package_field finds none. */
  datatype Field = Field(name: Option<CString>, value: CString)

  /** The kind of the edges that a field of that name brings, or 0. */
  function EdgeKind(name: CString): nat {
    if name == "Pre-Depends" then EDGE_PRE_DEPENDS
    else if name == "Depends" then EDGE_DEPENDS
    else if name == "Replaces" then 5
    else if name == "Provides" then EDGE_PROVIDES
    else if name == "Conflicts" then 9
    else if name == "Suggests" then 11
    else if name == "Recommends" then 13
    else if name == "Enhances" then 15
    else 0
  }

  predicate Lists(f: Field) {
    f.name.Some? && EdgeKind(f.name.value) != 0
  }

  /** Dependency fields have no empty clause, see LineOk. */
  predicate FieldsOk(fields: seq<Field>) {
    forall k :: 0 <= k < |fields| && Lists(fields[k]) ==> LineOk(fields[k].value)
  }

  /** The value of the last field of that name. */
  function ValueOf(fields: seq<Field>, name: CString, default: CString): CString {
    if fields == [] then default
    else if fields[|fields| - 1].name == Some(name) then fields[|fields| - 1].value
    else ValueOf(fields[..|fields| - 1], name, default)
  }

  /** The clauses of one field; None if it has an illegal operator. */
  function ClausesIn(f: Field): Option<seq<Clause>> {
    if Lists(f) then LineClauses(Tokens(f.value, ',', 0), EdgeKind(f.name.value)) else Some([])
  }

  /** The clauses of all fields, in order. */
  function FieldClauses(fields: seq<Field>): Option<seq<Clause>> {
    if fields == [] then Some([])
    else
      match FieldClauses(fields[..|fields| - 1])
      case None => None
      case Some(cs) =>
        match ClausesIn(fields[|fields| - 1])
        case None => None
        case Some(more) => Some(cs + more)
  }

  /** The package that the fields describe. */
  function PackageOf(fields: seq<Field>): Option<Node> {
    match FieldClauses(fields)
    case None => None
    case Some(cs) => Some(Node(ValueOf(fields, PACKAGE, NO_NAME), ValueOf(fields, VERSION, UNKNOWN), Flatten(cs)))
  }

  lemma FieldsMore(fields: seq<Field>, k: nat, next: nat, cs: seq<Clause>)
    requires next == k + 1 && k < |fields| && FieldClauses(fields[..k]) == Some(cs)
    ensures FieldClauses(fields[..next]) == match ClausesIn(fields[k]) case None => None case Some(more) => Some(cs + more)
  {
    hide ClausesIn;
    assert fields[..next][..k] == fields[..k];
  }

  lemma ValueMore(fields: seq<Field>, k: nat, next: nat, name: CString, default: CString)
    requires next == k + 1 && k < |fields|
    ensures ValueOf(fields[..next], name, default)
         == if fields[k].name == Some(name) then fields[k].value else ValueOf(fields[..k], name, default)
  {
    assert fields[..next][..k] == fields[..k];
  }

  lemma {:induction false} FieldsNone(fields: seq<Field>, k: nat)
    requires k <= |fields| && FieldClauses(fields[..k]) == None
    ensures FieldClauses(fields) == None
    decreases |fields| - k
  {
    hide ClausesIn;
    if k == |fields| {
      assert fields[..k] == fields;
    } else {
      assert fields[..k + 1][..k] == fields[..k];
      FieldsNone(fields, k + 1);
    }
  }

  lemma ClausesMore(cs: seq<Clause>, more: seq<Clause>)
    requires ClausesOk(cs) && ClausesOk(more)
    ensures ClausesOk(cs + more) && Flatten(cs + more) == Flatten(cs) + Flatten(more)
  {
    hide ClauseOk;
    FlattenAppend(cs, more);
  }

  lemma NoFields(fields: seq<Field>)
    ensures FieldClauses(fields[..0]) == Some([]) && ClausesOk([]) && Flatten([]) == []
    ensures ValueOf(fields[..0], PACKAGE, NO_NAME) == NO_NAME && ValueOf(fields[..0], VERSION, UNKNOWN) == UNKNOWN
  {
  }

  /** The edges that a field adds. */
  method TakeField(edges0: seq<Edge>, f: Field, ghost cs: seq<Clause>) returns (edges: Option<seq<Edge>>)
    requires (Lists(f) ==> LineOk(f.value)) && ClausesOk(cs) && edges0 == Flatten(cs)
    ensures edges.Some? <==> ClausesIn(f).Some?
    ensures edges.Some? ==> ClausesOk(cs + ClausesIn(f).value) && edges.value == Flatten(cs + ClausesIn(f).value)
  {
    hide LineOk, LineClauses, ClausesOk, Flatten, Tokens, EdgeKind;
    edges := Some(edges0);
    if Lists(f) {
      OddKind(f.name.value);
      edges := AddSplitDependencies(edges0, f.value, EdgeKind(f.name.value));
      if edges.Some? { ClausesMore(cs, ClausesIn(f).value); }
    } else {
      assert cs + [] == cs;
    }
  }

  lemma OddKind(name: CString)
    ensures EdgeKind(name) != 0 ==> EdgeKind(name) % 2 == 1
  {
  }

  /** The loop over all fields; None where the program ends with an error. */
  method ReadFields(fields: seq<Field>) returns (node: Option<Node>)
    requires FieldsOk(fields)
    ensures node == PackageOf(fields)
    ensures node.Some? ==> FieldClauses(fields).Some? && NodeClauses(node.value, FieldClauses(fields).value)
  {
    hide FieldClauses, ValueOf, ClausesIn, LineOk, ClausesOk, Flatten;
    var name: CString, version: CString, edges := NO_NAME, UNKNOWN, [];
    ghost var cs: seq<Clause> := [];
    NoFields(fields);
    var k := 0;
    while k < |fields|
      invariant 0 <= k <= |fields| && FieldClauses(fields[..k]) == Some(cs) && ClausesOk(cs) && edges == Flatten(cs)
      invariant name == ValueOf(fields[..k], PACKAGE, NO_NAME) && version == ValueOf(fields[..k], VERSION, UNKNOWN)
    {
      var f := fields[k];
      if f.name == Some(PACKAGE) {
        name := f.value;
      } else if f.name == Some(VERSION) {
        version := f.value;
      }
      var more := TakeField(edges, f, cs);
      ValueMore(fields, k, k + 1, PACKAGE, NO_NAME);
      ValueMore(fields, k, k + 1, VERSION, UNKNOWN);
      FieldsMore(fields, k, k + 1, cs);
      k := k + 1;
      if more == None {
        FieldsNone(fields, k);
        return None;
      }
      edges := more.value;
      cs := cs + ClausesIn(f).value;
    }
    assert fields[..k] == fields;
    node := Some(Node(name, version, edges));
  }

  /** An empty table has the edges of no clauses. */
  lemma NoPackages(t: Packages)
    requires |t| >= PACKAGE_HASH_PRIME && forall s :: 0 <= s < |t| ==> t[s] == None
    ensures ClausesFor(t, seq(PACKAGE_HASH_PRIME, _ => []))
  {
  }

  /** One more package with the edges of clauses, or another one in its place. */
  lemma StoreClauses(t: Packages, clauses: seq<seq<Clause>>, at: nat, n: Node, cs: seq<Clause>)
    requires ClausesFor(t, clauses) && at < PACKAGE_HASH_PRIME && NodeClauses(n, cs)
    ensures |clauses| == PACKAGE_HASH_PRIME <= |t| && ClausesFor(t[at := Some(n)], clauses[at := cs])
  {
    hide NodeClauses;
  }

  /** A slot is free, so every search ends. */
  ghost predicate Free(t: Packages) {
    |t| >= PACKAGE_HASH_PRIME && exists s: nat :: s < PACKAGE_HASH_PRIME && t[s] == None
  }

  lemma FreeEnds(t: PackageTable, name: CString, version: CString, op: Operator)
    requires t.slots.Length > PACKAGE_HASH_PRIME && Free(t.slots[..])
    ensures t.Searchable(name, version, op)
  {
    hide Passes;
    var s: nat :| s < PACKAGE_HASH_PRIME && t.slots[..][s] == None;
    assert StopsAt(t.slots[..], name, version, op, s);
  }

  /** fill_package_struct as a whole: what check_deps asks of the edges in the table is kept. None is an illegal
      operator. */
  method FillPackage(t: PackageTable, fields: seq<Field>, ghost clauses: seq<seq<Clause>>)
    returns (num: Option<int>, ghost clauses': seq<seq<Clause>>)
    requires t.Valid() && Free(t.slots[..]) && FieldsOk(fields) && ClausesFor(t.slots[..], clauses)
    modifies t.slots
    ensures t.Valid() && ClausesFor(t.slots[..], clauses')
    ensures num == None <==> PackageOf(fields) == None
    ensures num == None || num.value == -1 ==> t.slots[..] == old(t.slots[..]) && clauses' == clauses
    ensures num.Some? ==> (num.value == -1 <==> PackageOf(fields).value.version == UNKNOWN)
    ensures num.Some? && num.value != -1 ==>
              var n := PackageOf(fields).value;
              && 0 <= num.value < PACKAGE_HASH_PRIME < t.slots.Length
              && Found(old(t.slots[..]), PACKAGE_HASH_PRIME, t.hash, n.name, n.version, VER_EQUAL, num.value)
              && t.slots[..] == old(t.slots[..])[num.value := Some(n)]
              && clauses' == clauses[num.value := FieldClauses(fields).value]
  {
    hide FieldsOk, PackageOf, NodeClauses, Found, TableOk, ClausesFor, Free, FieldClauses;
    clauses' := clauses;
    var node := ReadFields(fields);
    if node == None { return None, clauses'; }
    ghost var was := t.slots[..];
    FreeEnds(t, node.value.name, node.value.version, VER_EQUAL);
    var at := t.Fill(node.value);
    num := Some(at);
    if at != -1 {
      FoundBound(was, PACKAGE_HASH_PRIME, t.hash, node.value.name, node.value.version, VER_EQUAL, at);
      StoreClauses(was, clauses, at, node.value, FieldClauses(fields).value);
      clauses' := clauses[at := FieldClauses(fields).value];
    }
  }

  lemma FoundBound(t: Packages, p: nat, hash: CString -> Hash, name: CString, version: CString, op: Operator, at: nat)
    requires Found(t, p, hash, name, version, op, at)
    ensures at < p <= |t|
  {
  }

  /** What check_deps does with a package that is provided keeps them too: a virtual package has no clauses. */
  method ProvidePackage(t: PackageTable, e: Edge, ghost clauses: seq<seq<Clause>>) returns (num: nat, ghost clauses': seq<seq<Clause>>)
    requires t.Valid() && Free(t.slots[..]) && ClausesFor(t.slots[..], clauses)
    modifies t.slots
    ensures t.Valid() && ClausesFor(t.slots[..], clauses')
    ensures num < PACKAGE_HASH_PRIME && t.slots.Length > PACKAGE_HASH_PRIME
    ensures Found(old(t.slots[..]), PACKAGE_HASH_PRIME, t.hash, e.name, e.version, e.op, num)
    ensures if old(t.slots[num]) == None then
              t.slots[..] == old(t.slots[..])[num := Some(Node(e.name, e.version, []))] && |clauses| > num && clauses' == clauses[num := []]
            else t.slots[..] == old(t.slots[..]) && clauses' == clauses
  {
    hide Found, TableOk, Passes;
    ghost var was := t.slots[..];
    FreeEnds(t, e.name, e.version, e.op);
    num := t.Provide(e);
    clauses' := clauses;
    if was[num] == None {
      StoreClauses(was, clauses, num, Node(e.name, e.version, []), []);
      clauses' := clauses[num := []];
    }
  }
}
