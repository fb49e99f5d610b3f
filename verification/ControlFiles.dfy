/** What the fields of a control file mean to the dependency phase. */
module ControlFiles {
  import opened Optionals
  import opened Versions
  import opened Probing
  import opened PackageTables
  import opened Statuses
  import opened Dependencies
  import opened DependencyLines
  import opened PackageFields
  import opened CheckDeps

  // ----- from fields to clauses

  /** A line that is written from clauses of that kind. */
  predicate LineOf(line: CString, cs: seq<Clause>, kind: nat) {
    cs != [] && (forall k :: 0 <= k < |cs| ==> WrittenOk(cs[k], kind)) && line == LineText(cs)
  }

  /** The fields that bring edges, and the kind of edges that each of them brings. */
  predicate Brings(name: CString, kind: nat) {
    || (name == "Pre-Depends" && kind == 1)
    || (name == "Depends" && kind == 3)
    || (name == "Replaces" && kind == 5)
    || (name == "Provides" && kind == 7)
    || (name == "Conflicts" && kind == 9)
    || (name == "Suggests" && kind == 11)
    || (name == "Recommends" && kind == 13)
    || (name == "Enhances" && kind == 15)
  }

  lemma FieldBrings(name: CString, line: CString, cs: seq<Clause>, kind: nat)
    requires Brings(name, kind) && LineOf(line, cs, kind)
    ensures ClausesIn(Field(Some(name), line)) == Some(cs) && LineOk(line)
  {
    hide LineClauses, LineOk, WrittenOk, LineText;
    LineAgain(cs, kind, line);
  }

  /** Any other field brings none. */
  lemma FieldBringsNone(f: Field)
    requires f.name.Some? ==> forall kind :: !Brings(f.name.value, kind)
    ensures ClausesIn(f) == Some([])
  {
    if f.name.Some? { BringsKind(f.name.value); }
  }

  lemma BringsKind(name: CString)
    ensures EdgeKind(name) != 0 ==> Brings(name, EdgeKind(name))
  {
  }

  /** A field brings these clauses, or is one that brings none. */
  ghost predicate Gives(f: Field, cs: seq<Clause>) {
    if f.name.Some? && exists kind :: Brings(f.name.value, kind) then
      exists kind :: Brings(f.name.value, kind) && LineOf(f.value, cs, kind)
    else cs == []
  }

  lemma GivesIs(f: Field, cs: seq<Clause>)
    requires Gives(f, cs)
    ensures ClausesIn(f) == Some(cs) && (Lists(f) ==> LineOk(f.value))
  {
    hide LineOf, LineOk, LineClauses, EdgeKind, Brings;
    if f.name.Some? && exists kind :: Brings(f.name.value, kind) {
      var kind :| Brings(f.name.value, kind) && LineOf(f.value, cs, kind);
      FieldBrings(f.name.value, f.value, cs, kind);
    } else {
      if f.name.Some? { BringsKind(f.name.value); }
      FieldBringsNone(f);
    }
  }

  ghost predicate AllGive(fields: seq<Field>, parts: seq<seq<Clause>>) {
    |fields| == |parts| && forall k :: 0 <= k < |fields| ==> Gives(fields[k], parts[k])
  }

  function Concat(parts: seq<seq<Clause>>): seq<Clause> {
    if parts == [] then [] else Concat(parts[..|parts| - 1]) + parts[|parts| - 1]
  }

  lemma {:induction false} LinesBring(fields: seq<Field>, parts: seq<seq<Clause>>)
    requires AllGive(fields, parts)
    ensures FieldClauses(fields) == Some(Concat(parts)) && FieldsOk(fields)
    decreases fields
  {
    hide Gives, ClausesIn, Lists, LineOk;
    var n := |fields|;
    if n > 0 {
      LinesBring(fields[..n - 1], parts[..n - 1]);
      GivesIs(fields[n - 1], parts[n - 1]);
      assert forall k :: 0 <= k < n - 1 ==> fields[..n - 1][k] == fields[k];
    }
  }

  /** The last field of that name. */
  predicate LastNamed(fields: seq<Field>, name: CString, p: nat) {
    p < |fields| && fields[p].name == Some(name) && forall k :: p < k < |fields| ==> fields[k].name != Some(name)
  }

  lemma {:induction false} ValueIs(fields: seq<Field>, name: CString, default: CString, p: nat)
    requires LastNamed(fields, name, p)
    ensures ValueOf(fields, name, default) == fields[p].value
    decreases fields
  {
    var n := |fields|;
    if p < n - 1 {
      assert fields[n - 1].name != Some(name);
      ValueIs(fields[..n - 1], name, default, p);
    }
  }

  /** A control file makes one package: its name and version, and the edges of all the clauses, in order. */
  lemma ControlFile(fields: seq<Field>, parts: seq<seq<Clause>>, p: nat, q: nat)
    requires AllGive(fields, parts) && LastNamed(fields, "Package", p) && LastNamed(fields, "Version", q)
    ensures FieldsOk(fields) && FieldClauses(fields) == Some(Concat(parts))
    ensures PackageOf(fields) == Some(Node(fields[p].value, fields[q].value, Flatten(Concat(parts))))
  {
    hide AllGive, FieldClauses, FieldsOk, ValueOf, LastNamed;
    LinesBring(fields, parts);
    ValueIs(fields, PACKAGE, NO_NAME, p);
    ValueIs(fields, VERSION, UNKNOWN, q);
    NamedInside(fields, PACKAGE, p);
    NamedInside(fields, VERSION, q);
  }

  lemma NamedInside(fields: seq<Field>, name: CString, p: nat)
    requires LastNamed(fields, name, p)
    ensures p < |fields|
  {
  }

  // ----- from clauses to the dependency phase

  lemma {:induction false} InConcat(parts: seq<seq<Clause>>, c: Clause)
    ensures c in Concat(parts) <==> exists k :: 0 <= k < |parts| && c in parts[k]
    decreases parts
  {
    var n := |parts|;
    if n > 0 {
      InConcat(parts[..n - 1], c);
      assert forall k :: 0 <= k < n - 1 ==> parts[..n - 1][k] == parts[k];
    }
  }

  ghost predicate AnyMet(st: StatusSlots, ps: Packages, alts: seq<Edge>) {
    exists k :: 0 <= k < |alts| && Met(st, ps, alts[k])
  }

  predicate Named(f: Field, name: CString) {
    f.name == Some(name)
  }

  /** Of the clauses of a field, the phase asks those of "Pre-Depends" and "Depends". */
  ghost predicate FieldMet(st: StatusSlots, ps: Packages, f: Field, cs: seq<Clause>) {
    Named(f, "Pre-Depends") || Named(f, "Depends") ==> forall c <- cs :: AnyMet(st, ps, c.alts)
  }

  lemma FieldMetIs(st: StatusSlots, ps: Packages, f: Field, cs: seq<Clause>)
    requires Gives(f, cs)
    ensures FieldMet(st, ps, f, cs) <==> forall c <- cs :: ClauseMet(st, ps, c)
  {
    hide Met, LineText, ClauseText, EdgeOk;
    if f.name.Some? && exists kind :: Brings(f.name.value, kind) {
      var kind :| Brings(f.name.value, kind) && LineOf(f.value, cs, kind);
      forall c | c in cs
        ensures c.kind == kind
      {
        var k :| 0 <= k < |cs| && cs[k] == c;
        assert WrittenOk(cs[k], kind);
      }
      assert (kind == 1 || kind == 3) <==> Named(f, "Pre-Depends") || Named(f, "Depends");
    }
  }

  /** A package that is wanted is met if and only if each clause of its "Pre-Depends" and "Depends" fields has an
      alternative that is. */
  lemma FieldsDecide(st: StatusSlots, ps: Packages, clauses: seq<seq<Clause>>, i: nat, fields: seq<Field>, parts: seq<seq<Clause>>)
    requires AllGive(fields, parts) && i < |ps| && i < |clauses| && clauses[i] == Concat(parts)
    requires ps[i].Some? && StatusFits(st, ps, ps[i].value.name, 3)
    ensures PackageMet(st, ps, clauses, i) <==> forall k :: 0 <= k < |fields| ==> FieldMet(st, ps, fields[k], parts[k])
  {
    hide Gives, StatusFits, ClauseMet, FieldMet, Concat;
    forall k | 0 <= k < |fields|
      ensures FieldMet(st, ps, fields[k], parts[k]) <==> forall c <- parts[k] :: ClauseMet(st, ps, c)
    {
      FieldMetIs(st, ps, fields[k], parts[k]);
    }
    forall c: Clause
      ensures c in Concat(parts) <==> exists k :: 0 <= k < |parts| && c in parts[k]
    {
      InConcat(parts, c);
    }
    assert PackageMet(st, ps, clauses, i) <==> forall c <- clauses[i] :: ClauseMet(st, ps, c);
  }

  // ----- a package with one dependency

  function DependsFile(a: CString, v: CString, b: CString): seq<Field> {
    [Field(Some("Package"), a), Field(Some("Version"), v), Field(Some("Depends"), b)]
  }

  function DependsEdge(b: CString): Edge {
    Edge(VER_ANY, 3, b, "ANY", 0)
  }

  lemma DependsLine(b: CString)
    requires b != "" && Plain(b)
    ensures LineOf(b, [Clause(3, false, "", [DependsEdge(b)])], 3)
  {
    var cs := [Clause(3, false, "", [DependsEdge(b)])];
    assert "" + b == b && b + "" == b && "" + b + "" == b;
    assert AlternativeTexts(cs[0].alts) == [b];
    assert ClauseTexts(cs) == [b];
  }

  lemma OnlyLast(cs: seq<Clause>)
    ensures Concat([[], [], cs]) == cs
  {
    var parts := [[], [], cs];
    assert parts[..2] == [[], []] && parts[..2][..1] == [[]] && parts[..2][..1][..0] == [];
    assert Concat(parts[..2]) == Concat(parts[..2][..1]) + [] == [];
  }

  lemma OneAlone(c: Clause)
    requires !c.ored
    ensures Flatten([c]) == c.alts
  {
    FlattenOne(c);
    assert [] + c.alts == c.alts;
  }

  /** "Depends: b" is one edge of kind 3 to any version of b. */
  lemma DependsOn(a: CString, v: CString, b: CString)
    requires b != "" && Plain(b)
    ensures PackageOf(DependsFile(a, v, b)) == Some(Node(a, v, [DependsEdge(b)]))
    ensures FieldClauses(DependsFile(a, v, b)) == Some([Clause(3, false, "", [DependsEdge(b)])])
  {
    hide FieldClauses, LineOf, Plain, PackageOf, Concat, Flatten;
    var c := Clause(3, false, "", [DependsEdge(b)]);
    var fields, parts: seq<seq<Clause>> := DependsFile(a, v, b), [[], [], [c]];
    DependsLine(b);
    assert Brings("Depends", 3);
    assert AllGive(fields, parts);
    ControlFile(fields, parts, 0, 1);
    OnlyLast([c]);
    OneAlone(c);
  }

  /** Such a package, if it is wanted, fails the phase where neither a package of that name nor one that provides it
      is wanted too. */
  lemma MissingDependency(st: StatusSlots, ps: Packages, clauses: seq<seq<Clause>>, i: nat, a: CString, v: CString, b: CString)
    requires b != "" && Plain(b) && i < |ps| && i < |clauses|
    requires ps[i] == PackageOf(DependsFile(a, v, b)) && Some(clauses[i]) == FieldClauses(DependsFile(a, v, b))
    requires StatusFits(st, ps, a, 3)
    requires forall j: nat :: j < PACKAGE_HASH_PRIME && Offers(ps, DependsEdge(b), j) ==> !StatusFits(st, ps, ps[j].value.name, 3)
    ensures !PackageMet(st, ps, clauses, i)
  {
    hide StatusFits, Offers, Plain, PackageOf, FieldClauses;
    DependsOn(a, v, b);
    assert !ClauseMet(st, ps, clauses[i][0]);
  }

  // ----- the words of a status

  /** Of a status of three words, the last one is asked by edges of kind 1, the first one by edges of kind 3. */
  lemma StatusByWords(st: StatusSlots, ps: Packages, hash: CString -> Hash, name: CString, j: nat, w: CString, f: CString, s: CString)
    requires StatusesOk(st, ps, STATUS_HASH_PRIME, hash) && j < STATUS_HASH_PRIME
    requires st[j].Some? && NameOf(ps, st[j].value) == name && st[j].value.text == w + " " + f + " " + s
    requires Clean(w) && Clean(f) && Clean(s) && f != ""
    ensures StatusFits(st, ps, name, 1) <==> s == "installed"
    ensures StatusFits(st, ps, name, 3) <==> w == "install"
  {
    hide Word, FirstIs, ThirdIs, Clean;
    var t: CString := w + " " + f + " " + s;
    WordsAgain(w, f, s);
    FirstWordIs(t, "install");
    ThirdWordIs(t, "installed");
    if s == "installed" { assert FitsAt(st, ps, name, 1, j); }
    if w == "install" { assert FitsAt(st, ps, name, 3, j); }
  }

  /** Without a status, nothing is met. */
  lemma NoStatus(st: StatusSlots, ps: Packages, name: CString, kind: nat)
    requires forall j: nat :: j < STATUS_HASH_PRIME && j < |st| && st[j].Some? ==> NameOf(ps, st[j].value) != name
    ensures !StatusFits(st, ps, name, kind)
  {
    hide FirstIs, ThirdIs;
  }

  /** Where only the package at i offers what an edge asks for, the words of its status decide. */
  lemma EdgeByWords(st: StatusSlots, ps: Packages, hash: CString -> Hash, e: Edge, i: nat, j: nat, w: CString, f: CString, s: CString)
    requires StatusesOk(st, ps, STATUS_HASH_PRIME, hash) && j < STATUS_HASH_PRIME && i < PACKAGE_HASH_PRIME
    requires Offers(ps, e, i) && forall k: nat :: k < PACKAGE_HASH_PRIME && Offers(ps, e, k) ==> k == i
    requires st[j].Some? && NameOf(ps, st[j].value) == ps[i].value.name && st[j].value.text == w + " " + f + " " + s
    requires Clean(w) && Clean(f) && Clean(s) && f != ""
    ensures e.kind == 1 ==> (Met(st, ps, e) <==> s == "installed")
    ensures e.kind == 3 ==> (Met(st, ps, e) <==> w == "install")
  {
    hide StatusFits, Passes, Clean;
    StatusByWords(st, ps, hash, ps[i].value.name, j, w, f, s);
  }
}
