/** The dependency phase of check_deps decides a conjunction of disjunctions. */
module CheckDeps {
  import opened Optionals
  import opened Versions
  import opened Probing
  import opened PackageTables
  import opened Statuses
  import opened Dependencies
  import opened PackageFields

  // ----- what has to hold

  /** A status that satisfies a dependency: installed already for a pre-dependency, wanted for another. */
  predicate Serves(kind: nat, text: CString) {
    (kind == EDGE_PRE_DEPENDS && Word(text, 3) == "installed") || (kind == EDGE_DEPENDS && Word(text, 1) == "install")
  }

  predicate ServesAt(st: StatusSlots, ps: Packages, name: CString, kind: nat, s: nat) {
    s < |st| && st[s].Some? && NameOf(ps, st[s].value) == name && Serves(kind, st[s].value.text)
  }

  /** The package of that name has such a status. */
  ghost predicate Satisfied(st: StatusSlots, ps: Packages, name: CString, kind: nat) {
    exists s: nat :: s < STATUS_HASH_PRIME && ServesAt(st, ps, name, kind, s)
  }

  predicate WantedAt(ps: Packages, e: Edge, s: nat) {
    s < |ps| && ps[s].Some? && Wanted(ps[s].value, e.name, e.version, e.op)
  }

  /** Some stored package of the name and a version that passes satisfies it. */
  ghost predicate Directly(st: StatusSlots, ps: Packages, e: Edge) {
    exists s: nat :: s < PACKAGE_HASH_PRIME && WantedAt(ps, e, s) && Satisfied(st, ps, ps[s].value.name, e.kind)
  }

  /** Some stored package that provides the name satisfies it. */
  ghost predicate ByProvider(st: StatusSlots, ps: Packages, e: Edge) {
    exists s: nat :: s < PACKAGE_HASH_PRIME && ProvidesAt(ps, s, e.name) && Satisfied(st, ps, ps[s].value.name, e.kind)
  }

  ghost predicate EdgeHolds(st: StatusSlots, ps: Packages, e: Edge) {
    Directly(st, ps, e) || ByProvider(st, ps, e)
  }

  ghost predicate AnyHolds(st: StatusSlots, ps: Packages, es: seq<Edge>) {
    exists k :: 0 <= k < |es| && EdgeHolds(st, ps, es[k])
  }

  ghost predicate ClauseHolds(st: StatusSlots, ps: Packages, c: Clause) {
    Depends(c.kind) ==> AnyHolds(st, ps, c.alts)
  }

  ghost predicate AllHold(st: StatusSlots, ps: Packages, cs: seq<Clause>) {
    forall k :: 0 <= k < |cs| ==> ClauseHolds(st, ps, cs[k])
  }

  // ----- the same, by the texts of the statuses and the numbers of the kinds

  /** The status at j is one of that name, and what an edge of that kind asks for: kind 1 asks for a package whose third
      word is "installed", kind 3 for one whose first word is "install". */
  ghost predicate FitsAt(st: StatusSlots, ps: Packages, name: CString, kind: nat, j: nat) {
    && j < |st| && st[j].Some? && st[j].value.package < |ps| && ps[st[j].value.package].Some?
    && ps[st[j].value.package].value.name == name
    && ((kind == 1 && ThirdIs(st[j].value.text, "installed")) || (kind == 3 && FirstIs(st[j].value.text, "install")))
  }

  ghost predicate StatusFits(st: StatusSlots, ps: Packages, name: CString, kind: nat) {
    exists j: nat :: j < STATUS_HASH_PRIME && FitsAt(st, ps, name, kind, j)
  }

  /** The package at i has the name, in a version that passes, or an edge of kind 7 to it. */
  predicate Offers(ps: Packages, e: Edge, i: nat) {
    && i < |ps| && ps[i].Some?
    && ((ps[i].value.name == e.name && Passes(ps[i].value.version, e.version, e.op)) ||
        exists m :: 0 <= m < |ps[i].value.edges| && ps[i].value.edges[m].kind == 7 && ps[i].value.edges[m].name == e.name)
  }

  ghost predicate Met(st: StatusSlots, ps: Packages, e: Edge) {
    exists i: nat :: i < PACKAGE_HASH_PRIME && Offers(ps, e, i) && StatusFits(st, ps, ps[i].value.name, e.kind)
  }

  ghost predicate ClauseMet(st: StatusSlots, ps: Packages, c: Clause) {
    c.kind == 1 || c.kind == 3 ==> exists k :: 0 <= k < |c.alts| && Met(st, ps, c.alts[k])
  }

  /** If its status wants it installed, each clause has an alternative that is met. */
  ghost predicate PackageMet(st: StatusSlots, ps: Packages, clauses: seq<seq<Clause>>, i: nat) {
    i < |ps| && i < |clauses| && ps[i].Some? && StatusFits(st, ps, ps[i].value.name, 3) ==>
      forall k :: 0 <= k < |clauses[i]| ==> ClauseMet(st, ps, clauses[i][k])
  }

  lemma ServesText(st: StatusSlots, ps: Packages, hash: CString -> Hash, name: CString, kind: nat, j: nat)
    requires StatusesOk(st, ps, STATUS_HASH_PRIME, hash) && j < STATUS_HASH_PRIME
    ensures ServesAt(st, ps, name, kind, j) <==> FitsAt(st, ps, name, kind, j)
  {
    hide Word, ThirdIs, FirstIs;
    if j < |st| && st[j].Some? {
      FirstWordIs(st[j].value.text, "install");
      ThirdWordIs(st[j].value.text, "installed");
    }
  }

  lemma FitsIs(st: StatusSlots, ps: Packages, hash: CString -> Hash, name: CString, kind: nat)
    requires StatusesOk(st, ps, STATUS_HASH_PRIME, hash)
    ensures StatusFits(st, ps, name, kind) <==> Satisfied(st, ps, name, kind)
  {
    hide ServesAt, FitsAt, StatusesOk;
    forall j: nat | j < STATUS_HASH_PRIME
      ensures ServesAt(st, ps, name, kind, j) <==> FitsAt(st, ps, name, kind, j)
    {
      ServesText(st, ps, hash, name, kind, j);
    }
  }

  lemma OffersIs(ps: Packages, e: Edge, i: nat)
    ensures Offers(ps, e, i) <==> WantedAt(ps, e, i) || ProvidesAt(ps, i, e.name)
  {
    hide Passes;
  }

  /** An edge holds if and only if it is met. */
  lemma MetIs(st: StatusSlots, ps: Packages, hash: CString -> Hash, e: Edge)
    requires StatusesOk(st, ps, STATUS_HASH_PRIME, hash)
    ensures Met(st, ps, e) <==> EdgeHolds(st, ps, e)
  {
    hide Satisfied, StatusFits, StatusesOk, WantedAt, ProvidesAt;
    forall i: nat
      ensures Offers(ps, e, i) <==> WantedAt(ps, e, i) || ProvidesAt(ps, i, e.name)
    {
      OffersIs(ps, e, i);
    }
    forall name: CString
      ensures StatusFits(st, ps, name, e.kind) <==> Satisfied(st, ps, name, e.kind)
    {
      FitsIs(st, ps, hash, name, e.kind);
    }
  }

  lemma ClauseMetIs(st: StatusSlots, ps: Packages, hash: CString -> Hash, c: Clause)
    requires StatusesOk(st, ps, STATUS_HASH_PRIME, hash)
    ensures ClauseMet(st, ps, c) <==> ClauseHolds(st, ps, c)
  {
    hide EdgeHolds, Met, StatusesOk;
    forall k | 0 <= k < |c.alts|
      ensures Met(st, ps, c.alts[k]) <==> EdgeHolds(st, ps, c.alts[k])
    {
      MetIs(st, ps, hash, c.alts[k]);
    }
  }

  lemma PackageMetIs(st: StatusSlots, ps: Packages, hash: CString -> Hash, clauses: seq<seq<Clause>>, i: nat)
    requires StatusesOk(st, ps, STATUS_HASH_PRIME, hash)
    ensures PackageMet(st, ps, clauses, i) <==> PackageHolds(st, ps, clauses, i)
  {
    hide ClauseHolds, ClauseMet, StatusesOk, Satisfied, StatusFits;
    if i < |ps| && i < |clauses| && ps[i].Some? {
      FitsIs(st, ps, hash, ps[i].value.name, 3);
      forall k | 0 <= k < |clauses[i]|
        ensures ClauseMet(st, ps, clauses[i][k]) <==> ClauseHolds(st, ps, clauses[i][k])
      {
        ClauseMetIs(st, ps, hash, clauses[i][k]);
      }
    }
  }

  // ----- the loop over the edges of a package

  /** In front of the edges from j on: what is left of the current "or" clause, and the clauses behind it. */
  ghost predicate InFront(es: seq<Edge>, j: nat, number: nat, root: Option<Edge>, alts: seq<Edge>, rest: seq<Clause>) {
    && ClausesOk(rest) && j <= |es| && es[j..] == alts + Flatten(rest)
    && (alts == [] ==> number == 0 || (number == 1 && root == None))
    && (alts != [] ==> number == |alts| && root.Some? && root.value.kind >= 1
                       && Depends(root.value.kind - 1) && AllOfKind(alts, root.value.kind - 1))
  }

  /** All clauses hold if and only if what is left of them does. */
  ghost predicate StillDecides(st: StatusSlots, ps: Packages, cs: seq<Clause>, alts: seq<Edge>, rest: seq<Clause>) {
    AllHold(st, ps, cs) <==> (alts == [] || AnyHolds(st, ps, alts)) && AllHold(st, ps, rest)
  }

  lemma NextClause(st: StatusSlots, ps: Packages, rest: seq<Clause>)
    requires rest != []
    ensures AllHold(st, ps, rest) <==> ClauseHolds(st, ps, rest[0]) && AllHold(st, ps, rest[1..])
  {
    assert forall k :: 1 <= k < |rest| ==> rest[k] == rest[1..][k - 1];
    if ClauseHolds(st, ps, rest[0]) && AllHold(st, ps, rest[1..]) {
      forall k | 0 <= k < |rest|
        ensures ClauseHolds(st, ps, rest[k])
      {
        if k > 0 { assert ClauseHolds(st, ps, rest[1..][k - 1]); }
      }
    }
    if AllHold(st, ps, rest) {
      forall k | 0 <= k < |rest[1..]|
        ensures ClauseHolds(st, ps, rest[1..][k])
      {
        assert ClauseHolds(st, ps, rest[k + 1]);
      }
    }
  }

  lemma NextAlternative(st: StatusSlots, ps: Packages, alts: seq<Edge>)
    requires alts != []
    ensures AnyHolds(st, ps, alts) <==> EdgeHolds(st, ps, alts[0]) || AnyHolds(st, ps, alts[1..])
  {
    hide EdgeHolds;
    if AnyHolds(st, ps, alts) {
      var k :| 0 <= k < |alts| && EdgeHolds(st, ps, alts[k]);
      if k > 0 { assert alts[1..][k - 1] == alts[k]; }
    }
    if AnyHolds(st, ps, alts[1..]) {
      var k :| 0 <= k < |alts[1..]| && EdgeHolds(st, ps, alts[1..][k]);
      assert alts[k + 1] == alts[1..][k];
    }
  }

  /** What stands at the edge in front of a clause. */
  lemma AtClause(es: seq<Edge>, j: nat, number: nat, root: Option<Edge>, rest: seq<Clause>)
    requires InFront(es, j, number, root, [], rest) && j < |es|
    ensures rest != [] && ClauseOk(rest[0]) && ClausesOk(rest[1..])
    ensures rest[0].ored ==> es[j] == OrEdge(rest[0].kind, rest[0].text, |rest[0].alts|)
                             && es[j + 1..] == rest[0].alts + Flatten(rest[1..])
    ensures !rest[0].ored ==> rest[0].alts == [es[j]] && es[j].kind == rest[0].kind && es[j + 1..] == Flatten(rest[1..])
  {
    assert |es[j..]| > 0 && (rest == [] ==> [] + Flatten(rest) == []);
    var c := rest[0];
    assert ClauseOk(c);
    FirstOf(es, j, ClauseEdges(c), Flatten(rest[1..]));
    if c.ored {
      FirstOf(es, j, [OrEdge(c.kind, c.text, |c.alts|)], c.alts + Flatten(rest[1..]));
    } else {
      assert c.alts == [c.alts[0]];
    }
  }

  lemma FirstOf(es: seq<Edge>, j: nat, a: seq<Edge>, b: seq<Edge>)
    requires j <= |es| && es[j..] == a + b
    ensures j + |a| <= |es| && es[j..j + |a|] == a && es[j + |a|..] == b
    ensures a != [] ==> j < |es| && es[j] == a[0]
    ensures |a| == 1 ==> es[j + 1..] == b && a == [es[j]]
  {
    assert es[j..][..|a|] == a && es[j..][|a|..] == b;
    assert a != [] ==> es[j..][0] == a[0];
  }

  /** What stands at the edge inside an "or" clause. */
  lemma AtAlternative(es: seq<Edge>, j: nat, number: nat, root: Option<Edge>, alts: seq<Edge>, rest: seq<Clause>)
    requires InFront(es, j, number, root, alts, rest) && alts != []
    ensures j < |es| && es[j] == alts[0] && es[j].kind == root.value.kind - 1 && Depends(es[j].kind)
    ensures es[j + 1..] == alts[1..] + Flatten(rest)
    ensures j + |alts| <= |es| && es[j + |alts|..] == Flatten(rest)
  {
    FirstOf(es, j, alts, Flatten(rest));
    assert alts + Flatten(rest) == [alts[0]] + (alts[1..] + Flatten(rest));
    FirstOf(es, j, [alts[0]], alts[1..] + Flatten(rest));
  }

  /** Past an "or" edge, its alternatives begin. */
  lemma PastOr(es: seq<Edge>, j: nat, next: nat, number: nat, root: Option<Edge>, rest: seq<Clause>)
    requires InFront(es, j, number, root, [], rest) && j < |es| && next == j + 1 && rest != [] && rest[0].ored
    ensures InFront(es, next, es[j].alternatives, Some(es[j]), rest[0].alts, rest[1..])
  {
    AtClause(es, j, number, root, rest);
  }

  /** Past a single edge; only a dependency uses up the one alternative. */
  lemma PastSingle(es: seq<Edge>, j: nat, next: nat, number: nat, root: Option<Edge>, rest: seq<Clause>, left: nat, newRoot: Option<Edge>)
    requires InFront(es, j, number, root, [], rest) && j < |es| && next == j + 1 && rest != [] && !rest[0].ored
    requires left == 0 || (left == 1 && newRoot == None)
    ensures InFront(es, next, left, newRoot, [], rest[1..])
  {
    AtClause(es, j, number, root, rest);
    assert [] + Flatten(rest[1..]) == Flatten(rest[1..]);
  }

  /** Past one alternative that fails. */
  lemma PastAlternative(es: seq<Edge>, j: nat, next: nat, number: nat, root: Option<Edge>, alts: seq<Edge>, rest: seq<Clause>, left: nat)
    requires InFront(es, j, number, root, alts, rest) && |alts| > 1 && next == j + 1 && left == number - 1
    ensures InFront(es, next, left, root, alts[1..], rest)
  {
    AtAlternative(es, j, number, root, alts, rest);
  }

  /** The skip over the rest of the alternatives ends exactly with the clause. */
  lemma PastGroup(es: seq<Edge>, j: nat, next: nat, number: nat, root: Option<Edge>, alts: seq<Edge>, rest: seq<Clause>)
    requires InFront(es, j, number, root, alts, rest) && alts != [] && next == j + number
    ensures InFront(es, next, 0, root, [], rest)
  {
    hide ClausesOk, Flatten, AllOfKind;
    AtAlternative(es, j, number, root, alts, rest);
    assert [] + Flatten(rest) == Flatten(rest);
  }

  lemma AtEnd(es: seq<Edge>, number: nat, root: Option<Edge>, alts: seq<Edge>, rest: seq<Clause>)
    requires InFront(es, |es|, number, root, alts, rest)
    ensures alts == [] && rest == []
  {
    assert es[|es|..] == [];
    FlattenSome(rest);
  }

  lemma FlattenSome(cs: seq<Clause>)
    requires ClausesOk(cs)
    ensures cs != [] ==> Flatten(cs) != []
  {
    if cs != [] { assert ClauseOk(cs[0]); }
  }

  class Database {
    const packages: PackageTable
    const statuses: StatusTable

    constructor (packages: PackageTable, statuses: StatusTable)
      ensures this.packages == packages && this.statuses == statuses
    {
      this.packages, this.statuses := packages, statuses;
    }

    /** Both tables are in order and have a free slot, without which no search for something absent would end. */
    ghost predicate Ready()
      reads packages.slots, statuses.slots
    {
      && packages.Valid() && statuses.Valid(packages.slots[..])
      && (exists s: nat :: s < PACKAGE_HASH_PRIME && packages.slots[s] == None)
      && (exists s: nat :: s < STATUS_HASH_PRIME && statuses.slots[s] == None)
    }

    /** What the dependency phase asks of the tables, but for their free slots. */
    ghost predicate InOrder(clauses: seq<seq<Clause>>)
      reads packages.slots, statuses.slots
    {
      packages.Valid() && statuses.Valid(packages.slots[..]) && ClausesFor(packages.slots[..], clauses)
    }

    /** Filling in a package, new or in the place of another one, keeps the tables in order. */
    method AddPackage(fields: seq<Field>, ghost clauses: seq<seq<Clause>>) returns (num: Option<int>, ghost clauses': seq<seq<Clause>>)
      requires InOrder(clauses) && Free(packages.slots[..]) && FieldsOk(fields)
      modifies packages.slots
      ensures InOrder(clauses') && (num == None <==> PackageOf(fields) == None)
      ensures num.Some? && num.value != -1 ==>
                && 0 <= num.value < PACKAGE_HASH_PRIME < packages.slots.Length
                && packages.slots[..] == old(packages.slots[..])[num.value := Some(PackageOf(fields).value)]
                && |clauses| > num.value && clauses' == clauses[num.value := FieldClauses(fields).value]
    {
      hide Found, TableOk, ClausesFor, StatusesOk, FieldsOk, PackageOf, FieldClauses, Free;
      ghost var ps, st := packages.slots[..], statuses.slots[..];
      ClausesCount(ps, clauses);
      num, clauses' := FillPackage(packages, fields, clauses);
      assert statuses.slots[..] == st;
      if num.Some? && num.value != -1 {
        StoredWhere(st, ps, packages.slots[..], statuses.hash, packages.hash, PackageOf(fields).value, VER_EQUAL, num.value);
      }
    }

    /** So does a virtual package for what another one provides. */
    method AddProvided(e: Edge, ghost clauses: seq<seq<Clause>>) returns (num: nat, ghost clauses': seq<seq<Clause>>)
      requires InOrder(clauses) && Free(packages.slots[..])
      modifies packages.slots
      ensures InOrder(clauses')
      ensures num < PACKAGE_HASH_PRIME < packages.slots.Length && packages.slots[num].Some?
      ensures old(packages.slots[num]) != None ==> packages.slots[..] == old(packages.slots[..])
      ensures old(packages.slots[num]) == None ==>
                packages.slots[..] == old(packages.slots[..])[num := Some(Node(e.name, e.version, []))]
    {
      hide Found, TableOk, ClausesFor, StatusesOk, Free, Passes;
      ghost var ps, st := packages.slots[..], statuses.slots[..];
      num, clauses' := ProvidePackage(packages, e, clauses);
      assert statuses.slots[..] == st && ps[num] == old(packages.slots[num]);
      if ps[num] == None {
        StoredWhere(st, ps, packages.slots[..], statuses.hash, packages.hash, Node(e.name, e.version, []), e.op, num);
      }
    }

    /** package_satisfies_dependency */
    method PackageSatisfies(package: nat, kind: nat) returns (ok: bool)
      requires Ready() && package < PACKAGE_HASH_PRIME && packages.slots[package].Some?
      ensures ok <==> Satisfied(statuses.slots[..], packages.slots[..], packages.slots[package].value.name, kind)
    {
      var at := FindStatus(packages.slots[package].value.name, kind);
      if statuses.slots[at] == None { return false; }
      match kind {
        case 1 => var word := GetStatus(statuses.slots[at].value.text, 3); ok := word == "installed";
        case 3 => var word := GetStatus(statuses.slots[at].value.text, 1); ok := word == "install";
        case _ => ok := false;
      }
    }

    /** The status of a name decides. */
    method FindStatus(name: CString, ghost kind: nat) returns (at: nat)
      requires Ready()
      ensures at < STATUS_HASH_PRIME < statuses.slots.Length
      ensures Satisfied(statuses.slots[..], packages.slots[..], name, kind)
              <==> statuses.slots[at].Some? && Serves(kind, statuses.slots[at].value.text)
    {
      hide TableOk, Word;
      ghost var t, ps := statuses.slots[..], packages.slots[..];
      ghost var s: nat :| s < STATUS_HASH_PRIME && statuses.slots[s] == None;
      assert StopsFor(t, ps, name, s);
      at := statuses.Search(name, packages.slots[..]);
      LocatedDecides(t, ps, statuses.hash, name, kind, at);
    }

    /** Whether an edge's dependency is met, directly or by a provider. */
    method CheckEdge(e: Edge) returns (ok: bool)
      requires Ready()
      ensures ok <==> EdgeHolds(statuses.slots[..], packages.slots[..], e)
      ensures ok <==> Met(statuses.slots[..], packages.slots[..], e)
    {
      hide TableOk, StatusesOk, Satisfied, ProvidesAt, Passes, Met;
      ghost var st, ps := statuses.slots[..], packages.slots[..];
      Stopped(e);
      var num := packages.Search(e.name, e.version, e.op);
      ok := false;
      if packages.slots[num] != None {
        ok := PackageSatisfies(num, e.kind);
      }
      DirectlyIs(st, ps, packages.hash, e, num);
      if !ok {
        ok := CheckProviders(e);
      }
      MetIs(st, ps, statuses.hash, e);
    }

    lemma Stopped(e: Edge)
      requires Ready()
      ensures packages.Searchable(e.name, e.version, e.op)
    {
      hide TableOk, StatusesOk;
      var s: nat :| s < PACKAGE_HASH_PRIME && packages.slots[s] == None;
      assert StopsAt(packages.slots[..], e.name, e.version, e.op, s);
    }

    /** Asks one provider after the other. */
    method CheckProviders(e: Edge) returns (ok: bool)
      requires Ready()
      ensures ok <==> ByProvider(statuses.slots[..], packages.slots[..], e)
    {
      hide TableOk, StatusesOk, Satisfied, Passes;
      ghost var st, ps := statuses.slots[..], packages.slots[..];
      var provider := packages.SearchForProvides(e.name, -1);
      assert packages.slots[..] == ps;
      while provider > -1
        invariant provider == -1 || (0 <= provider < PACKAGE_HASH_PRIME && ProvidesAt(ps, provider, e.name))
        invariant forall s: nat :: s < (if provider == -1 then PACKAGE_HASH_PRIME else provider) && ProvidesAt(ps, s, e.name) ==>
                    !Satisfied(st, ps, ps[s].value.name, e.kind)
        decreases if provider == -1 then 0 else PACKAGE_HASH_PRIME - provider
      {
        ok := PackageSatisfies(provider, e.kind);
        if ok { return; }
        provider := packages.SearchForProvides(e.name, provider);
        assert packages.slots[..] == ps;
      }
      ok := false;
    }

    /** The loop over the edges of one package: passes if and only if every clause of it holds. */
    method CheckNode(node: Node, ghost cs: seq<Clause>) returns (ok: bool)
      requires Ready() && ClausesOk(cs) && node.edges == Flatten(cs)
      ensures ok <==> AllHold(statuses.slots[..], packages.slots[..], cs)
    {
      hide Database.Ready, Flatten, InFront, StillDecides, AllHold, AnyHolds, EdgeHolds, ClauseHolds, ClauseOk, OrEdge;
      ghost var st, ps := statuses.slots[..], packages.slots[..];
      var number, root := 0, None;
      var j := 0;
      ghost var alts: seq<Edge>, rest := [], cs;
      AtStart(st, ps, node.edges, cs);
      while j < |node.edges|
        invariant InFront(node.edges, j, number, root, alts, rest) && StillDecides(st, ps, cs, alts, rest) && j <= |node.edges|
        decreases |node.edges| - j
      {
        var e := node.edges[j];
        KindIs(node.edges, j, number, root, alts, rest);
        if e.kind == EDGE_OR_PRE_DEPENDS || e.kind == EDGE_OR_DEPENDS {
          PastOr(node.edges, j, j + 1, number, root, rest);
          OrStep(st, ps, cs, rest);
          alts, rest := rest[0].alts, rest[1..];
          number, root := e.alternatives, Some(e);
          j := j + 1;
          continue;
        }
        ghost var number0, root0 := number, root;
        if number == 0 {
          number, root := 1, None;
        }
        if e.kind == EDGE_PRE_DEPENDS || e.kind == EDGE_DEPENDS {
          if root.Some? && e.kind != root.value.kind - 1 {
            assert false;   // dependencies corrupt
          }
          ok := CheckEdge(e);
          number := number - 1;
          if !ok && number == 0 {
            LastFails(st, ps, cs, alts, rest, e);
            return false;
          }
          if ok && number > 0 {
            j := j + number;
            number := 0;
          }
          if alts == [] {
            PastSingle(node.edges, j, j + 1, number0, root0, rest, number, root);
            SingleStep(st, ps, cs, rest, e);
            rest := rest[1..];
          } else if ok {
            PastGroup(node.edges, j + 1 - number0, j + 1, number0, root0, alts, rest);
            GroupStep(st, ps, cs, alts, rest, e);
            alts := [];
          } else {
            PastAlternative(node.edges, j, j + 1, number0, root0, alts, rest, number);
            AlternativeStep(st, ps, cs, alts, rest, e);
            alts := alts[1..];
          }
        } else {
          PastSingle(node.edges, j, j + 1, number0, root0, rest, number, root);
          SingleStep(st, ps, cs, rest, e);
          rest := rest[1..];
        }
        j := j + 1;
        InFrontBound(node.edges, j, number, root, alts, rest);
      }
      AtEnd(node.edges, number, root, alts, rest);
      NothingLeft(st, ps, cs);
      ok := true;
    }

    /** The whole phase: passes if and only if, for every stored package whose status wants it installed,
        every clause of its dependencies has an alternative that holds. */
    method CheckDependencies(ghost clauses: seq<seq<Clause>>) returns (ok: bool)
      requires Ready() && ClausesFor(packages.slots[..], clauses)
      ensures ok <==> forall i :: 0 <= i < PACKAGE_HASH_PRIME ==> PackageMet(statuses.slots[..], packages.slots[..], clauses, i)
    {
      hide TableOk, StatusesOk, ClausesOk, AllHold, Flatten, Satisfied, PackageMet;
      ghost var st, ps := statuses.slots[..], packages.slots[..];
      var i := 0;
      while i < PACKAGE_HASH_PRIME
        invariant 0 <= i <= PACKAGE_HASH_PRIME
        invariant forall k :: 0 <= k < i ==> PackageMet(st, ps, clauses, k)
      {
        PackageMetIs(st, ps, statuses.hash, clauses, i);
        if packages.slots[i].Some? {
          var node := packages.slots[i].value;
          var wanted := PackageSatisfies(i, EDGE_DEPENDS);
          if wanted {
            var holds := CheckNode(node, clauses[i]);
            if !holds {
              assert !PackageMet(st, ps, clauses, i);
              return false;
            }
          }
        }
        i := i + 1;
      }
      ok := true;
    }
  }

  lemma ClausesCount(ps: Packages, clauses: seq<seq<Clause>>)
    requires ClausesFor(ps, clauses)
    ensures |clauses| == PACKAGE_HASH_PRIME
  {
  }

  /** Empty tables are in order. */
  method NewDatabase(packageHash: CString -> Hash, statusHash: CString -> Hash) returns (d: Database, ghost clauses: seq<seq<Clause>>)
    ensures fresh(d) && d.InOrder(clauses) && Free(d.packages.slots[..]) && d.Ready()
  {
    hide TableOk, StatusesOk, ClausesFor;
    var packages := new PackageTable(packageHash);
    var statuses := new StatusTable(statusHash);
    clauses := seq(PACKAGE_HASH_PRIME, _ => []);
    NoPackages(packages.slots[..]);
    assert packages.slots[0] == None && statuses.slots[0] == None;
    d := new Database(packages, statuses);
  }

  /** A package stored where the search for it ended takes no status from another name. */
  lemma StoredWhere(st: StatusSlots, ps: Packages, ps': Packages, statusHash: CString -> Hash, hash: CString -> Hash, n: Node,
                    op: Operator, at: nat)
    requires StatusesOk(st, ps, STATUS_HASH_PRIME, statusHash)
    requires Found(ps, PACKAGE_HASH_PRIME, hash, n.name, n.version, op, at) && ps' == ps[at := Some(n)]
    ensures StatusesOk(st, ps', STATUS_HASH_PRIME, statusHash)
  {
    hide StatusesOk, Passes;
    StatusesStay(st, ps, ps', STATUS_HASH_PRIME, statusHash, at, n);
  }

  /** A package that is wanted has all its clauses hold. */
  ghost predicate PackageHolds(st: StatusSlots, ps: Packages, clauses: seq<seq<Clause>>, i: nat) {
    i < |ps| && i < |clauses| && ps[i].Some? && Satisfied(st, ps, ps[i].value.name, EDGE_DEPENDS) ==> AllHold(st, ps, clauses[i])
  }

  lemma LocatedDecides(st: StatusSlots, ps: Packages, hash: CString -> Hash, name: CString, kind: nat, at: nat)
    requires StatusesOk(st, ps, STATUS_HASH_PRIME, hash) && Located(st, ps, STATUS_HASH_PRIME, name, at)
    ensures Satisfied(st, ps, name, kind) <==> st[at].Some? && Serves(kind, st[at].value.text)
  {
    hide Serves;
    if st[at].Some? && Serves(kind, st[at].value.text) { assert ServesAt(st, ps, name, kind, at); }
    if Satisfied(st, ps, name, kind) {
      var s: nat :| s < STATUS_HASH_PRIME && ServesAt(st, ps, name, kind, s);
      assert st[s].Some?;
    }
  }

  /** All packages that a search could find have the same name, so the first one speaks for all. */
  lemma DirectlyIs(st: StatusSlots, ps: Packages, hash: CString -> Hash, e: Edge, at: nat)
    requires Found(ps, PACKAGE_HASH_PRIME, hash, e.name, e.version, e.op, at)
    ensures Directly(st, ps, e) <==> ps[at].Some? && Satisfied(st, ps, ps[at].value.name, e.kind)
  {
    hide Satisfied, Passes;
    if ps[at].Some? { assert WantedAt(ps, e, at); }
    if Directly(st, ps, e) {
      var s: nat :| s < PACKAGE_HASH_PRIME && WantedAt(ps, e, s) && Satisfied(st, ps, ps[s].value.name, e.kind);
      assert Wanted(ps[s].value, e.name, e.version, e.op);
    }
  }

  lemma AtStart(st: StatusSlots, ps: Packages, es: seq<Edge>, cs: seq<Clause>)
    requires ClausesOk(cs) && es == Flatten(cs)
    ensures InFront(es, 0, 0, None, [], cs) && StillDecides(st, ps, cs, [], cs)
  {
    hide AllHold, AnyHolds;
    assert es[0..] == es == [] + Flatten(cs);
  }

  lemma NothingLeft(st: StatusSlots, ps: Packages, cs: seq<Clause>)
    requires StillDecides(st, ps, cs, [], [])
    ensures AllHold(st, ps, cs)
  {
    assert AllHold(st, ps, []);
  }

  lemma InFrontBound(es: seq<Edge>, j: nat, number: nat, root: Option<Edge>, alts: seq<Edge>, rest: seq<Clause>)
    requires InFront(es, j, number, root, alts, rest)
    ensures j <= |es|
  {
  }

  /** What the kind of an edge tells: only the one in front of an "or" clause has an even kind. */
  lemma KindIs(es: seq<Edge>, j: nat, number: nat, root: Option<Edge>, alts: seq<Edge>, rest: seq<Clause>)
    requires InFront(es, j, number, root, alts, rest) && j < |es|
    ensures alts == [] ==> rest != [] && ClauseOk(rest[0]) && (number == 0 || (number == 1 && root == None))
    ensures alts != [] ==> number == |alts| && alts[0] == es[j] && root.Some? && es[j].kind == root.value.kind - 1
    ensures (es[j].kind == EDGE_OR_PRE_DEPENDS || es[j].kind == EDGE_OR_DEPENDS) <==> alts == [] && rest[0].ored
    ensures alts == [] && !rest[0].ored ==> rest[0].alts == [es[j]] && rest[0].kind == es[j].kind
    ensures alts != [] ==> Depends(es[j].kind)
  {
    if alts == [] { AtClause(es, j, number, root, rest); } else { AtAlternative(es, j, number, root, alts, rest); }
  }

  /** Past an "or" edge. */
  lemma OrStep(st: StatusSlots, ps: Packages, cs: seq<Clause>, rest: seq<Clause>)
    requires StillDecides(st, ps, cs, [], rest) && rest != [] && ClauseOk(rest[0]) && rest[0].ored
    ensures StillDecides(st, ps, cs, rest[0].alts, rest[1..]) && rest[0].alts != []
  {
    hide AllHold, AnyHolds;
    NextClause(st, ps, rest);
  }

  /** Past a single edge that is no dependency, or one that is met. */
  lemma SingleStep(st: StatusSlots, ps: Packages, cs: seq<Clause>, rest: seq<Clause>, e: Edge)
    requires StillDecides(st, ps, cs, [], rest) && rest != [] && rest[0].alts == [e] && rest[0].kind == e.kind
    requires Depends(e.kind) ==> EdgeHolds(st, ps, e)
    ensures StillDecides(st, ps, cs, [], rest[1..])
  {
    hide AllHold, AnyHolds, EdgeHolds;
    NextClause(st, ps, rest);
    NextAlternative(st, ps, [e]);
  }

  /** One alternative is enough. */
  lemma GroupStep(st: StatusSlots, ps: Packages, cs: seq<Clause>, alts: seq<Edge>, rest: seq<Clause>, e: Edge)
    requires StillDecides(st, ps, cs, alts, rest) && alts != [] && alts[0] == e && EdgeHolds(st, ps, e)
    ensures StillDecides(st, ps, cs, [], rest)
  {
    hide AllHold, AnyHolds, EdgeHolds;
    NextAlternative(st, ps, alts);
  }

  /** One that fails leaves it to the others. */
  lemma AlternativeStep(st: StatusSlots, ps: Packages, cs: seq<Clause>, alts: seq<Edge>, rest: seq<Clause>, e: Edge)
    requires StillDecides(st, ps, cs, alts, rest) && |alts| > 1 && alts[0] == e && !EdgeHolds(st, ps, e)
    ensures StillDecides(st, ps, cs, alts[1..], rest)
  {
    hide AllHold, AnyHolds, EdgeHolds;
    NextAlternative(st, ps, alts);
  }

  /** The last alternative of a clause fails, and nothing else can save it. */
  lemma LastFails(st: StatusSlots, ps: Packages, cs: seq<Clause>, alts: seq<Edge>, rest: seq<Clause>, e: Edge)
    requires StillDecides(st, ps, cs, alts, rest) && !EdgeHolds(st, ps, e)
    requires alts == [] ==> rest != [] && rest[0].alts == [e] && Depends(rest[0].kind)
    requires alts != [] ==> |alts| == 1 && alts[0] == e
    ensures !AllHold(st, ps, cs)
  {
    hide AllHold, EdgeHolds;
    if alts == [] { NextClause(st, ps, rest); }
  }
}
