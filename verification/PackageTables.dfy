/** The package table: packages of one name may be stored more than once, in different versions. */
module PackageTables {
  import opened Optionals
  import opened Versions
  import opened Probing
  import opened NameTables

  const EDGE_PRE_DEPENDS: nat := 1
  const EDGE_OR_PRE_DEPENDS: nat := 2
  const EDGE_DEPENDS: nat := 3
  const EDGE_OR_DEPENDS: nat := 4
  const EDGE_PROVIDES: nat := 7

  /** An edge; `alternatives` is what the version field of an "or" edge holds. */
  datatype Edge = Edge(op: Operator, kind: nat, name: CString, version: CString, alternatives: nat)

  datatype Node = Node(name: CString, version: CString, edges: seq<Edge>)

  type Packages = seq<Option<Node>>

  predicate Wanted(n: Node, name: CString, version: CString, op: Operator) {
    n.name == name && Passes(n.version, version, op)
  }

  /** A search stops at slot s. */
  predicate StopsAt(t: Packages, name: CString, version: CString, op: Operator, s: nat)
    requires s < |t|
  {
    t[s] == None || Wanted(t[s].value, name, version, op)
  }

  /** No probe before the k-th one stops the search. */
  ghost predicate NoStopBefore(t: Packages, p: nat, h: Hash, name: CString, version: CString, op: Operator, k: nat) {
    p >= 2 && p <= |t| && forall j: nat :: j < k ==> !StopsAt(t, name, version, op, Slot(h, p, j))
  }

  /** Where a search ends: at the first slot of the name's probe path that is empty or has a package that passes, and
      it is empty if and only if no stored package of that name passes the version test. */
  ghost predicate Found(t: Packages, p: nat, hash: CString -> Hash, name: CString, version: CString, op: Operator, at: nat) {
    && p >= 2 && at < p <= |t|
    && (t[at].Some? ==> Wanted(t[at].value, name, version, op))
    && (t[at] == None <==> forall s: nat :: s < p && t[s].Some? ==> !Wanted(t[s].value, name, version, op))
    && exists k: nat :: k < p && at == Slot(hash(name), p, k) && Passed(t, p, hash(name), k)
                        && NoStopBefore(t, p, hash(name), name, version, op, k)
  }

  function NodeHash(hash: CString -> Hash): Node -> Hash {
    (n: Node) => hash(n.name)
  }

  ghost predicate TableOk(t: Packages, p: nat, hash: CString -> Hash) {
    AllLinked(t, p, NodeHash(hash))
  }

  lemma FoundNow(t: Packages, p: nat, hash: CString -> Hash, name: CString, version: CString, op: Operator, k: nat)
    requires TableOk(t, p, hash) && k < p && StopsAt(t, name, version, op, Slot(hash(name), p, k))
    requires forall j: nat :: j < k ==> !StopsAt(t, name, version, op, Slot(hash(name), p, j))
    ensures Found(t, p, hash, name, version, op, Slot(hash(name), p, k))
  {
    var h := hash(name);
    var at := Slot(h, p, k);
    forall j: nat | j < k
      ensures t[Slot(h, p, j)].Some?
    {
      assert !StopsAt(t, name, version, op, Slot(h, p, j));
    }
    assert Passed(t, p, h, k) && NoStopBefore(t, p, h, name, version, op, k);
    if t[at] == None {
      forall s: nat | s < p && t[s].Some?
        ensures !Wanted(t[s].value, name, version, op)
      {
        if Wanted(t[s].value, name, version, op) {
          var j := StoredBefore(t, p, NodeHash(hash), h, k, s);
          assert false;
        }
      }
    }
  }

  lemma SearchGoesOn(t: Packages, p: nat, h: Hash, name: CString, version: CString, op: Operator, k: nat)
    requires Prime(p) && |t| >= p && k <= p
    requires exists s: nat :: s < p && StopsAt(t, name, version, op, s)
    requires forall j: nat :: j < k ==> !StopsAt(t, name, version, op, Slot(h, p, j))
    ensures k < p
  {
    var s: nat :| s < p && StopsAt(t, name, version, op, s);
    var j := EverySlot(h, p, s);
  }

  /** Storing a package where the search for its name ended keeps every package reachable. */
  lemma StoreFound(t: Packages, p: nat, hash: CString -> Hash, version: CString, op: Operator, at: nat, n: Node, t': Packages)
    requires TableOk(t, p, hash) && Found(t, p, hash, n.name, version, op, at) && t' == t[at := Some(n)]
    ensures TableOk(t', p, hash)
  {
    var k: nat :| k < p && at == Slot(hash(n.name), p, k) && Passed(t, p, hash(n.name), k);
    StoreKeeps(t, p, NodeHash(hash), n, k, t');
  }

  class PackageTable {
    const hash: CString -> Hash
    const slots: array<Option<Node>>

    constructor (hash: CString -> Hash)
      ensures this.hash == hash && Valid() && fresh(slots)
      ensures forall s :: 0 <= s < slots.Length ==> slots[s] == None
    {
      this.hash := hash;
      slots := new Option<Node>[PACKAGE_HASH_PRIME + 1](_ => None);
    }

    ghost predicate Valid()
      reads slots
    {
      slots.Length == PACKAGE_HASH_PRIME + 1 && TableOk(slots[..], PACKAGE_HASH_PRIME, hash)
    }

    /** The search ends only if something stops it. */
    ghost predicate Searchable(name: CString, version: CString, op: Operator)
      reads slots
    {
      slots.Length > PACKAGE_HASH_PRIME && exists s: nat :: s < PACKAGE_HASH_PRIME && StopsAt(slots[..], name, version, op, s)
    }

    method Search(name: CString, version: CString, op: Operator) returns (probeAddress: nat)
      requires Valid() && Searchable(name, version, op)
      ensures Found(slots[..], PACKAGE_HASH_PRIME, hash, name, version, op, probeAddress)
    {
      hide Slot, TableOk, Passes, Found;
      ThePrimes();
      ghost var t, h := slots[..], hash(name);
      probeAddress := hash(name).low % PACKAGE_HASH_PRIME;
      var probeDecrement := 1 + hash(name).whole % (PACKAGE_HASH_PRIME - 1);
      ghost var k := 0;
      StartSlot(h, PACKAGE_HASH_PRIME);
      while slots[probeAddress].Some?
        invariant k < PACKAGE_HASH_PRIME && probeAddress == Slot(h, PACKAGE_HASH_PRIME, k)
        invariant forall j: nat :: j < k ==> !StopsAt(t, name, version, op, Slot(h, PACKAGE_HASH_PRIME, j))
        decreases PACKAGE_HASH_PRIME - k
      {
        if slots[probeAddress].value.name == name {
          var passes := op == VER_ANY;
          if !passes {
            passes := TestVersion(slots[probeAddress].value.version, version, op);
          }
          AnyPasses(slots[probeAddress].value.version, version, op, passes);
          if passes {
            FoundNow(t, PACKAGE_HASH_PRIME, hash, name, version, op, k);
            return;
          }
        }
        StepSlot(h, PACKAGE_HASH_PRIME, k, k + 1, probeAddress, probeDecrement);
        var next: int := probeAddress - probeDecrement;
        if next < 0 {
          next := next + PACKAGE_HASH_PRIME;
        }
        probeAddress := next;
        k := k + 1;
        SearchGoesOn(t, PACKAGE_HASH_PRIME, h, name, version, op, k);
      }
      FoundNow(t, PACKAGE_HASH_PRIME, hash, name, version, op, k);
    }

    /** The end of fill_package_struct: a package whose version is known replaces the one of the same name and an
        equal version, if there is one, and is added otherwise. */
    method Fill(newNode: Node) returns (num: int)
      requires Valid() && Searchable(newNode.name, newNode.version, VER_EQUAL)
      modifies slots
      ensures Valid()
      ensures newNode.version == "unknown" ==> num == -1 && slots[..] == old(slots[..])
      ensures newNode.version != "unknown" ==>
                num >= 0 && Found(old(slots[..]), PACKAGE_HASH_PRIME, hash, newNode.name, newNode.version, VER_EQUAL, num)
                && slots[..] == old(slots[..])[num := Some(newNode)]
    {
      if newNode.version == "unknown" {
        return -1;
      }
      num := Search(newNode.name, newNode.version, VER_EQUAL);
      StoreFound(slots[..], PACKAGE_HASH_PRIME, hash, newNode.version, VER_EQUAL, num, newNode, slots[..][num := Some(newNode)]);
      slots[num] := Some(newNode);
      assert slots[..] == old(slots[..])[num := Some(newNode)];
    }

    /** What check_deps does with a package that is provided: it is added as a virtual one if nothing stored
        passes for it. */
    method Provide(e: Edge) returns (num: nat)
      requires Valid() && Searchable(e.name, e.version, e.op)
      modifies slots
      ensures Valid() && num < PACKAGE_HASH_PRIME && slots[num].Some? && slots[num].value.name == e.name
      ensures Found(old(slots[..]), PACKAGE_HASH_PRIME, hash, e.name, e.version, e.op, num)
      ensures slots[..] == if old(slots[num]) == None then old(slots[..])[num := Some(Node(e.name, e.version, []))]
                           else old(slots[..])
    {
      num := Search(e.name, e.version, e.op);
      if slots[num] == None {
        var newNode := Node(e.name, e.version, []);
        StoreFound(slots[..], PACKAGE_HASH_PRIME, hash, e.version, e.op, num, newNode, slots[..][num := Some(newNode)]);
        slots[num] := Some(newNode);
        assert slots[..] == old(slots[..])[num := Some(newNode)];
      }
    }

    /** The first package behind start_at that provides needle, or -1. */
    method SearchForProvides(needle: CString, startAt: int) returns (i: int)
      requires Valid() && -1 <= startAt < PACKAGE_HASH_PRIME
      ensures i == -1 || (startAt < i < PACKAGE_HASH_PRIME && ProvidesAt(slots[..], i, needle))
      ensures forall s: nat :: startAt < s < (if i == -1 then PACKAGE_HASH_PRIME else i) ==> !ProvidesAt(slots[..], s, needle)
    {
      i := startAt + 1;
      while i < PACKAGE_HASH_PRIME
        invariant startAt < i <= PACKAGE_HASH_PRIME
        invariant forall s: nat :: startAt < s < i ==> !ProvidesAt(slots[..], s, needle)
      {
        if slots[i].Some? {
          var p := slots[i].value;
          var j := 0;
          while j < |p.edges|
            invariant 0 <= j <= |p.edges|
            invariant forall m :: 0 <= m < j ==> !Provides(p.edges[m], needle)
          {
            if p.edges[j].kind == EDGE_PROVIDES && p.edges[j].name == needle {
              assert Provides(p.edges[j], needle);
              return;
            }
            j := j + 1;
          }
        }
        i := i + 1;
      }
      i := -1;
    }
  }

  lemma AnyPasses(a: CString, b: CString, op: Operator, ok: bool)
    requires ok == (op == VER_ANY || Passes(a, b, op))
    ensures ok == Passes(a, b, op)
  {
  }

  predicate Provides(e: Edge, needle: CString) {
    e.kind == EDGE_PROVIDES && e.name == needle
  }

  predicate ProvidesAt(t: Packages, s: nat, needle: CString) {
    s < |t| && t[s].Some? && exists m :: 0 <= m < |t[s].value.edges| && Provides(t[s].value.edges[m], needle)
  }
}
