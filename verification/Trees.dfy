/** The data structures of the Huffman tree builder. */
module Trees {
  import opened Bits
  import opened Heaps

  const L_CODES: nat := 286
  const D_CODES: nat := 30
  const BL_CODES: nat := 19
  const HEAP_SIZE: nat := 573

  /** An array of ct_data. Its two unions each share one 16-bit cell:
      fc is the frequency, later the code; dl is the father, later the length. */
  class CtTree {
    const fc: array<ush>
    const dl: array<ush>

    constructor (size: nat)
      ensures fresh(fc) && fresh(dl) && fc != dl
      ensures fc.Length == dl.Length == size
      ensures forall i :: 0 <= i < size ==> fc[i] == 0 && dl[i] == 0
    {
      fc := new ush[size](_ => 0);
      dl := new ush[size](_ => 0);
    }
  }

  class TreeDesc {
    const dyn: CtTree
    const stat: CtTree?
    const extraBits: seq<nat>
    const extraBase: nat
    const elems: nat
    const maxLength: nat
    var maxCode: int

    constructor (dyn: CtTree, stat: CtTree?, extraBits: seq<nat>, extraBase: nat, elems: nat, maxLength: nat)
      ensures this.dyn == dyn && this.stat == stat && this.extraBits == extraBits
      ensures this.extraBase == extraBase && this.elems == elems && this.maxLength == maxLength
    {
      this.dyn, this.stat, this.extraBits, this.extraBase := dyn, stat, extraBits, extraBase;
      this.elems, this.maxLength, this.maxCode := elems, maxLength, 0;
    }

    /** Room for the inner nodes, and a static length for every code. */
    predicate Valid() {
      && 3 <= elems <= L_CODES
      && dyn.fc.Length == dyn.dl.Length == 2 * elems + 1
      && dyn.fc != dyn.dl
      && 1 <= maxLength <= 15
      && (stat != null ==> stat.dl.Length >= elems && stat.dl != dyn.dl && stat.dl != dyn.fc)
    }

    /** Enough lengths to go round, and no extra bits on the codes that may be forced in. */
    predicate Sized() {
      && elems <= Pow2(maxLength)
      && (forall i :: 0 <= i < 3 ==> Extra(i) == 0)
      && (forall i :: 0 <= i < |extraBits| ==> extraBits[i] <= 13)
    }

    /** The extra bits sent after code n. */
    function Extra(n: nat): nat {
      if extraBase <= n && n - extraBase < |extraBits| then extraBits[n - extraBase] else 0
    }
  }

  /** The working storage that all trees are built in. */
  class TreeSpace {
    const heap: array<ush>
    var heapLen: nat
    var heapMax: nat
    const depth: array<byte>
    const blCount: array<nat>
    var optLen: nat
    var staticLen: nat

    constructor ()
      ensures fresh(heap) && fresh(depth) && fresh(blCount)
      ensures Valid() && optLen == 0 && staticLen == 0
      ensures forall b :: 0 <= b < 16 ==> blCount[b] == 0
    {
      heap := new ush[HEAP_SIZE];
      depth := new byte[2 * L_CODES + 1];
      blCount := new nat[16](_ => 0);
      heapLen, heapMax, optLen, staticLen := 0, 0, 0, 0;
    }

    predicate Valid()
    {
      heap.Length == HEAP_SIZE && depth.Length == HEAP_SIZE && blCount.Length == 16
    }

    /** Both lengths are 32-bit words. */
    predicate Words()
      reads this
    {
      optLen < 0x1_0000_0000 && staticLen < 0x1_0000_0000
    }

    /** The storage is not part of the tree. */
    predicate Apart(desc: TreeDesc) {
      && desc.dyn.fc != heap && desc.dyn.dl != heap
      && (desc.stat != null ==> desc.stat.dl != heap)
    }
  }

  /** All of the builder's storage, and one tree's, as values. */
  datatype TreeState = TreeState(
    heap: seq<ush>, heapLen: nat, heapMax: nat, depth: seq<byte>, blCount: seq<nat>,
    optLen: nat, staticLen: nat, fc: seq<ush>, dl: seq<ush>, maxCode: int)

  ghost function State(g: TreeSpace, desc: TreeDesc): TreeState
    reads g, g.heap, g.depth, g.blCount, desc, desc.dyn.fc, desc.dyn.dl
  {
    TreeState(g.heap[..], g.heapLen, g.heapMax, g.depth[..], g.blCount[..],
              g.optLen, g.staticLen, desc.dyn.fc[..], desc.dyn.dl[..], desc.maxCode)
  }

  /** The lengths of the static tree that goes with desc, if there is one. */
  ghost function StaticLens(desc: TreeDesc): (r: seq<ush>)
    reads if desc.stat == null then {} else {desc.stat.dl}
  {
    if desc.stat == null then [] else desc.stat.dl[..]
  }
}
