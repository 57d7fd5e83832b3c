/** The user-level allocator: a circular, address-ordered free list with coalescing, next-fit search
and tail splitting.  Memory is a sequence of header-sized units; a pointer is a unit number, the
static header `base` is unit 0 and memory from sbrk lies above it. */
module UserHeap {
  import opened Common

  const BASE := 0
  const HEADER := 8
  const NCORE := 4096
  const UNSET := -1

  datatype Header = Header(ptr: int, size: nat)

  /** What sbrk answers: failure, or memory that starts `skip` units above the last known break. */
  datatype Sbrk = Refuse | Grant(skip: nat)

  /** The headers in memory and the search start, with what they stand for: the addresses on the free
  list, the blocks handed out with their sizes, and for each unit the block it belongs to. */
  datatype Heap = Heap(mem: seq<Header>, freep: int, free: set<nat>, alloc: map<nat, nat>, tag: seq<int>) {
    ghost predicate Shape() {
      && 0 < |mem| == |tag| && tag[BASE] == UNSET && BASE !in alloc
      && (forall p :: p in free ==> p < |mem|) && (forall a :: a in alloc ==> a < |mem| && a !in free)
    }

    /** q is the free block after p in address order, wrapping to base. */
    ghost predicate Follows(p: nat, q: int) {
      q in free && if q == BASE then forall r :: r in free ==> r <= p else p < q && forall r :: r in free ==>
        r <= p || q <= r
    }

    ghost predicate LinkAt(p: nat)
      requires Shape() && p in free
    {
      Follows(p, mem[p].ptr)
    }

    ghost predicate Ring()
      requires Shape()
    {
      BASE in free && freep in free && mem[BASE].size == 0 && forall p {:trigger LinkAt(p)} :: p in free ==> LinkAt(p)
    }

    /** Free blocks do not overlap, and no two touch. */
    ghost predicate Apart()
      requires Shape()
    {
      forall p, r :: p in free && r in free && p < r ==> p + mem[p].size < r
    }

    predicate IsBlock(x: int) {
      x in alloc || (x in free && x != BASE)
    }

    /** Block x is made of exactly the units from its header on that carry its tag. */
    ghost predicate BlockAt(x: nat)
      requires Shape() && IsBlock(x)
    {
      && 1 <= mem[x].size && x + mem[x].size <= |mem| && (x in alloc ==> alloc[x] == mem[x].size)
      && forall u :: x <= u < x + mem[x].size ==> tag[u] == x
    }

    ghost predicate UnitAt(u: nat)
      requires Shape() && u < |mem|
    {
      tag[u] == UNSET || (IsBlock(tag[u]) && tag[u] <= u < tag[u] + mem[tag[u]].size)
    }

    ghost predicate Blocks()
      requires Shape()
    {
      && (forall x: nat {:trigger BlockAt(x)} :: IsBlock(x) ==> BlockAt(x))
      && (forall u: nat {:trigger UnitAt(u)} :: u < |mem| ==> UnitAt(u))
    }

    /** One circular address-ordered list of the free blocks, no two of them touching, and every unit
    that came from sbrk in exactly one free or allocated block. */
    ghost predicate Ok() {
      Shape() && Ring() && Apart() && Blocks()
    }

    /** Before the first malloc. */
    ghost predicate Unused() {
      Shape() && freep == UNSET && free == {} && alloc == map[] && forall u :: 0 <= u < |mem| ==> tag[u] == UNSET
    }
  }

  function Retag(tag: seq<int>, from: nat, to: nat, x: int): (t: seq<int>)
    ensures |t| == |tag| && forall u :: 0 <= u < |t| ==> t[u] == if from <= u < to then x else tag[u]
  {
    seq(|tag|, u requires 0 <= u < |tag| => if from <= u < to then x else tag[u])
  }

  // ----- One ring -----

  ghost predicate PointsOn(h: Heap, c: seq<nat>, i: int)
    requires h.Shape() && 0 <= i < |c| && c[i] in h.free
  {
    h.mem[c[i]].ptr == if i + 1 < |c| then c[i + 1] else BASE
  }

  /** c is free blocks in address order, no two touching, each pointing to the next and the last to
  base. */
  ghost predicate Linked(h: Heap, c: seq<nat>)
    requires h.Shape()
  {
    && (forall i :: 0 <= i < |c| ==> c[i] in h.free)
    && (forall i, j :: 0 <= i < j < |c| ==> c[i] + h.mem[c[i]].size < c[j])
    && forall i {:trigger PointsOn(h, c, i)} :: 0 <= i < |c| ==> PointsOn(h, c, i)
  }

  /** Every free block from p up is in c. */
  ghost predicate HasAll(h: Heap, p: nat, c: seq<nat>) {
    forall r :: r in h.free && p <= r ==> r in c
  }

  lemma ChainLinked(h: Heap, p: nat, q: nat, c: seq<nat>)
    requires h.Shape() && p in h.free && h.mem[p].ptr == q != BASE && c != [] && c[0] == q && Linked(h, c)
    requires p + h.mem[p].size < q
    ensures Linked(h, [p] + c)
  {
    var e := [p] + c;
    assert e[0] == p && forall i :: 1 <= i < |e| ==> e[i] == c[i - 1];
    forall i | 0 <= i < |e| ensures PointsOn(h, e, i) {
      assert i > 0 ==> PointsOn(h, c, i - 1);
    }
    forall j | 1 <= j < |e| ensures p + h.mem[p].size < e[j] {
      assert j > 1 ==> c[0] + h.mem[c[0]].size < c[j - 1];
    }
  }

  /** Following the pointers from a free block up. */
  ghost function Chain(h: Heap, p: nat): (c: seq<nat>)
    requires h.Ok() && p in h.free
    ensures c != [] && c[0] == p && Linked(h, c) && HasAll(h, p, c)
    decreases |h.mem| - p
  {
    var q := h.mem[p].ptr;
    assert h.LinkAt(p);
    if q == BASE then [p]
    else
      ChainLinked(h, p, q, Chain(h, q));
      [p] + Chain(h, q)
  }

  /** Following the pointers from base visits every free block once, in address order, and ends back
  at base: the list is one ring. */
  lemma OneRing(h: Heap)
    requires h.Ok()
    ensures exists c :: c != [] && c[0] == BASE && Linked(h, c) && HasAll(h, BASE, c)
  {
    var c := Chain(h, BASE);
    assert c != [];
  }

  // ----- Changes to the ring -----

  /** Taking q out by pointing its predecessor past it. */
  lemma Unlink(h: Heap, g: Heap, p: nat, q: nat)
    requires h.Shape() && h.Ring() && g.Shape() && |g.mem| == |h.mem| && p in h.free && h.mem[p].ptr == q != BASE
    requires q in h.free
    requires g.free == h.free - {q} && g.freep in g.free && g.mem[BASE].size == 0
    requires g.mem[p].ptr == h.mem[q].ptr && forall r :: r in h.free && r != p && r != q ==>
      g.mem[r].ptr == h.mem[r].ptr
    ensures g.Ring()
  {
    assert h.LinkAt(p) && h.LinkAt(q);
    forall r | r in g.free ensures g.LinkAt(r) {
      assert h.LinkAt(r);
    }
  }

  ghost predicate Gap(h: Heap, p: nat, b: nat)
    requires h.Shape()
  {
    p in h.free && p < b && (h.mem[p].ptr == BASE || b < h.mem[p].ptr)
  }

  /** Putting b in between p and its successor. */
  lemma LinkIn(h: Heap, g: Heap, p: nat, b: nat)
    requires h.Shape() && h.Ring() && g.Shape() && Gap(h, p, b)
    requires g.free == h.free + {b} && g.freep in g.free && g.mem[BASE].size == 0
    requires g.mem[p].ptr == b && g.mem[b].ptr == h.mem[p].ptr
    requires forall r :: r in h.free && r != p ==> g.mem[r].ptr == h.mem[r].ptr
    ensures g.Ring()
  {
    assert h.LinkAt(p);
    forall r | r in g.free ensures g.LinkAt(r) {
      if r in h.free {
        assert h.LinkAt(r);
      }
    }
  }

  // ----- Changes to the blocks -----

  /** Block x takes over block y, which starts where x ends. */
  lemma Merge(h: Heap, g: Heap, x: nat, y: nat)
    requires h.Shape() && h.Blocks() && g.Shape() && |g.mem| == |h.mem|
    requires h.IsBlock(x) && h.IsBlock(y) && x + h.mem[x].size == y
    requires g.IsBlock(x) && g.mem[x].size == h.mem[x].size + h.mem[y].size
    requires (x in g.alloc ==> g.alloc[x] == g.mem[x].size)
    requires forall z: nat :: g.IsBlock(z) <==> h.IsBlock(z) && z != y
    requires forall z: nat :: g.IsBlock(z) && z != x ==>
      g.mem[z].size == h.mem[z].size && (z in g.alloc ==> z in h.alloc && g.alloc[z] == h.alloc[z])
    requires g.tag == Retag(h.tag, y, y + h.mem[y].size, x)
    ensures g.Blocks()
  {
    assert h.BlockAt(x) && h.BlockAt(y);
    forall z: nat | g.IsBlock(z) ensures g.BlockAt(z) {
      assert h.BlockAt(z);
      forall u | z <= u < z + g.mem[z].size ensures g.tag[u] == z {
        assert h.UnitAt(u);
      }
    }
    forall u: nat | u < |g.mem| ensures g.UnitAt(u) {
      assert h.UnitAt(u);
    }
  }

  /** Block x gives its last n units to the new block y. */
  lemma Cut(h: Heap, g: Heap, x: nat, y: nat, n: nat)
    requires h.Shape() && h.Blocks() && g.Shape() && |g.mem| == |h.mem|
    requires h.IsBlock(x) && 1 <= n < h.mem[x].size && y == x + h.mem[x].size - n
    requires g.IsBlock(x) && g.mem[x].size == h.mem[x].size - n && x !in g.alloc
    requires y in g.alloc && g.alloc[y] == g.mem[y].size == n
    requires forall z: nat :: g.IsBlock(z) <==> h.IsBlock(z) || z == y
    requires forall z: nat :: h.IsBlock(z) && z != x ==>
      g.mem[z].size == h.mem[z].size && (z in g.alloc ==> z in h.alloc && g.alloc[z] == h.alloc[z])
    requires g.tag == Retag(h.tag, y, y + n, y)
    ensures g.Blocks()
  {
    assert h.BlockAt(x) && h.UnitAt(y);
    forall z: nat | g.IsBlock(z) ensures g.BlockAt(z) {
      if z != y {
        assert h.BlockAt(z);
        forall u | z <= u < z + g.mem[z].size ensures g.tag[u] == z {
          assert h.UnitAt(u);
        }
      }
    }
    forall u: nat | u < |g.mem| ensures g.UnitAt(u) {
      assert h.UnitAt(u);
    }
  }

  /** A block moves between the free list and the allocated blocks. */
  lemma SameBlocks(h: Heap, g: Heap)
    requires h.Shape() && h.Blocks() && g.Shape() && |g.mem| == |h.mem|
    requires forall z: nat :: g.IsBlock(z) <==> h.IsBlock(z)
    requires forall z: nat :: h.IsBlock(z) ==>
      g.mem[z].size == h.mem[z].size && (z in g.alloc ==> g.alloc[z] == if z in h.alloc then h.alloc[z] else h.mem[z].size)
    requires g.tag == h.tag
    ensures g.Blocks()
  {
    forall z: nat | g.IsBlock(z) ensures g.BlockAt(z) {
      assert h.BlockAt(z);
    }
    forall u: nat | u < |g.mem| ensures g.UnitAt(u) {
      assert h.UnitAt(u);
    }
  }

  /** A block that meets a free one below it starts after its end. */
  lemma NoOverlap(h: Heap, x: nat, y: nat)
    requires h.Ok() && h.IsBlock(x) && h.IsBlock(y) && x < y
    ensures x + h.mem[x].size <= y
  {
    assert h.BlockAt(x) && h.BlockAt(y);
    assert h.tag[y] == y;
  }

  // ----- free -----

  /** The allocated block b swallows the free block right above it. */
  ghost function Swallow(h: Heap, p: nat, q: nat, b: nat): Heap
    requires h.Shape() && p in h.free && q in h.free && b in h.alloc
  {
    var n := h.alloc[b] + h.mem[q].size;
    Heap(h.mem[b := Header(h.mem[q].ptr, n)][p := Header(h.mem[q].ptr, h.mem[p].size)],
         p, h.free - {q}, h.alloc[b := n], Retag(h.tag, q, q + h.mem[q].size, b))
  }

  lemma SwallowOk(h: Heap, p: nat, q: nat, b: nat)
    requires h.Ok() && Gap(h, p, b) && b in h.alloc && h.mem[p].ptr == q != BASE && b + h.alloc[b] == q && q in h.free
    ensures var g := Swallow(h, p, q, b); g.Ok() && Gap(g, p, b) && g.mem[p].ptr != b + g.alloc[b]
  {
    var g := Swallow(h, p, q, b);
    assert h.LinkAt(p) && h.LinkAt(q) && h.BlockAt(b) && h.BlockAt(q);
    Unlink(h, g, p, q);
    Merge(h, g, b, q);
  }

  /** The allocated block b joins the free list after p. */
  ghost function PutBack(h: Heap, p: nat, b: nat): Heap
    requires h.Shape() && p in h.free && b in h.alloc
  {
    Heap(h.mem[b := Header(h.mem[p].ptr, h.alloc[b])][p := Header(b, h.mem[p].size)], p, h.free + {b}, h.alloc - {b}, h.tag)
  }

  /** A free block below b in the gap after p ends at b or earlier, and only p itself can end at b. */
  lemma BelowGap(h: Heap, p: nat, b: nat, r: nat)
    requires h.Ok() && Gap(h, p, b) && b in h.alloc && r in h.free && r < b
    ensures r + h.mem[r].size <= b && (r != p ==> r + h.mem[r].size < p)
  {
    assert h.LinkAt(p);
    if p != BASE {
      NoOverlap(h, p, b);
    }
  }

  lemma AboveGap(h: Heap, p: nat, b: nat, s: nat)
    requires h.Ok() && Gap(h, p, b) && b in h.alloc && s in h.free && b < s
    ensures b + h.alloc[b] <= h.mem[p].ptr <= s
  {
    assert h.LinkAt(p);
    assert h.BlockAt(b);
    NoOverlap(h, b, h.mem[p].ptr);
  }

  lemma PutBackOk(h: Heap, p: nat, b: nat)
    requires h.Ok() && Gap(h, p, b) && b in h.alloc && b + h.alloc[b] != h.mem[p].ptr && p + h.mem[p].size != b
    ensures PutBack(h, p, b).Ok()
  {
    var g := PutBack(h, p, b);
    assert h.BlockAt(b);
    LinkIn(h, g, p, b);
    SameBlocks(h, g);
    assert h.LinkAt(p);
    forall r, s | r in g.free && s in g.free && r < s ensures r + g.mem[r].size < s {
      if s == b {
        BelowGap(h, p, b, r);
      } else if r == b {
        AboveGap(h, p, b, s);
      }
    }
  }

  /** The free block p takes over the allocated block b right above it. */
  ghost function JoinBelow(h: Heap, p: nat, b: nat): Heap
    requires h.Shape() && p in h.free && b in h.alloc
  {
    Heap(h.mem[b := Header(h.mem[p].ptr, h.alloc[b])][p := Header(h.mem[p].ptr, h.mem[p].size + h.alloc[b])],
         p, h.free, h.alloc - {b}, Retag(h.tag, b, b + h.alloc[b], p))
  }

  lemma JoinBelowOk(h: Heap, p: nat, b: nat)
    requires h.Ok() && Gap(h, p, b) && b in h.alloc && b + h.alloc[b] != h.mem[p].ptr && p + h.mem[p].size == b
    ensures JoinBelow(h, p, b).Ok()
  {
    var g := JoinBelow(h, p, b);
    assert h.BlockAt(b) && p != BASE;
    Merge(h, g, p, b);
    forall r | r in g.free ensures g.LinkAt(r) {
      assert h.LinkAt(r);
    }
    assert h.LinkAt(p);
    forall r, s | r in g.free && s in g.free && r < s ensures r + g.mem[r].size < s {
      if r == p {
        AboveGap(h, p, b, s);
      }
    }
  }

  // ----- malloc -----

  /** p leaves the free list whole. */
  ghost function TakeAll(h: Heap, prev: nat, p: nat): Heap
    requires h.Shape() && p in h.free && prev in h.free
  {
    Heap(h.mem[prev := Header(h.mem[p].ptr, h.mem[prev].size)], prev, h.free - {p}, h.alloc[p := h.mem[p].size], h.tag)
  }

  lemma TakeAllOk(h: Heap, prev: nat, p: nat)
    requires h.Ok() && p in h.free && prev in h.free && h.mem[prev].ptr == p && 1 <= h.mem[p].size
    ensures TakeAll(h, prev, p).Ok()
  {
    var g := TakeAll(h, prev, p);
    assert h.LinkAt(prev);
    Unlink(h, g, prev, p);
    SameBlocks(h, g);
  }

  /** p keeps its head and hands out its last n units. */
  ghost function TakeTail(h: Heap, prev: nat, p: nat, n: nat): Heap
    requires h.Shape() && p in h.free && 1 <= n < h.mem[p].size && p + h.mem[p].size <= |h.mem|
  {
    var m := h.mem[p].size - n;
    var q := p + m;
    var mem := h.mem[p := Header(h.mem[p].ptr, m)];
    Heap(mem[q := Header(mem[q].ptr, n)], prev, h.free, h.alloc[q := n], Retag(h.tag, q, q + n, q))
  }

  lemma TakeTailBlocks(h: Heap, prev: nat, p: nat, n: nat)
    requires h.Ok() && p in h.free && prev in h.free && 1 <= n < h.mem[p].size && p + h.mem[p].size <= |h.mem|
    ensures TakeTail(h, prev, p, n).Shape() && TakeTail(h, prev, p, n).Blocks()
  {
    var q := p + h.mem[p].size - n;
    assert h.BlockAt(p) && h.UnitAt(q);
    assert h.IsBlock(q) ==> h.BlockAt(q);
    Cut(h, TakeTail(h, prev, p, n), p, q, n);
  }

  lemma TakeTailOk(h: Heap, prev: nat, p: nat, n: nat)
    requires h.Ok() && p in h.free && prev in h.free && 1 <= n < h.mem[p].size && p + h.mem[p].size <= |h.mem|
    ensures TakeTail(h, prev, p, n).Ok()
  {
    var g := TakeTail(h, prev, p, n);
    TakeTailBlocks(h, prev, p, n);
    hide Heap.Blocks;
    forall r | r in g.free ensures g.LinkAt(r) {
      assert h.LinkAt(r);
    }
  }

  // ----- sbrk -----

  const FRESH := Header(0, 0)

  function GrownMem(mem: seq<Header>, skip: nat, nu: nat): (m: seq<Header>)
    requires 1 <= nu
    ensures |m| == |mem| + skip + nu && m[|mem| + skip].size == nu && forall u :: 0 <= u < |mem| ==> m[u] == mem[u]
  {
    (mem + seq(skip + nu, u => FRESH))[|mem| + skip := Header(FRESH.ptr, nu)]
  }

  function GrownTags(tag: seq<int>, skip: nat, nu: nat): (t: seq<int>)
    ensures |t| == |tag| + skip + nu
    ensures forall u :: 0 <= u < |t| ==>
      t[u] == if u < |tag| then tag[u] else if u < |tag| + skip then UNSET else |tag| + skip
  {
    tag + seq(skip, u => UNSET) + seq(nu, u => |tag| + skip)
  }

  /** Memory for nu units, `skip` units above the old end, becomes an allocated block. */
  ghost function Grown(h: Heap, skip: nat, nu: nat): Heap
    requires 1 <= nu
  {
    Heap(GrownMem(h.mem, skip, nu), h.freep, h.free, h.alloc[|h.mem| + skip := nu], GrownTags(h.tag, skip, nu))
  }

  lemma GrownBlocks(h: Heap, skip: nat, nu: nat)
    requires h.Ok() && 1 <= nu
    ensures Grown(h, skip, nu).Shape() && Grown(h, skip, nu).Blocks()
  {
    hide Heap.Ring, Heap.Apart;
    var g := Grown(h, skip, nu);
    forall z: nat | g.IsBlock(z) ensures g.BlockAt(z) {
      if z != |h.mem| + skip {
        assert h.BlockAt(z);
      }
    }
    forall u: nat | u < |g.mem| ensures g.UnitAt(u) {
      if u < |h.mem| {
        assert h.UnitAt(u);
      }
    }
  }

  lemma GrownOk(h: Heap, skip: nat, nu: nat)
    requires h.Ok() && 1 <= nu
    ensures Grown(h, skip, nu).Ok()
  {
    hide Heap.Blocks;
    GrownBlocks(h, skip, nu);
    var g := Grown(h, skip, nu);
    forall r | r in g.free ensures g.LinkAt(r) {
      assert h.LinkAt(r);
    }
  }

  /** Units below n that came from sbrk. */
  function Obtained(tag: seq<int>, n: nat): nat
    requires n <= |tag|
  {
    if n == 0 then 0 else Obtained(tag, n - 1) + if tag[n - 1] == UNSET then 0 else 1
  }

  lemma {:induction false} ObtainedGrows(tag: seq<int>, t: seq<int>, n: nat)
    requires n <= |tag| && n <= |t| && forall u :: 0 <= u < n ==> (tag[u] == UNSET <==> t[u] == UNSET)
    ensures Obtained(t, n) == Obtained(tag, n)
  {
    if n > 0 {
      ObtainedGrows(tag, t, n - 1);
    }
  }

  lemma {:induction false} ObtainedNew(tag: seq<int>, skip: nat, nu: nat, k: nat)
    requires k <= skip + nu
    ensures Obtained(GrownTags(tag, skip, nu), |tag| + k) == Obtained(tag, |tag|) + if k <= skip then 0 else k - skip
  {
    if k == 0 {
      ObtainedGrows(tag, GrownTags(tag, skip, nu), |tag|);
    } else {
      ObtainedNew(tag, skip, nu, k - 1);
    }
  }

  /** The program may store into unit u: it is in an allocated block, after its header, or never came
  from malloc. */
  ghost predicate OwnUnit(h: Heap, u: nat)
    requires h.Shape()
  {
    BASE < u < |h.mem| && u !in h.alloc && (h.tag[u] == UNSET || h.tag[u] in h.alloc)
  }

  lemma StoreOk(h: Heap, u: nat, x: Header)
    requires h.Ok() && OwnUnit(h, u)
    ensures u !in h.free && h.(mem := h.mem[u := x]).Ok()
  {
    var g := h.(mem := h.mem[u := x]);
    assert h.UnitAt(u);
    assert u in h.free ==> h.BlockAt(u);
    forall r | r in g.free ensures g.LinkAt(r) {
      assert h.LinkAt(r);
    }
    SameBlocks(h, g);
  }

  // ----- Conservation -----

  /** The total size of the free and of the allocated blocks whose header lies below n. */
  function FreeUnits(h: Heap, n: nat): nat
    requires n <= |h.mem|
  {
    if n == 0 then 0 else FreeUnits(h, n - 1) + if n - 1 in h.free then h.mem[n - 1].size else 0
  }

  function AllocatedUnits(h: Heap, n: nat): nat {
    if n == 0 then 0 else AllocatedUnits(h, n - 1) + if n - 1 in h.alloc then h.alloc[n - 1] else 0
  }

  /** Units of the block around n - 1 that lie at n or above. */
  ghost function Overhang(h: Heap, n: nat): int
    requires h.Ok() && n <= |h.mem|
  {
    if n == 0 || h.tag[n - 1] == UNSET then 0
    else
      assert h.UnitAt(n - 1);
      h.tag[n - 1] + h.mem[h.tag[n - 1]].size - n
  }

  lemma UnitStep(h: Heap, n: nat)
    requires h.Ok() && 1 <= n <= |h.mem|
    ensures
      var u := n - 1;
      (if u in h.free then h.mem[u].size else 0) + (if u in h.alloc then h.alloc[u] else 0) + Overhang(h, u)
        == Overhang(h, n) + if h.tag[u] == UNSET then 0 else 1
  {
    var u := n - 1;
    assert h.UnitAt(u);
    if u > 0 {
      assert h.UnitAt(u - 1);
      if h.tag[u - 1] != UNSET {
        assert h.BlockAt(h.tag[u - 1]);
      }
      if h.IsBlock(u) {
        assert h.BlockAt(u);
      } else if h.tag[u] != UNSET {
        assert h.BlockAt(h.tag[u]);
      }
    }
  }

  lemma {:induction false} UnitsBelow(h: Heap, n: nat)
    requires h.Ok() && n <= |h.mem|
    ensures FreeUnits(h, n) + AllocatedUnits(h, n) == Obtained(h.tag, n) + Overhang(h, n)
  {
    if n > 0 {
      UnitsBelow(h, n - 1);
      UnitStep(h, n);
    }
  }

  /** Free plus allocated units are the units obtained from sbrk. */
  lemma Conservation(h: Heap)
    requires h.Ok()
    ensures FreeUnits(h, |h.mem|) + AllocatedUnits(h, |h.mem|) == Obtained(h.tag, |h.mem|)
  {
    UnitsBelow(h, |h.mem|);
    var u := |h.mem| - 1;
    assert h.UnitAt(u);
    if h.tag[u] != UNSET {
      assert h.BlockAt(h.tag[u]);
    }
  }

  // ----- The allocator -----

  /** The number of units asked for; the byte count is rounded up in 32-bit arithmetic. */
  function Units(nbytes: nat): nat
    requires nbytes < TWO32
  {
    (nbytes + HEADER - 1) % TWO32 / HEADER + 1
  }

  /** morecore asks for no less than NCORE units. */
  function CoreUnits(n: nat): nat {
    if n < NCORE then NCORE else n
  }

  /** r lies strictly between `start` and p in ring order. */
  predicate Passed(start: int, p: int, r: int) {
    if start < p then start < r < p else r > start || r < p
  }

  /** p is the first free block after freep, in ring order, that holds n units, and prev points to it. */
  ghost predicate FirstFit(h: Heap, n: nat, prev: int, p: int)
    requires h.Shape()
  {
    && prev in h.free && p in h.free && h.mem[prev].ptr == p && n <= h.mem[p].size
    && forall r :: r in h.free && Passed(h.freep, p, r) ==> h.mem[r].size < n
  }

  ghost predicate NoFit(h: Heap, n: nat)
    requires h.Shape()
  {
    forall r :: r in h.free ==> h.mem[r].size < n
  }

  /** The units of every allocated block but b are as they were, and only gained memory is new. */
  ghost predicate Keeps(h: Heap, g: Heap, b: nat) {
    && |h.mem| == |h.tag| <= |g.tag| == |g.mem|
    && (forall u :: 0 <= u < |h.tag| ==> (g.tag[u] == UNSET <==> h.tag[u] == UNSET))
    && forall u :: 0 <= u < |h.mem| && h.tag[u] in h.alloc && h.tag[u] != b ==>
      g.mem[u] == h.mem[u] && g.tag[u] == h.tag[u]
  }

  /** Block b of h is free again in g: it is part of a free block that holds at least as much, and
  nothing else changed hands. */
  ghost predicate Released(h: Heap, g: Heap, b: nat) {
    && h.Shape() && g.Ok() && b in h.alloc && g.alloc == h.alloc - {b} && |g.mem| == |h.mem| && Keeps(h, g, b)
    && g.tag[b] in g.free && h.alloc[b] <= g.mem[g.tag[b]].size
  }

  lemma SwallowKeeps(h: Heap, p: nat, q: nat, b: nat)
    requires h.Ok() && Gap(h, p, b) && b in h.alloc && h.mem[p].ptr == q != BASE && b + h.alloc[b] == q && q in h.free
    ensures Keeps(h, Swallow(h, p, q, b), b)
  {
    assert h.BlockAt(b) && h.BlockAt(q) && h.UnitAt(p);
    assert p != BASE ==> h.BlockAt(p);
  }

  lemma PutBackReleased(h: Heap, p: nat, b: nat)
    requires h.Ok() && Gap(h, p, b) && b in h.alloc && b + h.alloc[b] != h.mem[p].ptr && p + h.mem[p].size != b
    ensures Released(h, PutBack(h, p, b), b)
  {
    PutBackOk(h, p, b);
    assert h.BlockAt(b);
    assert p != BASE ==> h.BlockAt(p);
  }

  lemma JoinBelowReleased(h: Heap, p: nat, b: nat)
    requires h.Ok() && Gap(h, p, b) && b in h.alloc && b + h.alloc[b] != h.mem[p].ptr && p + h.mem[p].size == b
    ensures Released(h, JoinBelow(h, p, b), b)
  {
    JoinBelowOk(h, p, b);
    assert h.BlockAt(b) && h.BlockAt(p);
  }

  /** b, with no free block right above it, joins the list after p. */
  ghost function Joined(h: Heap, p: nat, b: nat): Heap
    requires h.Shape() && p in h.free && b in h.alloc
  {
    if p + h.mem[p].size == b then JoinBelow(h, p, b) else PutBack(h, p, b)
  }

  lemma JoinedReleased(h: Heap, p: nat, b: nat)
    requires h.Ok() && Gap(h, p, b) && b in h.alloc && b + h.alloc[b] != h.mem[p].ptr
    ensures Released(h, Joined(h, p, b), b)
  {
    if p + h.mem[p].size == b {
      JoinBelowReleased(h, p, b);
    } else {
      PutBackReleased(h, p, b);
    }
  }

  /** What free does: b swallows a free block right above it and then joins the list. */
  ghost function Freed(h: Heap, p: nat, b: nat): Heap
    requires h.Ok() && Gap(h, p, b) && b in h.alloc
  {
    assert h.LinkAt(p);
    var q := h.mem[p].ptr;
    Joined(if b + h.alloc[b] == q then Swallow(h, p, q, b) else h, p, b)
  }

  /** b went back after p, header by header: with the block right above it, if there is a free one, and
  into p, if that ends where b begins; the next search starts at p. */
  ghost predicate PutAfter(h: Heap, g: Heap, p: nat, b: nat)
    requires h.Shape() && p in h.free && h.mem[p].ptr in h.free && b in h.alloc
  {
    var q := h.mem[p].ptr;
    var up, down := b + h.alloc[b] == q, p + h.mem[p].size == b;
    var next, size := if up then h.mem[q].ptr else q, h.alloc[b] + if up then h.mem[q].size else 0;
    && |g.mem| == |h.mem| && g.freep == p
    && g.free == (if up then h.free - {q} else h.free) + (if down then {} else {b})
    && (if down then g.mem[p] == Header(next, h.mem[p].size + size)
        else g.mem[p] == Header(b, h.mem[p].size) && g.mem[b] == Header(next, size))
    && forall r :: r in g.free && r != p && r != b ==> g.mem[r] == h.mem[r]
  }

  /** b went back where it belongs. */
  ghost predicate Rejoined(h: Heap, g: Heap, b: nat)
    requires h.Ok() && b in h.alloc
  {
    exists p: nat :: Gap(h, p, b) && h.mem[p].ptr in h.free && PutAfter(h, g, p, b)
  }

  lemma FreedRejoins(h: Heap, p: nat, b: nat)
    requires h.Ok() && Gap(h, p, b) && b in h.alloc
    ensures Rejoined(h, Freed(h, p, b), b)
  {
    hide Heap.Apart;
    assert h.LinkAt(p) && h.BlockAt(b);
    var q := h.mem[p].ptr;
    if b + h.alloc[b] == q {
      assert h.LinkAt(q) && h.BlockAt(q);
    }
    assert PutAfter(h, Freed(h, p, b), p, b);
  }

  lemma ReleasedAfter(h: Heap, g: Heap, e: Heap, b: nat)
    requires h.Shape() && Keeps(h, g, b) && |g.mem| == |h.mem| && Released(g, e, b)
    requires b in h.alloc && h.alloc - {b} == g.alloc - {b} && h.alloc[b] <= g.alloc[b]
    ensures Released(h, e, b)
  {
    forall u | 0 <= u < |h.mem| && h.tag[u] in h.alloc && h.tag[u] != b
      ensures e.mem[u] == h.mem[u] && e.tag[u] == h.tag[u]
    {
      assert h.tag[u] in h.alloc - {b};
    }
  }

  lemma SwallowReleased(h: Heap, p: nat, q: nat, b: nat, e: Heap)
    requires h.Ok() && Gap(h, p, b) && b in h.alloc && h.mem[p].ptr == q != BASE && b + h.alloc[b] == q && q in h.free
    requires Released(Swallow(h, p, q, b), e, b)
    ensures Released(h, e, b)
  {
    hide Keeps;
    SwallowKeeps(h, p, q, b);
    ReleasedAfter(h, Swallow(h, p, q, b), e, b);
  }

  lemma FreedReleased(h: Heap, p: nat, b: nat)
    requires h.Ok() && Gap(h, p, b) && b in h.alloc
    ensures Released(h, Freed(h, p, b), b)
  {
    hide Released, Joined, Heap.Apart;
    assert h.LinkAt(p);
    var q := h.mem[p].ptr;
    if b + h.alloc[b] == q {
      SwallowOk(h, p, q, b);
      var g := Swallow(h, p, q, b);
      JoinedReleased(g, p, b);
      SwallowReleased(h, p, q, b, Joined(g, p, b));
    } else {
      JoinedReleased(h, p, b);
    }
  }

  /** What malloc does with the block p it found. */
  ghost function Taken(h: Heap, n: nat, prev: nat, p: nat): Heap
    requires h.Ok() && 1 <= n && FirstFit(h, n, prev, p)
  {
    assert h.BlockAt(p);
    if h.mem[p].size == n then TakeAll(h, prev, p) else TakeTail(h, prev, p, n)
  }

  ghost function TakenAt(h: Heap, n: nat, p: nat): nat
    requires h.Shape() && p in h.free && n <= h.mem[p].size
  {
    p + h.mem[p].size - n
  }

  /** Block a of n units is new in g. */
  ghost predicate Handed(h: Heap, g: Heap, n: nat, a: nat) {
    h.Shape() && g.Ok() && a !in h.alloc && g.alloc == h.alloc[a := n] && Keeps(h, g, a)
  }

  lemma TakenOk(h: Heap, n: nat, prev: nat, p: nat)
    requires h.Ok() && 1 <= n && FirstFit(h, n, prev, p)
    ensures Handed(h, Taken(h, n, prev, p), n, TakenAt(h, n, p)) && |Taken(h, n, prev, p).mem| == |h.mem|
  {
    assert h.BlockAt(p);
    if h.mem[p].size == n {
      TakeAllOk(h, prev, p);
      assert prev != BASE ==> h.BlockAt(prev);
    } else {
      TakeTailOk(h, prev, p, n);
      var q := TakenAt(h, n, p);
      assert h.UnitAt(q) && (h.IsBlock(q) ==> h.BlockAt(q));
    }
  }

  /** g has nu more units than h, all free, and now some free block holds nu units. */
  ghost predicate GrewBy(h: Heap, g: Heap, nu: nat) {
    && h.Shape() && g.Ok() && g.alloc == h.alloc && Keeps(h, g, BASE)
    && Obtained(g.tag, |g.tag|) == Obtained(h.tag, |h.tag|) + nu
    && exists r :: r in g.free && nu <= g.mem[r].size
  }

  lemma GrewReleased(h: Heap, skip: nat, nu: nat, g: Heap)
    requires h.Ok() && 1 <= nu && Released(Grown(h, skip, nu), g, |h.mem| + skip)
    ensures GrewBy(h, g, nu)
  {
    var e := Grown(h, skip, nu);
    ObtainedNew(h.tag, skip, nu, skip + nu);
    ObtainedGrows(e.tag, g.tag, |g.tag|);
    assert g.tag[|h.mem| + skip] in g.free;
  }

  lemma StartOk(h: Heap, g: Heap)
    requires h.Unused() && g == h.(mem := h.mem[BASE := Header(BASE, 0)], freep := BASE, free := {BASE})
    ensures g.Ok()
  {
    assert g.LinkAt(BASE);
    forall u: nat | u < |g.mem| ensures g.UnitAt(u) {
    }
  }

  /** The heap as the first call of malloc sets it up. */
  ghost function Ready(h: Heap): Heap
    requires h.Shape()
  {
    if h.freep == UNSET then h.(mem := h.mem[BASE := Header(BASE, 0)], freep := BASE, free := {BASE}) else h
  }

  /** The last n units of p became the block at a, header by header: p leaves the list if that is all of
  it; the next search starts at the block before p. */
  ghost predicate TookEnd(h: Heap, g: Heap, n: nat, prev: nat, p: nat, a: nat)
    requires h.Shape() && prev in h.free && p in h.free && n <= h.mem[p].size
  {
    && |g.mem| == |h.mem| && a == p + h.mem[p].size - n < |g.mem| && g.mem[a].size == n && g.freep == prev
    && (if h.mem[p].size == n then g.free == h.free - {p} && g.mem[prev] == Header(h.mem[p].ptr, h.mem[prev].size)
        else g.free == h.free && g.mem[p] == Header(h.mem[p].ptr, h.mem[p].size - n))
    && forall r :: r in g.free && r != p && (h.mem[p].size == n ==> r != prev) ==> g.mem[r] == h.mem[r]
  }

  ghost predicate NextFit(h: Heap, g: Heap, n: nat, a: nat)
    requires h.Ok() && 1 <= n
  {
    a > 0 && exists prev: nat, p: nat :: FirstFit(h, n, prev, p) && TookEnd(h, g, n, prev, p, a - 1)
  }

  lemma TakenTookEnd(h: Heap, n: nat, prev: nat, p: nat)
    requires h.Ok() && 1 <= n && FirstFit(h, n, prev, p)
    ensures NextFit(h, Taken(h, n, prev, p), n, TakenAt(h, n, p) + 1)
  {
    hide Heap.Apart;
    var g, a := Taken(h, n, prev, p), TakenAt(h, n, p);
    assert h.BlockAt(p) && h.UnitAt(a);
    assert h.IsBlock(a) ==> h.BlockAt(a);
    assert TookEnd(h, g, n, prev, p, a);
  }

  /** What one call of malloc for n units may do to the heap h: nothing, if no free block is large
  enough and sbrk refuses; next-fit, if one is; otherwise memory is added first. */
  ghost predicate Allocated(h: Heap, g: Heap, n: nat, sb: Sbrk, ap: Option<nat>)
    requires h.Ok() && g.Ok() && 1 <= n
  {
    match ap
    case None => NoFit(h, n) && sb.Refuse? && g == h
    case Some(a) =>
      && a > 0 && Handed(h, g, n, a - 1)
      && if NoFit(h, n) then
           && sb.Grant? && Obtained(g.tag, |g.tag|) == Obtained(h.tag, |h.tag|) + CoreUnits(n)
           && exists e: Heap :: GrewBy(h, e, CoreUnits(n)) && NextFit(e, g, n, a)
         else
           NextFit(h, g, n, a)
  }

  lemma HandedAfterGrowth(h: Heap, g: Heap, e: Heap, n: nat, nu: nat, a: nat)
    requires h.Ok() && GrewBy(h, g, nu) && Handed(g, e, n, a) && |e.mem| == |g.mem|
    ensures Handed(h, e, n, a) && Obtained(e.tag, |e.tag|) == Obtained(h.tag, |h.tag|) + nu
  {
    ObtainedGrows(g.tag, e.tag, |g.tag|);
  }

  // ----- What the calls do, as the functions above put together -----

  /** free(b) turns h into g. */
  ghost predicate FreedTo(h: Heap, g: Heap, b: nat)
    requires h.Ok()
  {
    b in h.alloc && exists p: nat :: Gap(h, p, b) && g == Freed(h, p, b)
  }

  /** malloc takes n units from the first fit. */
  ghost predicate TookFrom(h: Heap, g: Heap, n: nat)
    requires h.Ok() && 1 <= n
  {
    exists prev: nat, p: nat :: FirstFit(h, n, prev, p) && g == Taken(h, n, prev, p)
  }

  /** morecore adds nu units of new memory to the free list. */
  ghost predicate Refilled(h: Heap, g: Heap, skip: nat, nu: nat)
    requires h.Ok() && 1 <= nu
  {
    GrownOk(h, skip, nu);
    FreedTo(Grown(h, skip, nu), g, |h.mem| + skip)
  }

  lemma FreedToReleased(h: Heap, g: Heap, b: nat)
    requires h.Ok() && FreedTo(h, g, b)
    ensures Released(h, g, b)
  {
    var p: nat :| Gap(h, p, b) && g == Freed(h, p, b);
    FreedReleased(h, p, b);
  }

  lemma RefilledGrew(h: Heap, g: Heap, skip: nat, nu: nat)
    requires h.Ok() && 1 <= nu && Refilled(h, g, skip, nu)
    ensures GrewBy(h, g, nu)
  {
    GrownOk(h, skip, nu);
    FreedToReleased(Grown(h, skip, nu), g, |h.mem| + skip);
    GrewReleased(h, skip, nu, g);
  }

  ghost predicate RefilledTook(h: Heap, e: Heap, g: Heap, skip: nat, n: nat)
    requires h.Ok() && 1 <= n
  {
    Refilled(h, e, skip, CoreUnits(n)) && (RefilledGrew(h, e, skip, CoreUnits(n)); TookFrom(e, g, n))
  }

  /** malloc for n units turns h into g. */
  ghost predicate MallocedTo(h: Heap, g: Heap, n: nat, sb: Sbrk)
    requires h.Ok() && 1 <= n
  {
    if !NoFit(h, n) then TookFrom(h, g, n)
    else
      match sb
      case Refuse => g == h
      case Grant(skip) => exists e: Heap :: RefilledTook(h, e, g, skip, n)
  }

  lemma TakenAllocated(h: Heap, n: nat, prev: nat, p: nat, sb: Sbrk)
    requires h.Ok() && 1 <= n && FirstFit(h, n, prev, p)
    ensures var g := Taken(h, n, prev, p);
      g.Ok() && Allocated(h, g, n, sb, Some(TakenAt(h, n, p) + 1)) && MallocedTo(h, g, n, sb)
  {
    hide Heap.Ring, Heap.Apart, Heap.Blocks, Taken, Keeps, NextFit;
    TakenOk(h, n, prev, p);
    assert TookFrom(h, Taken(h, n, prev, p), n);
    TakenTookEnd(h, n, prev, p);
  }

  lemma GrownAllocated(h: Heap, e: Heap, g: Heap, n: nat, sb: Sbrk, a: nat)
    requires h.Ok() && e.Ok() && g.Ok() && 1 <= n && NoFit(h, n) && sb.Grant? && a > 0 && Handed(h, g, n, a - 1)
    requires Obtained(g.tag, |g.tag|) == Obtained(h.tag, |h.tag|) + CoreUnits(n)
    requires Refilled(h, e, sb.skip, CoreUnits(n)) && TookFrom(e, g, n) && NextFit(e, g, n, a)
    ensures Allocated(h, g, n, sb, Some(a)) && MallocedTo(h, g, n, sb)
  {
    hide Heap.Ring, Heap.Apart, Heap.Blocks, Refilled, TookFrom, NoFit, NextFit, GrewBy;
    RefilledGrew(h, e, sb.skip, CoreUnits(n));
    assert RefilledTook(h, e, g, sb.skip, n);
  }

  /** The byte count morecore passes to sbrk, as a signed 32-bit value. */
  function SbrkArgument(n: nat): int {
    var b := CoreUnits(n) * HEADER % TWO32;
    if b < TWO32 / 2 then b else b - TWO32
  }

  /** sbrk is asked for what morecore then uses. */
  predicate Carried(n: nat) {
    SbrkArgument(n) == HEADER * CoreUnits(n)
  }

  class Allocator {
    var mem: seq<Header>
    var freep: int
    ghost var free: set<nat>
    ghost var alloc: map<nat, nat>
    ghost var tag: seq<int>

    ghost function H(): Heap
      reads this
    {
      Heap(mem, freep, free, alloc, tag)
    }

    ghost predicate Valid()
      reads this
    {
      if freep == UNSET then H().Unused() else H().Ok()
    }

    constructor ()
      ensures Valid() && freep == UNSET && alloc == map[]
    {
      mem, freep, free, alloc, tag := [FRESH], UNSET, {}, map[], [UNSET];
    }

    /** The search loop of free: the free block p after which b belongs. */
    method FindGap(b: nat) returns (p: nat)
      requires H().Ok() && b in alloc
      ensures Gap(H(), p, b)
    {
      p := freep;
      ghost var wrapped := false;
      while !(b > p && b < mem[p].ptr)
        invariant p in free
        invariant if wrapped then p < b < freep else freep <= p && (b < freep || p < b)
        decreases !wrapped, |mem| - p
      {
        assert H().LinkAt(p);
        if p >= mem[p].ptr && (b > p || b < mem[p].ptr) {
          break;
        }
        wrapped := wrapped || mem[p].ptr == BASE;
        p := mem[p].ptr;
      }
      assert H().LinkAt(p);
    }

    /** free, given the block b it is to put back and the place p found for it. */
    method Release(p: nat, b: nat)
      requires H().Ok() && Gap(H(), p, b) && b in alloc
      modifies this
      ensures H() == Freed(old(H()), p, b)
    {
      ghost var h := H();
      ghost var g := Freed(h, p, b);
      var q := mem[p].ptr;
      assert h.LinkAt(p) && h.BlockAt(b);
      if b + mem[b].size == q {
        mem := mem[b := Header(mem[q].ptr, mem[b].size + mem[q].size)];
      } else {
        mem := mem[b := Header(q, mem[b].size)];
      }
      if p + mem[p].size == b {
        mem := mem[p := Header(mem[b].ptr, mem[p].size + mem[b].size)];
      } else {
        mem := mem[p := Header(b, mem[p].size)];
      }
      freep := p;
      free, alloc, tag := g.free, g.alloc, g.tag;
      assert mem == g.mem;
    }

    /** free: b's memory, given as the address after its header, goes back to the free list. */
    method Free(ap: nat)
      requires H().Ok() && ap > 0 && ap - 1 in alloc
      modifies this
      ensures Released(old(H()), H(), ap - 1) && FreedTo(old(H()), H(), ap - 1)
      ensures Rejoined(old(H()), H(), ap - 1)
    {
      hide PutAfter, Heap.Ring, Heap.Apart, Heap.Blocks;
      var b := ap - 1;
      var p := FindGap(b);
      FreedRejoins(H(), p, b);
      FreedReleased(H(), p, b);
      Release(p, b);
    }

    /** The search loop of malloc: one turn around the ring from freep. */
    method Search(n: nat) returns (found: bool, prev: nat, p: nat)
      requires H().Ok() && 1 <= n
      ensures if found then FirstFit(H(), n, prev, p) else NoFit(H(), n)
    {
      prev := freep;
      assert H().LinkAt(prev);
      p := mem[prev].ptr;
      ghost var wrapped := p <= freep;
      while true
        invariant prev in free && p in free && mem[prev].ptr == p && (wrapped <==> p <= freep)
        invariant forall r :: r in free && Passed(freep, p, r) ==> mem[r].size < n
        decreases !wrapped, |mem| - p
      {
        assert H().LinkAt(p);
        if mem[p].size >= n {
          return true, prev, p;
        }
        if p == freep {
          return false, prev, p;
        }
        prev := p;
        p := mem[p].ptr;
        wrapped := wrapped || p == BASE;
      }
    }

    /** The taking half of malloc. */
    method Take(n: nat, prev: nat, p: nat) returns (ap: nat)
      requires H().Ok() && 1 <= n && FirstFit(H(), n, prev, p)
      modifies this
      ensures H() == Taken(old(H()), n, prev, p) && ap == TakenAt(old(H()), n, p) + 1
    {
      ghost var h := H();
      ghost var g := Taken(h, n, prev, p);
      assert h.BlockAt(p);
      var q := p;
      if mem[p].size == n {
        mem := mem[prev := Header(mem[p].ptr, mem[prev].size)];
      } else {
        mem := mem[p := Header(mem[p].ptr, mem[p].size - n)];
        q := p + mem[p].size;
        mem := mem[q := Header(mem[q].ptr, n)];
      }
      freep := prev;
      ap := q + 1;
      free, alloc, tag := g.free, g.alloc, g.tag;
      assert mem == g.mem;
    }

    /** morecore: at least NCORE units from sbrk are put on the free list. */
    method MoreCore(n: nat, sb: Sbrk) returns (ok: bool)
      requires H().Ok()
      modifies this
      ensures H().Ok()
      ensures ok == sb.Grant? && if ok then GrewBy(old(H()), H(), CoreUnits(n)) else H() == old(H())
      ensures ok ==> Refilled(old(H()), H(), sb.skip, CoreUnits(n))
      ensures ok ==> Obtained(tag, |tag|) == old(Obtained(tag, |tag|)) + if n < 4096 then 4096 else n
    {
      hide Heap.Ring, Heap.Apart, Heap.Blocks, Keeps, Rejoined;
      match sb
      case Refuse =>
        ok := false;
      case Grant(skip) =>
        var nu := CoreUnits(n);
        ghost var h := H();
        ghost var g := Grown(h, skip, nu);
        var hp := |mem| + skip;
        mem := GrownMem(mem, skip, nu);
        alloc, tag := g.alloc, g.tag;
        GrownOk(h, skip, nu);
        assert H() == g;
        Free(hp + 1);
        GrewReleased(h, skip, nu, H());
        ok := true;
    }

    /** malloc for n units once the list exists. */
    method Allocate(n: nat, sb: Sbrk) returns (ap: Option<nat>)
      requires H().Ok() && 1 <= n
      modifies this
      ensures H().Ok() && Allocated(old(H()), H(), n, sb, ap) && MallocedTo(old(H()), H(), n, sb)
    {
      hide Refilled, TookFrom, RefilledTook, NextFit, GrewBy, Taken, Keeps, Heap.Ring, Heap.Apart, Heap.Blocks, Obtained;
      ghost var h := H();
      var found, prev, p := Search(n);
      if found {
        TakenAllocated(h, n, prev, p, sb);
        var a := Take(n, prev, p);
        return Some(a);
      }
      var ok := MoreCore(n, sb);
      if !ok {
        return None;
      }
      ghost var e := H();
      var a := AllocateNew(n, h);
      GrownAllocated(h, e, H(), n, sb, a);
      return Some(a);
    }

    /** The rest of malloc after morecore: the search now succeeds. */
    method AllocateNew(n: nat, ghost h: Heap) returns (a: nat)
      requires h.Ok() && 1 <= n && GrewBy(h, H(), CoreUnits(n))
      modifies this
      ensures H().Ok() && a > 0 && Handed(h, H(), n, a - 1)
      ensures Obtained(H().tag, |H().tag|) == Obtained(h.tag, |h.tag|) + CoreUnits(n)
      ensures TookFrom(old(H()), H(), n) && NextFit(old(H()), H(), n, a)
    {
      hide NextFit, Heap.Ring, Heap.Apart, Heap.Blocks, Keeps;
      ghost var g := H();
      var found, prev, p := Search(n);
      assert found;
      TakenOk(g, n, prev, p);
      TakenTookEnd(g, n, prev, p);
      a := Take(n, prev, p);
      HandedAfterGrowth(h, g, H(), n, CoreUnits(n), a - 1);
    }

    /** malloc.  It overruns if sbrk, asked for another number of bytes than morecore goes on to use,
    does not refuse; what happens from there on is not modelled. */
    method Malloc(nbytes: nat, sb: Sbrk) returns (ap: Option<nat>, overruns: bool)
      requires Valid() && nbytes < TWO32
      modifies this
      ensures Ready(old(H())).Ok() && H().Ok()
      ensures overruns <==> NoFit(Ready(old(H())), Units(nbytes)) && sb.Grant? && !Carried(Units(nbytes))
      ensures !overruns ==> Allocated(Ready(old(H())), H(), Units(nbytes), sb, ap)
      ensures !overruns ==> MallocedTo(Ready(old(H())), H(), Units(nbytes), sb)
      ensures overruns ==> H() == Ready(old(H()))
    {
      var n := Units(nbytes);
      if freep == UNSET {
        mem := mem[BASE := Header(BASE, 0)];
        freep := BASE;
        free := {BASE};
        StartOk(old(H()), H());
      }
      ap := Allocate(n, if Carried(n) then sb else Refuse);
      overruns := ap.None? && sb.Grant?;
    }

    /** The program stores into memory it owns: a unit of an allocated block after its header, or one
    that never came from malloc. */
    method Store(u: nat, x: Header)
      requires H().Ok() && OwnUnit(H(), u)
      modifies `mem
      ensures H().Ok() && mem == old(mem)[u := x]
    {
      StoreOk(H(), u, x);
      mem := mem[u := x];
    }
  }

  /** The block handed out holds the bytes asked for exactly when rounding up does not wrap. */
  lemma EnoughBytes(nbytes: nat)
    requires nbytes < TWO32
    ensures nbytes <= 8 * (Units(nbytes) - 1) <==> nbytes + 7 < 0x1_0000_0000
    ensures 8 * (Units(nbytes) - 1) < nbytes + 8
  {
  }

  /** sbrk is asked for the units morecore then uses iff the request is under 2 GB. */
  lemma SbrkCarries(nbytes: nat)
    requires nbytes < TWO32
    ensures SbrkArgument(Units(nbytes)) == 8 * CoreUnits(Units(nbytes)) <==> Carried(Units(nbytes))
    ensures Carried(Units(nbytes)) <==> 8 * Units(nbytes) < 0x8000_0000
  {
  }

  /** A request that rounding up turns into one of a single unit, and one that sbrk gets as a negative
  number. */
  lemma OversizeRequests()
    ensures Units(0xFFFF_FFFF) == 1 && HEADER * (Units(0xFFFF_FFFF) - 1) == 0
    ensures !Carried(Units(0x8000_0000)) && SbrkArgument(Units(0x8000_0000)) < 0
  {
  }

  // ----- Runs -----

  /** What a program may do between two moments: allocate, free a block, store into memory it owns. */
  datatype Call = MallocCall(n: nat, sb: Sbrk) | FreeCall(b: nat) | StoreCall(u: nat, x: Header)

  ghost predicate Performed(h: Heap, g: Heap, c: Call)
    requires h.Ok()
  {
    match c
    case MallocCall(n, sb) => 1 <= n && MallocedTo(h, g, n, sb)
    case FreeCall(b) => FreedTo(h, g, b)
    case StoreCall(u, x) => OwnUnit(h, u) && g == h.(mem := h.mem[u := x])
  }

  /** The units sbrk supplied during the call. */
  ghost function Supplied(h: Heap, c: Call): nat
    requires h.Shape()
  {
    if c.MallocCall? && c.sb.Grant? && NoFit(h, c.n) then CoreUnits(c.n) else 0
  }

  /** Memory that is in use before and after a call: block b is allocated, and unit u of it is neither
  stored into nor given back. */
  ghost predicate Untouched(h: Heap, c: Call, u: nat)
    requires h.Shape()
  {
    u < |h.mem| && h.tag[u] in h.alloc && c != FreeCall(h.tag[u]) && !(c.StoreCall? && c.u == u)
  }

  /** What each call does, whatever its arguments. */
  ghost predicate Behaved(h: Heap, g: Heap, c: Call)
    requires h.Shape()
  {
    && g.Ok() && Obtained(g.tag, |g.tag|) == Obtained(h.tag, |h.tag|) + Supplied(h, c)
    && forall u: nat :: Untouched(h, c, u) ==>
      u < |g.mem| && g.mem[u] == h.mem[u] && g.tag[u] == h.tag[u] && g.tag[u] in g.alloc
  }

  lemma TookBehaves(h: Heap, g: Heap, n: nat) returns (a: nat)
    requires h.Ok() && 1 <= n && TookFrom(h, g, n)
    ensures Handed(h, g, n, a) && |g.mem| == |h.mem| && Obtained(g.tag, |g.tag|) == Obtained(h.tag, |h.tag|)
  {
    var prev: nat, p: nat :| FirstFit(h, n, prev, p) && g == Taken(h, n, prev, p);
    TakenOk(h, n, prev, p);
    ObtainedGrows(h.tag, g.tag, |g.tag|);
    a := TakenAt(h, n, p);
  }

  lemma HandedBehaves(h: Heap, g: Heap, n: nat, sb: Sbrk, a: nat)
    requires h.Ok() && Handed(h, g, n, a)
    requires Obtained(g.tag, |g.tag|) == Obtained(h.tag, |h.tag|) + Supplied(h, MallocCall(n, sb))
    ensures Behaved(h, g, MallocCall(n, sb))
  {
    hide Heap.Ok, Obtained, Supplied;
  }

  lemma MallocBehaves(h: Heap, g: Heap, n: nat, sb: Sbrk)
    requires h.Ok() && 1 <= n && MallocedTo(h, g, n, sb)
    ensures Behaved(h, g, MallocCall(n, sb))
  {
    hide Heap.Ring, Heap.Apart, Heap.Blocks, Obtained, Refilled, TookFrom, Handed, GrewBy, NoFit;
    if !NoFit(h, n) {
      var a := TookBehaves(h, g, n);
      HandedBehaves(h, g, n, sb, a);
    } else if sb.Grant? {
      var e: Heap :| RefilledTook(h, e, g, sb.skip, n);
      RefilledGrew(h, e, sb.skip, CoreUnits(n));
      var a := TookBehaves(e, g, n);
      HandedAfterGrowth(h, e, g, n, CoreUnits(n), a);
      HandedBehaves(h, g, n, sb, a);
    }
  }

  lemma CallBehaves(h: Heap, g: Heap, c: Call)
    requires h.Ok() && Performed(h, g, c)
    ensures Behaved(h, g, c)
  {
    match c
    case FreeCall(b) =>
      FreedToReleased(h, g, b);
      ObtainedGrows(h.tag, g.tag, |g.tag|);
    case StoreCall(u, x) =>
      StoreOk(h, u, x);
    case MallocCall(n, sb) =>
      MallocBehaves(h, g, n, sb);
  }

  /** hs are the heaps after each call of cs, from h on. */
  ghost predicate IsRun(h: Heap, cs: seq<Call>, hs: seq<Heap>)
    requires h.Ok()
    decreases |cs|
  {
    if cs == [] then hs == []
    else hs != [] && Performed(h, hs[0], cs[0]) && (CallBehaves(h, hs[0], cs[0]); IsRun(hs[0], cs[1..], hs[1..]))
  }

  ghost function Last(h: Heap, hs: seq<Heap>): Heap {
    if hs == [] then h else hs[|hs| - 1]
  }

  ghost function AllSupplied(h: Heap, cs: seq<Call>, hs: seq<Heap>): nat
    requires h.Ok() && IsRun(h, cs, hs)
    decreases |cs|
  {
    if cs == [] then 0
    else
      CallBehaves(h, hs[0], cs[0]);
      Supplied(h, cs[0]) + AllSupplied(hs[0], cs[1..], hs[1..])
  }

  lemma {:induction false} RunObtains(h: Heap, cs: seq<Call>, hs: seq<Heap>)
    requires h.Ok() && IsRun(h, cs, hs)
    ensures var g := Last(h, hs);
      g.Ok() && Obtained(g.tag, |g.tag|) == Obtained(h.tag, |h.tag|) + AllSupplied(h, cs, hs)
    decreases |cs|
  {
    if cs != [] {
      CallBehaves(h, hs[0], cs[0]);
      RunObtains(hs[0], cs[1..], hs[1..]);
      assert Last(hs[0], hs[1..]) == Last(h, hs);
    }
  }

  lemma {:induction false} NoneObtained(tag: seq<int>, n: nat)
    requires n <= |tag| && forall u :: 0 <= u < n ==> tag[u] == UNSET
    ensures Obtained(tag, n) == 0
  {
    if n > 0 {
      NoneObtained(tag, n - 1);
    }
  }

  /** The heap as the first malloc finds it is such a heap. */
  lemma FreshHeap(h: Heap)
    requires h.Unused()
    ensures Ready(h).Ok() && Obtained(Ready(h).tag, |Ready(h).tag|) == 0
  {
    StartOk(h, Ready(h));
    NoneObtained(h.tag, |h.tag|);
  }

  /** After any run of malloc, free and stores of the program, from a heap without memory, the list is
  one ring of blocks that do not touch, no blocks overlap, and the free and the allocated units
  together are all that sbrk supplied. */
  lemma RunConserves(h: Heap, cs: seq<Call>, hs: seq<Heap>)
    requires h.Ok() && Obtained(h.tag, |h.tag|) == 0 && IsRun(h, cs, hs)
    ensures var g := Last(h, hs);
      g.Ok() && FreeUnits(g, |g.mem|) + AllocatedUnits(g, |g.mem|) == AllSupplied(h, cs, hs)
  {
    RunObtains(h, cs, hs);
    Conservation(Last(h, hs));
  }

  /** The program frees block b or stores into unit u somewhere in the run. */
  predicate Touches(cs: seq<Call>, b: int, u: nat) {
    exists k :: 0 <= k < |cs| && ((cs[k].FreeCall? && cs[k].b == b) || (cs[k].StoreCall? && cs[k].u == u))
  }

  /** A block's memory is the program's until it frees the block: whatever else is allocated, freed and
  stored, a unit keeps the value last stored there. */
  lemma {:induction false} MemoryIsKept(h: Heap, cs: seq<Call>, hs: seq<Heap>, u: nat)
    requires h.Ok() && IsRun(h, cs, hs) && u < |h.mem| && h.tag[u] in h.alloc && !Touches(cs, h.tag[u], u)
    ensures var g := Last(h, hs); u < |g.mem| == |g.tag| && g.mem[u] == h.mem[u] && g.tag[u] == h.tag[u]
    ensures h.tag[u] in Last(h, hs).alloc
    decreases |cs|
  {
    if cs != [] {
      CallBehaves(h, hs[0], cs[0]);
      assert Untouched(h, cs[0], u);
      assert !Touches(cs[1..], h.tag[u], u) by {
        assert forall k :: 0 <= k < |cs| - 1 ==> cs[1..][k] == cs[k + 1];
      }
      MemoryIsKept(hs[0], cs[1..], hs[1..], u);
      assert Last(hs[0], hs[1..]) == Last(h, hs);
    }
  }
}
