/** The frame allocator and the address spaces built on it, as the kernel changes them in place. */
module VirtualMemory {
  import opened Common
  import opened KernelMap
  import opened PageTables

  const PGSIZE := 4096
  const KERNBASE := 0x8000_0000

  /** Read and write for user and kernel, executable. */
  const RWRWX := 0x38

  /** How a turn of the loop of allocuvm went: page entered, no frame for it, or a frame but none for its table. */
  datatype Turn = Mapped | NoFrame | Lost

  function Pages(size: nat): nat {
    (size + PGSIZE - 1) / PGSIZE
  }

  /** The outcome of one turn of the loop of allocuvm. */
  ghost predicate AllocStep(m: Mem, g: Mem, d: nat, i: nat, j: nat, e: Turn, lost: nat) {
    && m.IsDir(d) && i < NUSER && j < NENTRIES
    && match e
       case NoFrame => m.free == [] && g == m
       case Mapped =>
         m.free != [] && (HasTable(m, d, i) || |m.free| > 1) && Added(m, g, d, i, j, Zero, RWRWX) && TablesNow(m, g, d, i)
       case Lost => |m.free| == 1 && !HasTable(m, d, i) && TookFrame(m, g, lost, Zero)
  }

  // ----- setupkvm when frames run out -----

  /** mappages stopped for want of a frame: what it had entered stays. */
  ghost predicate Abandoned(m: Mem, g: Mem, d: nat) {
    g.free == [] && exists ps :: KernelMap.Entered(m, g, d, ps)
  }

  /** Every free frame has gone into the new directory d, which nobody frees; the rest is as it was. */
  ghost predicate Wasted(m: Mem, g: Mem, d: nat) {
    && g.Ok() && g.free == [] && d !in m.own && g.IsDir(d) && Kept(m, g) && SameMaps(m, g)
    && forall f :: f in g.own && f !in m.own ==> f == d || Belongs(g.own[f], d)
  }

  lemma WastedIs(m: Mem, n: Mem, g: Mem, d: nat)
    requires BareDir(m, n, d) && Abandoned(n, g, d)
    ensures Wasted(m, g, d)
  {
    hide Mem.Ok;
    var ps :| KernelMap.Entered(n, g, d, ps);
    FreshIs(m, n, g, d, ps);
  }

  function Ahead(m: Mem, d: nat, v: nat, end: nat): Forecast
    requires m.IsDir(d)
  {
    Forecasted(TableSet(m, d), v, end, |m.free|)
  }

  lemma FirstPageFits(m: Mem, d: nat)
    requires m.IsDir(d) && |m.free| > 1 && forall k :: k in TableSet(m, d) ==> NUSER <= k
    ensures Pages(0) == 0 && Pages(PGSIZE) == 1 && Ahead(m, d, 0, 1) == Room && |Missing(TableSet(m, d), 0, 1)| == 1
  {
    assert Missing(TableSet(m, d), 0, 1) == {0};
    assert Forecasted(TableSet(m, d) + {0}, 1, 1, |m.free| - 2) == Room;
  }

  /** What copyuvm will meet once setupkvm has taken its frames, es being the kernel's directory entries. */
  function CopyAhead(m: Mem, es: set<nat>, n: nat): Forecast
    requires |m.free| > |es|
  {
    Forecasted(es, 0, n, |m.free| - 1 - |es|)
  }

  lemma CopyTears(m: Mem, es: set<nat>)
    requires |es| == 40 && |m.free| == 42 && forall k :: k in es ==> NUSER <= k
    ensures CopyAhead(m, es, 1) == Torn
  {
  }

  /** All pages but the last find their frames; for that, one frame is left and its table is missing. */
  predicate EndsTorn(m: Mem, d: nat, a: nat, b: nat)
    requires m.IsDir(d)
  {
    LacksTable(TableSet(m, d), a, b, |m.free|)
  }

  lemma FirstPageTears(m: Mem, d: nat)
    requires m.IsDir(d) && |m.free| == 1 && forall k :: k in TableSet(m, d) ==> NUSER <= k
    ensures Pages(0) == 0 && Pages(PGSIZE) == 1 && EndsTorn(m, d, 0, 1)
  {
  }

  // ----- copyuvm -----

  /** Page (k, l) of e has the flags and contents of that of d, on a frame of its own. */
  ghost predicate CopiedPage(m: Mem, g: Mem, d: nat, e: nat, k: nat, l: nat)
    requires m.IsDir(d) && g.IsDir(e) && k < NENTRIES && l < NENTRIES
  {
    var p, q := m.Lookup(d, k, l), g.Lookup(e, k, l);
    p.Present? && q.Present? && q.flags == p.flags && PageOf(g, q.frame) == PageOf(m, p.frame) && q.frame !in m.own
  }

  /** The first v of n pages of d have been copied to the new address space e. */
  ghost predicate Copying(m: Mem, g: Mem, d: nat, e: nat, v: nat, n: nat) {
    && m.Ok() && m.IsDir(d) && Prefix(m, d, n) && g.Ok() && g.IsDir(d) && g.IsDir(e) && e !in m.own && v <= n
    && Kept(m, g) && SameMaps(m, g) && Prefix(g, e, v)
    && (forall f :: f in g.own && f !in m.own ==> f == e || Belongs(g.own[f], e))
    && forall k, l {:trigger CopiedPage(m, g, d, e, k, l)} ::
      0 <= k < NUSER && 0 <= l < NENTRIES && NENTRIES * k + l < v ==> CopiedPage(m, g, d, e, k, l)
  }

  lemma CopyingNone(m: Mem, g: Mem, d: nat, e: nat, ps: seq<KPage>, n: nat)
    requires m.Ok() && m.IsDir(d) && Prefix(m, d, n) && FreshSpace(m, g, e, ps)
    ensures Copying(m, g, d, e, 0, n)
  {
    assert KeepsAt(m, g, d, 0, 0);
  }

  lemma CopyMaps(m: Mem, g: Mem, h: Mem, d: nat, e: nat, v: nat, n: nat, i: nat, j: nat, c: Content, flags: nat)
    requires Copying(m, g, d, e, v, n) && v < n && v == NENTRIES * i + j && Added(g, h, e, i, j, c, flags)
    ensures h.IsDir(d) && h.IsDir(e) && Kept(m, h) && SameMaps(m, h) && Prefix(h, e, v + 1)
  {
    hide Mem.Ok;
    assert KeepsAt(g, h, d, 0, 0) || d == e;
    forall k, l | 0 <= k < NUSER && 0 <= l < NENTRIES ensures h.Lookup(e, k, l).Present? <==> NENTRIES * k + l < v + 1 {
      if !(k == i && l == j) {
        assert KeepsAt(g, h, e, k, l);
      }
    }
    forall x, k, l | m.IsDir(x) && 0 <= k < NENTRIES && 0 <= l < NENTRIES ensures KeepsAt(m, h, x, k, l) {
      assert KeepsAt(m, g, x, k, l) && KeepsAt(g, h, x, k, l);
    }
  }

  lemma CopyMore(m: Mem, g: Mem, h: Mem, d: nat, e: nat, v: nat, n: nat, i: nat, j: nat, c: Content, flags: nat)
    requires Copying(m, g, d, e, v, n) && v < n && v == NENTRIES * i + j && Added(g, h, e, i, j, c, flags)
    requires var p := m.Lookup(d, i, j); p.Present? && flags == p.flags && c == PageOf(m, p.frame)
    ensures Copying(m, h, d, e, v + 1, n)
  {
    CopyMaps(m, g, h, d, e, v, n, i, j, c, flags);
    forall k, l | 0 <= k < NUSER && 0 <= l < NENTRIES && NENTRIES * k + l < v + 1 ensures CopiedPage(m, h, d, e, k, l) {
      if !(k == i && l == j) {
        assert CopiedPage(m, g, d, e, k, l) && KeepsAt(g, h, e, k, l) && g.LeafAt(e, k, l);
      }
    }
  }

  lemma OldIsNotNew(m: Mem, g: Mem, d: nat, e: nat, v: nat, n: nat, f: nat)
    requires Copying(m, g, d, e, v, n) && f in m.own
    ensures f != e && f in g.own && !Belongs(g.own[f], e)
  {
    assert m.UseAt(f);
  }

  /** Frames are in use for just what they were, except for those lost, and every address space maps what
  it did. */
  ghost predicate Unchanged(m: Mem, z: Mem, lost: set<nat>) {
    z.Ok() && SameMaps(m, z) && Kept(m, z) && NowLoose(m, z, lost) && forall f :: f in z.own ==> f in m.own || f in lost
  }

  /** Giving the new address space up leaves just what was there. */
  lemma CopyUndone(m: Mem, g: Mem, z: Mem, d: nat, e: nat, v: nat, n: nat)
    requires Copying(m, g, d, e, v, n) && Closed(g, z, e)
    ensures Unchanged(m, z, {})
  {
    hide Mem.Ok;
    forall f | f in m.own ensures f in z.own {
      OldIsNotNew(m, g, d, e, v, n, f);
    }
    forall x, k, l | m.IsDir(x) && 0 <= k < NENTRIES && 0 <= l < NENTRIES ensures KeepsAt(m, z, x, k, l) {
      assert KeepsAt(m, g, x, k, l) && KeepsAt(g, z, x, k, l);
    }
  }

  lemma CopyTorn(m: Mem, g: Mem, h: Mem, z: Mem, d: nat, e: nat, v: nat, n: nat, lost: nat, c: Content)
    requires Copying(m, g, d, e, v, n) && TookFrame(g, h, lost, c) && Closed(h, z, e)
    ensures Unchanged(m, z, {lost})
  {
    hide Mem.Frames, Mem.Tables, Mem.TableSizes, Mem.Linked;
    forall f | f in m.own ensures f in z.own {
      OldIsNotNew(m, g, d, e, v, n, f);
    }
    forall x, k, l | m.IsDir(x) && 0 <= k < NENTRIES && 0 <= l < NENTRIES ensures KeepsAt(m, z, x, k, l) {
      assert KeepsAt(m, g, x, k, l) && KeepsAt(g, h, x, k, l) && KeepsAt(h, z, x, k, l);
    }
  }

  /** The page to copy is there, and its place in the copy is not taken. */
  lemma CopyReady(m: Mem, g: Mem, d: nat, e: nat, v: nat, n: nat, i: nat, j: nat)
    requires Copying(m, g, d, e, v, n) && v < n && v == NENTRIES * i + j && j < NENTRIES
    ensures i < NUSER && HasTable(g, d, i) && g.IsTable(TableOf(g, d, i), d, i) && g.Lookup(e, i, j).Absent?
    ensures var p := g.Lookup(d, i, j); p.Present? && p == m.Lookup(d, i, j) && PageOf(g, p.frame) == PageOf(m, p.frame)
  {
    assert KeepsAt(m, g, d, i, j) && m.LeafAt(d, i, j) && g.EntryAt(d, i);
  }

  /** What copyuvm gives: nothing if setupkvm fails, and otherwise by what it meets. */
  ghost predicate CopyResult(m: Mem, g: Mem, d: nat, n: nat, es: set<nat>, r: Option<nat>, lost: nat) {
    if |m.free| <= |es| then r.None? && if m.free == [] then g == m else exists x :: Wasted(m, g, x)
    else
      match CopyAhead(m, es, n)
      case Room => r.Some? && Copying(m, g, d, r.value, n, n)
      case Short => r.None? && Unchanged(m, g, {})
      case Torn => r.None? && Unchanged(m, g, {lost})
  }

  /** Growing from sz by n finds one frame left for its last page, and its table missing. */
  predicate LeavesHole(m: Mem, d: nat, sz: nat, n: int)
    requires m.IsDir(d)
  {
    0 < n && sz + n < KERNBASE && EndsTorn(m, d, Pages(sz), Pages(sz + n))
  }

  /** What is ahead at page v is what was ahead at page a, however far the growing goes. */
  ghost predicate SameAhead(m: Mem, g: Mem, d: nat, a: nat, v: nat)
    requires m.IsDir(d) && g.IsDir(d)
  {
    forall x: nat {:trigger Ahead(m, d, a, x)} :: v <= x ==> Ahead(m, d, a, x) == Ahead(g, d, v, x)
  }

  /** allocuvm from m has come to page v. */
  ghost predicate Growing(m: Mem, g: Mem, d: nat, a: nat, v: nat, end: nat, torn: bool, lost: nat) {
    && m.Ok() && m.IsDir(d) && Prefix(m, d, a) && g.Ok() && g.IsDir(d) && a <= v <= end <= NUSER * NENTRIES
    && if torn then
         a < v && EndsTorn(m, d, a, v) && g.free == [] && Grew(m, g, d, a, v - 1, RWRWX, {lost})
       else Grew(m, g, d, a, v, RWRWX, {}) && SameAhead(m, g, d, a, v) && Spent(m, g, d, a, v)
  }

  lemma AheadNext(m: Mem, g: Mem, h: Mem, d: nat, a: nat, v: nat, i: nat)
    requires m.IsDir(d) && g.IsDir(d) && SameAhead(m, g, d, a, v) && i == v / NENTRIES && i < NENTRIES
    requires TablesNow(g, h, d, i) && (HasTable(g, d, i) || |g.free| > 1) && |g.free| > 0
    ensures h.IsDir(d) && SameAhead(m, h, d, a, v + 1)
  {
    hide Forecasted;
    forall x: nat | v + 1 <= x ensures Ahead(m, d, a, x) == Ahead(h, d, v + 1, x) {
      ForecastStep(g, h, d, v, x, i);
      assert Ahead(m, d, a, x) == Ahead(g, d, v, x);
    }
  }

  lemma AheadTorn(m: Mem, g: Mem, d: nat, a: nat, v: nat, i: nat)
    requires m.IsDir(d) && g.IsDir(d) && SameAhead(m, g, d, a, v) && i == v / NENTRIES && i < NENTRIES
    requires |g.free| == 1 && !HasTable(g, d, i)
    requires a <= v
    ensures EndsTorn(m, d, a, v + 1)
  {
    hide LacksTable;
    ForecastNow(g, d, v, v + 1, i);
    assert Ahead(m, d, a, v) == Ahead(g, d, v, v) && Ahead(m, d, a, v + 1) == Ahead(g, d, v, v + 1);
    TornIff(TableSet(m, d), a, v + 1, |m.free|);
  }

  /** What allocuvm does to an address space, by what it meets. */
  ghost predicate Grown(m: Mem, g: Mem, d: nat, a: nat, b: nat, success: bool, lost: nat) {
    && m.IsDir(d) && g.IsDir(d)
    && match Ahead(m, d, a, b)
       case Room => success && Grew(m, g, d, a, b, 0x38, {}) && Spent(m, g, d, a, b) && Prefix(g, d, b)
       case Short => !success && Restored(m, g, d, {})
       case Torn =>
         && (success <==> EndsTorn(m, d, a, b))
         && if success then a < b && Grew(m, g, d, a, b - 1, 0x38, {lost}) && Prefix(g, d, b - 1)
            else Restored(m, g, d, {lost}) && Prefix(g, d, a)
  }

  lemma GrowingStart(m: Mem, d: nat, a: nat, end: nat, lost: nat)
    requires m.Ok() && m.IsDir(d) && Prefix(m, d, a) && a <= end <= NUSER * NENTRIES
    ensures Growing(m, m, d, a, a, end, false, lost)
  {
    hide Mem.Ok, Prefix;
    GrewNone(m, d, a, RWRWX);
    assert Missing(TableSet(m, d), a, a) == {};
    assert SameAhead(m, m, d, a, a);
  }

  lemma GrowingPrefix(m: Mem, g: Mem, d: nat, a: nat, v: nat, end: nat, torn: bool, lost: nat)
    requires Growing(m, g, d, a, v, end, torn, lost)
    ensures Prefix(g, d, if torn then v - 1 else v)
  {
    if torn {
      GrewPrefix(m, g, d, a, v - 1, RWRWX, {lost});
    } else {
      GrewPrefix(m, g, d, a, v, RWRWX, {});
    }
  }

  lemma GrowingNext(m: Mem, g: Mem, h: Mem, d: nat, a: nat, v: nat, end: nat, i: nat, j: nat, torn: bool, lost: nat,
      e: Turn, l: nat)
    requires Growing(m, g, d, a, v, end, torn, lost) && v < end && AllocStep(g, h, d, i, j, e, l)
    requires v == NENTRIES * i + j && i == v / NENTRIES
    ensures e.Mapped? ==> !torn && Growing(m, h, d, a, v + 1, end, false, lost)
    ensures e.Lost? ==> !torn && Growing(m, h, d, a, v + 1, end, true, l)
    ensures e.NoFrame? ==> h == g && h.free == []
  {
    if e.Mapped? {
      GrewMore(m, g, h, d, a, v, i, j, RWRWX);
      AheadNext(m, g, h, d, a, v, i);
      SpentMore(m, g, h, d, a, v, i);
    } else if e.Lost? {
      AheadTorn(m, g, d, a, v, i);
      assert KeepsAt(g, h, d, 0, 0);
      GrewThenLost(m, g, h, d, a, v, RWRWX, l, Zero);
    }
  }

  lemma TookPrefix(g: Mem, h: Mem, d: nat, v: nat, l: nat, c: Content)
    requires g.IsDir(d) && Prefix(g, d, v) && TookFrame(g, h, l, c)
    ensures h.IsDir(d) && Prefix(h, d, v)
  {
    assert KeepsAt(g, h, d, 0, 0);
    forall k, n | 0 <= k < NUSER && 0 <= n < NENTRIES ensures h.Lookup(d, k, n).Present? <==> NENTRIES * k + n < v {
      assert KeepsAt(g, h, d, k, n);
    }
  }

  lemma GrowingAbsent(m: Mem, g: Mem, d: nat, a: nat, v: nat, end: nat, i: nat, j: nat, torn: bool, lost: nat)
    requires Growing(m, g, d, a, v, end, torn, lost) && v < end && v == NENTRIES * i + j && j < NENTRIES
    ensures i < NUSER && g.Ok() && g.IsDir(d) && g.Lookup(d, i, j).Absent?
  {
    GrowingPrefix(m, g, d, a, v, end, torn, lost);
  }

  lemma TornBefore(tables: set<nat>, a: nat, v: nat, end: nat, frames: nat)
    requires v < end && LacksTable(tables, a, v, frames)
    ensures Forecasted(tables, a, end, frames) == Torn && !LacksTable(tables, a, end, frames)
  {
    hide Missing;
    TornIff(tables, a, v, frames);
    TornIff(tables, a, end, frames);
    ForecastStuck(tables, a, v, end, frames);
    ForecastStuck(tables, a, v, end - 1, frames);
  }

  lemma UndoTorn(m: Mem, g: Mem, h: Mem, d: nat, a: nat, v: nat, end: nat, lost: nat, b: nat)
    requires Growing(m, g, d, a, v, end, true, lost) && v < end && Shrunk(g, h, d, a, b) && v - 1 <= b
    ensures Grown(m, h, d, a, end, false, lost)
  {
    hide LacksTable, Forecasted, Mem.Frames, Mem.Tables, Mem.TableSizes, Mem.Linked;
    TornBefore(TableSet(m, d), a, v, end, |m.free|);
    GrowingPrefix(m, g, d, a, v, end, true, lost);
    ShrunkPrefix(g, h, d, v - 1, a, b);
    GrewShrunk(m, g, h, d, a, v - 1, b, RWRWX, {lost});
  }

  lemma UndoGrown(m: Mem, g: Mem, h: Mem, d: nat, a: nat, v: nat, end: nat, torn: bool, lost: nat, b: nat)
    requires Growing(m, g, d, a, v, end, torn, lost) && v < end && g.free == [] && Shrunk(g, h, d, a, b)
    requires (if torn then v - 1 else v) <= b
    ensures Grown(m, h, d, a, end, false, lost)
  {
    hide LacksTable, Forecasted, Mem.Frames, Mem.Tables, Mem.TableSizes, Mem.Linked, Prefix;
    if torn {
      UndoTorn(m, g, h, d, a, v, end, lost, b);
    } else {
      ForecastNow(g, d, v, end, v / NENTRIES);
      assert Ahead(m, d, a, end) == Ahead(g, d, v, end);
      GrewShrunk(m, g, h, d, a, v, b, RWRWX, {});
    }
  }

  lemma OnePrefix(m: Mem, d: nat, n: nat, b: nat)
    requires m.IsDir(d) && Prefix(m, d, n) && n < b
    ensures !Prefix(m, d, b)
  {
    if b <= NUSER * NENTRIES {
      assert m.Lookup(d, n / NENTRIES, n % NENTRIES).Absent?;
    }
  }

  lemma GrownPrefix(m: Mem, g: Mem, d: nat, a: nat, b: nat, success: bool, lost: nat, tried: bool)
    requires m.IsDir(d) && g.IsDir(d) && Prefix(m, d, a)
    requires if tried then Grown(m, g, d, a, b, success, lost) else g == m
    ensures if !tried || !success then Prefix(g, d, a) else Prefix(g, d, b) <==> !EndsTorn(m, d, a, b)
    ensures tried && !success ==> !EndsTorn(m, d, a, b)
  {
    hide Missing;
    if a < b {
      TornIff(TableSet(m, d), a, b, |m.free|);
    }
    if tried && success && EndsTorn(m, d, a, b) {
      OnePrefix(g, d, b - 1, b);
    }
    if tried && Ahead(m, d, a, b) == Short {
      forall k, l | 0 <= k < NUSER && 0 <= l < NENTRIES ensures g.Lookup(d, k, l).Present? <==> NENTRIES * k + l < a {
        assert KeepsAt(m, g, d, k, l);
      }
    }
  }

  lemma GrownWhole(m: Mem, g: Mem, d: nat, a: nat, v: nat, end: nat, torn: bool, lost: nat)
    requires Growing(m, g, d, a, v, end, torn, lost) && end <= v
    ensures g.Ok() && g.IsDir(d) && Grown(m, g, d, a, end, true, lost)
  {
    GrowingPrefix(m, g, d, a, end, end, torn, lost);
    assert !torn ==> Ahead(m, d, a, end) == Ahead(g, d, end, end);
    if torn {
      TornIff(TableSet(m, d), a, end, |m.free|);
    }
  }

  /** The pages of 4096 bytes that hold size bytes, and no more. */
  lemma PagesAre(size: nat)
    ensures size <= 4096 * Pages(size) < size + 4096
  {
  }

  lemma PagesReached(size: nat, v: nat)
    requires v * PGSIZE >= size
    ensures Pages(size) <= v
  {
  }

  lemma PagesAhead(size: nat, v: nat)
    requires v * PGSIZE < size
    ensures v < Pages(size)
  {
  }

  lemma PagesOrder(a: nat, b: nat)
    requires a <= b < KERNBASE
    ensures Pages(a) <= Pages(b) <= NUSER * NENTRIES && a <= Pages(a) * PGSIZE
  {
  }

  ghost predicate PteAt(g: Mem, d: nat, v: nat, data: nat)
    requires g.IsDir(d) && v < 0x100000
  {
    PteIs(g.Lookup(d, v / 1024, v % 1024), v, data)
  }

  /** All 2^20 pages of d are as the kernel's map has them; none is a user page. */
  ghost predicate KernelSpace(g: Mem, d: nat, data: nat)
    requires g.IsDir(d)
  {
    forall v: nat {:trigger PteAt(g, d, v, data)} :: v < 0x100000 ==> PteAt(g, d, v, data)
  }

  // ----- Frames and tables in place -----

  class Vm {
    const first: nat
    var free: seq<nat>
    var tab: map<nat, seq<Pte>>
    var page: map<nat, Content>
    ghost var own: map<nat, Use>

    ghost function M(): Mem
      reads this
    {
      Mem(first, free, tab, own, page)
    }

    /** freerange over the frames from `first` to the top of memory, into an empty list. */
    constructor (first: nat)
      requires 1 <= first <= TOP
      ensures M().Ok() && own == map[] && this.first == first && |free| == TOP - first
    {
      var list: seq<nat> := [];
      var f := first;
      while f < TOP
        invariant first <= f <= TOP && |list| == f - first
        invariant forall k :: 0 <= k < |list| ==> list[k] == f - 1 - k
      {
        list := [f] + list;
        f := f + 1;
      }
      this.first := first;
      free, tab, page, own := list, map[], map[], map[];
      new;
      forall x: int ensures x in free <==> first <= x < TOP {
        if first <= x < TOP {
          assert free[TOP - 1 - x] == x;
        }
      }
    }

    method Kalloc() returns (r: Option<nat>)
      requires M().Ok()
      modifies this
      ensures M().Ok() && (r.None? <==> old(free) == [])
      ensures if r.None? then M() == old(M()) else r.value == old(free)[0] && M() == PageTables.Kalloc(old(M()))
    {
      if free == [] {
        return None;
      }
      var f := free[0];
      KallocOk(M());
      free := free[1..];
      page := page[f := Junk];
      own := own[f := Loose];
      return Some(f);
    }

    method Kfree(f: nat)
      requires M().Ok() && f in own && own[f] == Loose
      modifies this
      ensures M().Ok() && M() == PageTables.Kfree(old(M()), f)
    {
      KfreeOk(M(), f);
      free := [f] + free;
      page := page[f := Junk];
      own := own - {f};
    }

    /** walkpgdir: the page table for entry i of d, made on demand. */
    method WalkPgdir(d: nat, i: nat, alloc: bool) returns (t: Option<nat>)
      requires M().Ok() && M().IsDir(d) && i < NENTRIES
      modifies this
      ensures M().Ok() && M().IsDir(d)
      ensures t.None? <==> !HasTable(old(M()), d, i) && (!alloc || old(free) == [])
      ensures if t.None? then M() == old(M())
        else Walked(old(M()), M(), d, i) && HasTable(M(), d, i) && TableOf(M(), d, i) == t.value
      ensures t.Some? && !HasTable(old(M()), d, i) ==> t.value == old(free)[0] && tab[d][i] == Present(t.value, 0x38)
    {
      hide Mem.Frames, Mem.Tables, Mem.TableSizes, Mem.Linked, SameMaps, Kept;
      ghost var m := M();
      if tab[d][i].Present? {
        return Some(tab[d][i].frame);
      }
      if !alloc || free == [] {
        return None;
      }
      var f := free[0];
      TakeTable(m, d, i, RWRWX);
      free := free[1..];
      page := page[f := Zero];
      tab := tab[f := EmptyTable()][d := tab[d][i := Present(f, RWRWX)]];
      own := own[f := Table(d, i)];
      assert M() == AddTable(PageTables.Kalloc(m), d, i, f, RWRWX);
      return Some(f);
    }

    /** A frame filled by the caller, for a page about to be entered. */
    method TakePage(c: Content) returns (r: Option<nat>)
      requires M().Ok()
      modifies this
      ensures M().Ok() && (r.None? <==> old(free) == [])
      ensures if r.None? then M() == old(M()) else TookFrame(old(M()), M(), r.value, c)
    {
      ghost var m := M();
      r := Kalloc();
      if r.Some? {
        TakeFrame(m, c);
        page := page[r.value := c];
      }
    }

    /** mappages for the one user page (i, j); the frame f is filled already. */
    method MapPage(d: nat, i: nat, j: nat, f: nat, flags: nat, ghost m: Mem, ghost c: Content) returns (ok: bool)
      requires m.Ok() && m.IsDir(d) && i < NUSER && j < NENTRIES && m.Lookup(d, i, j).Absent? && TookFrame(m, M(), f, c)
      modifies this
      ensures ok <==> HasTable(m, d, i) || |m.free| > 1
      ensures !ok ==> M() == old(M())
      ensures ok ==> Added(m, M(), d, i, j, c, flags) && TablesNow(m, M(), d, i)
    {
      ghost var n := M();
      var t := WalkPgdir(d, i, true);
      if t.None? {
        return false;
      }
      ghost var o := M();
      PageEntered(m, n, o, d, i, j, f, c, flags);
      hide Added, TablesNow, TookFrame, Walked, Mem.Ok;
      tab := tab[t.value := tab[t.value][j := Present(f, flags)]];
      own := own[f := User(d, i, j)];
      assert M() == MapUser(o, d, i, j, f, flags);
      return true;
    }

    /** deallocuvm, for an address space whose user half is its first n pages. */
    method DeallocUvm(d: nat, oldsz: nat, newsz: nat, ghost n: nat) returns (r: nat)
      requires M().Ok() && M().IsDir(d) && Prefix(M(), d, n) && oldsz <= KERNBASE
      requires (newsz < oldsz ==> n <= Pages(oldsz))
      modifies this
      ensures M().Ok() && M().IsDir(d) && r == (if newsz < oldsz then newsz else oldsz)
      ensures newsz >= oldsz ==> M() == old(M())
      ensures newsz < oldsz ==>
        Prefix(M(), d, Min(n, Pages(newsz))) && exists b :: n <= b && Shrunk(old(M()), M(), d, Pages(newsz), b)
    {
      if newsz >= oldsz {
        return oldsz;
      }
      ghost var m := M();
      var v := Pages(newsz);
      ShrunkNone(m, d, v);
      while v * PGSIZE < oldsz
        invariant Shrunk(m, M(), d, Pages(newsz), v)
        decreases oldsz - v * PGSIZE
      {
        var i, j := v / NENTRIES, v % NENTRIES;
        v := FreePage(d, i, j, v, m, n, Pages(newsz));
      }
      PagesReached(oldsz, v);
      ShrunkPrefix(m, M(), d, n, Pages(newsz), v);
      return newsz;
    }

    /** One turn of the loop of deallocuvm: a page is freed, or a missing table is passed over. */
    method FreePage(d: nat, i: nat, j: nat, v: nat, ghost m: Mem, ghost n: nat, ghost a: nat) returns (w: nat)
      requires m.Ok() && m.IsDir(d) && Prefix(m, d, n) && i < NUSER && j < NENTRIES && v == NENTRIES * i + j
      requires Shrunk(m, M(), d, a, v)
      modifies this
      ensures v < w && Shrunk(m, M(), d, a, w)
    {
      ghost var g := M();
      assert g.EntryAt(d, i);
      var t := WalkPgdir(d, i, false);
      assert M() == g;
      hide Shrunk, Mem.Ok, Prefix;
      if t.None? {
        SkipTable(m, g, d, n, a, v, i, j);
        w := v + (NENTRIES - 1) + 1;
      } else {
        w := v + 1;
        if tab[t.value][j].Present? {
          ShrunkMore(m, g, d, a, v, i, j);
          Drop(d, i, j, t.value);
        } else {
          SkipPage(m, g, d, a, v, i, j);
        }
      }
    }

    /** The frame of page (i, j), entered in table t, is freed and the entry cleared. */
    method Drop(d: nat, i: nat, j: nat, t: nat)
      requires M().IsDir(d) && i < NUSER && j < NENTRIES && M().Lookup(d, i, j).Present? && t == TableOf(M(), d, i)
      modifies this
      ensures M() == Unmap(old(M()), d, i, j)
    {
      var f := tab[t][j].frame;
      free := [f] + free;
      page := page[f := Junk];
      own := own - {f};
      tab := tab[t := tab[t][j := Absent]];
    }

    /** One turn of the loop of allocuvm; the result of mappages is ignored, so a frame taken when no
    frame is left for its page table is lost. */
    method AllocPage(d: nat, i: nat, j: nat) returns (e: Turn, ghost lost: nat)
      requires M().Ok() && M().IsDir(d) && i < NUSER && j < NENTRIES && M().Lookup(d, i, j).Absent?
      modifies this
      ensures AllocStep(old(M()), M(), d, i, j, e, lost)
    {
      ghost var m := M();
      var f := TakePage(Zero);
      lost := 0;
      if f.None? {
        return NoFrame, 0;
      }
      lost := f.value;
      hide Added, TablesNow, TookFrame;
      var ok := MapPage(d, i, j, f.value, RWRWX, m, Zero);
      e := if ok then Mapped else Lost;
    }

    /** allocuvm, which must find the user half to be the pages of oldsz. */
    method AllocUvm(d: nat, oldsz: nat, newsz: nat) returns (r: nat, ghost lost: nat)
      requires M().Ok() && M().IsDir(d) && Prefix(M(), d, Pages(oldsz))
      modifies this
      ensures M().Ok() && M().IsDir(d)
      ensures newsz >= 0x8000_0000 ==> r == 0 && M() == old(M())
      ensures newsz < 0x8000_0000 && newsz < oldsz ==> r == oldsz && M() == old(M())
      ensures oldsz <= newsz < 0x8000_0000 ==>
        Grown(old(M()), M(), d, Pages(oldsz), Pages(newsz), r == newsz, lost) && (r == newsz || r == 0)
    {
      hide Growing, Grown, AllocStep, Prefix, Mem.Ok, Ahead;
      lost := 0;
      if newsz >= KERNBASE {
        return 0, 0;
      }
      if newsz < oldsz {
        return oldsz, 0;
      }
      ghost var m := M();
      var v := Pages(oldsz);
      ghost var torn := false;
      PagesOrder(oldsz, newsz);
      GrowingStart(m, d, v, Pages(newsz), lost);
      while v * PGSIZE < newsz
        invariant Growing(m, M(), d, Pages(oldsz), v, Pages(newsz), torn, lost)
        decreases newsz - v * PGSIZE
      {
        PagesAhead(newsz, v);
        ghost var g := M();
        var i, j := v / NENTRIES, v % NENTRIES;
        GrowingAbsent(m, g, d, Pages(oldsz), v, Pages(newsz), i, j, torn, lost);
        var e, l := AllocPage(d, i, j);
        GrowingNext(m, g, M(), d, Pages(oldsz), v, Pages(newsz), i, j, torn, lost, e, l);
        if e.NoFrame? {
          Undo(d, oldsz, newsz, m, v, torn, lost);
          r := 0;
          return;
        }
        if e.Lost? {
          torn, lost := true, l;
        }
        v := v + 1;
      }
      PagesReached(newsz, v);
      GrownWhole(m, M(), d, Pages(oldsz), v, Pages(newsz), torn, lost);
      r := newsz;
    }

    /** The failure path of allocuvm. */
    method Undo(d: nat, oldsz: nat, newsz: nat, ghost m: Mem, ghost v: nat, ghost torn: bool, ghost lost: nat)
      requires oldsz < newsz < KERNBASE && v < Pages(newsz) && free == []
      requires Growing(m, M(), d, Pages(oldsz), v, Pages(newsz), torn, lost)
      modifies this
      ensures M().Ok() && M().IsDir(d) && Grown(m, M(), d, Pages(oldsz), Pages(newsz), false, lost)
    {
      ghost var g := M();
      ghost var n := if torn then v - 1 else v;
      GrowingPrefix(m, g, d, Pages(oldsz), v, Pages(newsz), torn, lost);
      var r := DeallocUvm(d, newsz, oldsz, n);
      ghost var b :| n <= b && Shrunk(g, M(), d, Pages(oldsz), b);
      UndoGrown(m, g, M(), d, Pages(oldsz), v, Pages(newsz), torn, lost, b);
    }

    /** freevm: every user page, page table and the directory of d go back to the free list. */
    method FreeVm(d: nat, ghost n: nat)
      requires M().Ok() && M().IsDir(d) && Prefix(M(), d, n)
      modifies this
      ensures Closed(old(M()), M(), d)
    {
      ghost var m := M();
      assert n <= NUSER * NENTRIES;
      hide Mem.Ok, Shrunk, Closed, TablesGone, Prefix;
      var r := DeallocUvm(d, KERNBASE, 0, n);
      ghost var b :| n <= b && Shrunk(m, M(), d, 0, b);
      ghost var g := M();
      assert Prefix(g, d, 0);
      FreeAllTables(d);
      FreeTablesAre(g, d, NENTRIES);
      CloseOk(g, M(), d);
      ReleaseTable(d);
      FreedAll(m, g, M(), d, n, b);
    }

    /** The loop of freevm over the directory. */
    method FreeAllTables(d: nat)
      requires M().Ok() && M().IsDir(d)
      modifies this
      ensures M() == FreeTables(old(M()), d, NENTRIES)
    {
      ghost var g := M();
      var dir := tab[d];
      var i := 0;
      while i < NENTRIES
        invariant 0 <= i <= NENTRIES && M() == FreeTables(g, d, i) && dir == g.tab[d]
      {
        if dir[i].Present? {
          ReleaseTable(dir[i].frame);
        }
        i := i + 1;
      }
    }

    /** One turn of mappages for a kernel page. */
    method MapKernelPage(d: nat, p: KPage, ghost m: Mem, ghost ps: seq<KPage>) returns (ok: bool)
      requires KernelPages(ps + [p]) && KernelMap.Entered(m, M(), d, ps) && NUSER <= p.i < NENTRIES && p.j < NENTRIES
      requires M().Lookup(d, p.i, p.j).Absent?
      modifies this
      ensures ok <==> HasTable(old(M()), d, p.i) || old(free) != []
      ensures if ok then KernelMap.Entered(m, M(), d, ps + [p]) else M() == old(M())
    {
      ghost var g := M();
      var t := WalkPgdir(d, p.i, true);
      if t.None? {
        return false;
      }
      ghost var o := M();
      EnterMore(m, g, o, d, ps, p);
      hide KernelMap.Entered, Walked, Mem.Ok;
      tab := tab[t.value := tab[t.value][p.j := Present(p.frame, p.flags)]];
      assert M() == MapKernel(o, d, p.i, p.j, p.frame, p.flags);
      return true;
    }

    /** mappages for a range of kernel pages, which are not in the table yet. */
    method MapRange(d: nat, kmap: seq<KRange>, r: nat, ghost m: Mem) returns (ok: bool)
      requires r < |kmap| && KernelPages(AllPages(kmap)) && KernelMap.Entered(m, M(), d, AllPages(kmap[..r]))
      requires TableSet(m, d) == {}
      requires forall k, l :: 0 <= k < NENTRIES && 0 <= l < NENTRIES ==> m.Lookup(d, k, l).Absent?
      modifies this
      ensures M().Ok() && Kept(m, M())
      ensures if ok then KernelMap.Entered(m, M(), d, AllPages(kmap[..r + 1]))
              else |m.free| < |Entries(AllPages(kmap))| && Abandoned(m, M(), d)
    {
      var x := 0;
      assert AllPages(kmap[..r]) + [] == AllPages(kmap[..r]);
      hide EnteredMaps, KernelPages;
      while x < kmap[r].n
        invariant 0 <= x <= kmap[r].n && KernelMap.Entered(m, M(), d, Before(kmap, r, x))
      {
        ok := MapNext(d, kmap, r, x, m);
        if !ok {
          return;
        }
        x := x + 1;
      }
      RangeDone(kmap, r);
      ok := true;
    }

    method MapNext(d: nat, kmap: seq<KRange>, r: nat, x: nat, ghost m: Mem) returns (ok: bool)
      requires r < |kmap| && x < kmap[r].n && KernelPages(AllPages(kmap))
      requires KernelMap.Entered(m, M(), d, Before(kmap, r, x)) && TableSet(m, d) == {}
      requires forall k, l :: 0 <= k < NENTRIES && 0 <= l < NENTRIES ==> m.Lookup(d, k, l).Absent?
      modifies this
      ensures if ok then KernelMap.Entered(m, M(), d, Before(kmap, r, x + 1))
              else M() == old(M()) && |m.free| < |Entries(AllPages(kmap))| && Abandoned(m, M(), d)
    {
      var p := RangePage(kmap[r], x);
      ghost var ps := Before(kmap, r, x);
      NextPage(kmap, r, x);
      KernelPrefix(ps + [p], AllPages(kmap));
      assert (ps + [p])[|ps|] == p;
      NotYetThere(m, M(), d, ps, p);
      hide EnteredMaps, KernelPages;
      ok := MapKernelPage(d, p, m, ps);
      if !ok {
        RanOut(m, M(), d, ps, p, AllPages(kmap));
        assert Abandoned(m, M(), d);
      }
    }

    /** setupkvm: a directory with the kernel's pages, if there is a frame for it and for every table. */
    method SetupKvm(kmap: seq<KRange>) returns (r: Option<nat>)
      requires M().Ok() && KernelPages(AllPages(kmap))
      modifies this
      ensures M().Ok() && Kept(old(M()), M())
      ensures r.Some? <==> |old(free)| > |Entries(AllPages(kmap))|
      ensures r.Some? ==> FreshSpace(old(M()), M(), r.value, AllPages(kmap))
      ensures r.None? ==> if old(free) == [] then M() == old(M()) else exists d :: Wasted(old(M()), M(), d)
    {
      if free == [] {
        return None;
      }
      ghost var m := M();
      var d := BareDirectory();
      ghost var n := M();
      var ok := EnterKernel(d, kmap, n);
      if !ok {
        WastedIs(m, n, M(), d);
        return None;
      }
      FreshIs(m, n, M(), d, AllPages(kmap));
      hide KernelMap.Entered, BareDir, Mem.Ok;
      return Some(d);
    }

    /** setupkvm with the kernel's own map. */
    method SetupKernel(data: nat) returns (r: Option<nat>)
      requires M().Ok() && 0x80100 < data < 0x88000
      modifies this
      ensures M().Ok() && Kept(old(M()), M()) && (r.Some? <==> |old(free)| > 40)
      ensures r.Some? ==> M().IsDir(r.value) && SameMaps(old(M()), M()) && KernelSpace(M(), r.value, data)
    {
      hide Kmap, AllPages, KernelPages, Entries, Mem.Ok, Prefix, SameMaps, PteIs;
      ghost var m := M();
      KmapOk(data);
      KmapEntries(data);
      r := SetupKvm(Kmap(data));
      if r.Some? {
        forall v: nat | v < 0x100000 ensures PteAt(M(), r.value, v, data) {
          KernelPte(m, M(), r.value, data, v);
        }
      }
    }

    /** A zeroed directory page. */
    method BareDirectory() returns (d: nat)
      requires M().Ok() && free != []
      modifies this
      ensures BareDir(old(M()), M(), d)
    {
      hide Mem.Ok, BareDir, EmptyTable;
      ghost var m := M();
      d := free[0];
      NewDirBare(m);
      free := free[1..];
      page := page[d := Zero];
      tab := tab[d := EmptyTable()];
      own := own[d := Dir];
      assert M() == NewDir(m);
    }

    /** The loop of setupkvm over kmap. */
    method EnterKernel(d: nat, kmap: seq<KRange>, ghost n: Mem) returns (ok: bool)
      requires M() == n && n.Ok() && n.IsDir(d) && KernelPages(AllPages(kmap)) && TableSet(n, d) == {}
      requires forall k, l :: 0 <= k < NENTRIES && 0 <= l < NENTRIES ==> n.Lookup(d, k, l).Absent?
      modifies this
      ensures M().Ok() && Kept(n, M())
      ensures ok <==> |n.free| >= |Entries(AllPages(kmap))|
      ensures if ok then KernelMap.Entered(n, M(), d, AllPages(kmap)) else Abandoned(n, M(), d)
    {
      hide Mem.Ok, EnteredMaps, KernelPages, Kept, Abandoned, NewFor;
      EnteredNone(n, d);
      var k := 0;
      while k < |kmap|
        invariant 0 <= k <= |kmap| && KernelMap.Entered(n, M(), d, AllPages(kmap[..k]))
      {
        ok := MapRange(d, kmap, k, n);
        if !ok {
          return;
        }
        k := k + 1;
      }
      assert kmap[..k] == kmap;
      assert {} + Entries(AllPages(kmap)) == Entries(AllPages(kmap));
      ok := true;
    }

    /** A table or directory page goes back to the free list. */
    method ReleaseTable(t: nat)
      modifies this
      ensures M() == FreeTable(old(M()), t)
    {
      free := [t] + free;
      page := page[t := Junk];
      own := own - {t};
      tab := tab - {t};
    }

    /** copyuvm: a new address space with a copy of the user half of d, whose size is sz. */
    method CopyUvm(d: nat, sz: nat, kmap: seq<KRange>) returns (r: Option<nat>, ghost lost: nat)
      requires M().Ok() && M().IsDir(d) && sz <= KERNBASE && Prefix(M(), d, Pages(sz)) && KernelPages(AllPages(kmap))
      modifies this
      ensures M().Ok() && Kept(old(M()), M())
      ensures CopyResult(old(M()), M(), d, Pages(sz), Entries(AllPages(kmap)), r, lost)
    {
      lost := 0;
      ghost var m := M();
      r := SetupKvm(kmap);
      if r.Some? {
        CopyingNone(m, M(), d, r.value, AllPages(kmap), Pages(sz));
        hide Mem.Ok, Copying, Unchanged;
        var ok;
        ok, lost := CopyPages(d, r.value, sz, m);
        r := if ok then r else None;
      }
    }

    /** The loop of copyuvm. */
    method CopyPages(d: nat, e: nat, sz: nat, ghost m: Mem) returns (ok: bool, ghost lost: nat)
      requires sz <= KERNBASE && Copying(m, M(), d, e, 0, Pages(sz))
      modifies this
      ensures M().Ok() && Kept(m, M())
      ensures match Ahead(old(M()), e, 0, Pages(sz))
              case Room => ok && Copying(m, M(), d, e, Pages(sz), Pages(sz))
              case Short => !ok && Unchanged(m, M(), {})
              case Torn => !ok && Unchanged(m, M(), {lost})
    {
      ghost var f := Ahead(M(), e, 0, Pages(sz));
      var v := 0;
      while v * PGSIZE < sz
        invariant Copying(m, M(), d, e, v, Pages(sz)) && f == Ahead(M(), e, v, Pages(sz))
        decreases sz - v * PGSIZE
      {
        PagesAhead(sz, v);
        ghost var g := M();
        var i, j := v / NENTRIES, v % NENTRIES;
        var turn, l, c := CopyPage(d, e, i, j, v, Pages(sz), m);
        if !turn.Mapped? {
          GiveUp(d, e, v, Pages(sz), m, g, turn, l, c);
          return false, l;
        }
        v := v + 1;
      }
      PagesReached(sz, v);
      return true, 0;
    }

    /** One turn of the loop of copyuvm. */
    method CopyPage(d: nat, e: nat, i: nat, j: nat, ghost v: nat, ghost n: nat, ghost m: Mem) returns (turn: Turn,
        ghost lost: nat, ghost c: Content)
      requires Copying(m, M(), d, e, v, n) && v < n && v == NENTRIES * i + j && j < NENTRIES && i == v / NENTRIES
      modifies this
      ensures turn.Mapped? ==> Copying(m, M(), d, e, v + 1, n) && Ahead(M(), e, v + 1, n) == Ahead(old(M()), e, v, n)
      ensures turn.NoFrame? ==> M() == old(M()) && Ahead(M(), e, v, n) == Short
      ensures turn.Lost? ==> TookFrame(old(M()), M(), lost, c) && Ahead(old(M()), e, v, n) == Torn
    {
      ghost var g := M();
      CopyReady(m, g, d, e, v, n, i, j);
      var t := WalkPgdir(d, i, false);
      assert M() == g;
      var p := tab[t.value][j];
      var copy := if p.frame in page then page[p.frame] else Junk;
      hide Copying, Mem.Ok;
      c := copy;
      lost := 0;
      ForecastNow(g, e, v, n, i);
      var f := TakePage(copy);
      if f.None? {
        return NoFrame, 0, c;
      }
      lost := f.value;
      hide TookFrame;
      var ok := MapPage(e, i, j, f.value, p.flags, g, copy);
      if ok {
        hide TablesNow;
        CopyMore(m, g, M(), d, e, v, n, i, j, copy, p.flags);
        ForecastStep(g, M(), e, v, n, i);
      }
      turn := if ok then Mapped else Lost;
    }

    /** The failure path of copyuvm. */
    method GiveUp(d: nat, e: nat, ghost v: nat, ghost n: nat, ghost m: Mem, ghost g: Mem, ghost turn: Turn,
        ghost lost: nat, ghost c: Content)
      requires Copying(m, g, d, e, v, n) && M().Ok()
      requires if turn.Lost? then TookFrame(g, M(), lost, c) else M() == g
      modifies this
      ensures Unchanged(m, M(), if turn.Lost? then {lost} else {})
    {
      ghost var h := M();
      if turn.Lost? {
        TookPrefix(g, h, e, v, lost, c);
      }
      hide Copying;
      FreeVm(e, v);
      if turn.Lost? {
        CopyTorn(m, g, h, M(), d, e, v, n, lost, c);
      } else {
        CopyUndone(m, g, M(), d, e, v, n);
      }
    }

    /** growproc for a process of size sz: the result and the size it has afterwards.  The size matches
    the pages again unless the process shrinks to nothing, which is reported as a failure after the
    pages are gone, or growing leaves a hole. */
    method GrowProc(d: nat, sz: nat, n: int) returns (r: int, size: nat, ghost lost: nat)
      requires M().Ok() && M().IsDir(d) && sz < KERNBASE && Prefix(M(), d, Pages(sz)) && -KERNBASE <= n < KERNBASE
      modifies this
      ensures M().Ok() && M().IsDir(d) && (r == 0 || r == -1) && (r == -1 ==> size == sz)
      ensures 0 < n && sz + n < KERNBASE ==> Grown(old(M()), M(), d, Pages(sz), Pages(sz + n), r == 0, lost)
      ensures r == 0 && 0 < sz + n ==> size == sz + n
      ensures Prefix(M(), d, Pages(size)) <==> !(n < 0 && sz + n == 0) && !LeavesHole(old(M()), d, sz, n)
    {
      hide Mem.Frames, Mem.Tables, Mem.TableSizes, Mem.Linked, Prefix, Grown, LacksTable, TableSet, Shrunk;
      size, lost := sz, 0;
      ghost var m := M();
      if n > 0 {
        size, lost := AllocUvm(d, sz, sz + n);
        GrownPrefix(m, M(), d, Pages(sz), Pages(sz + n), size == sz + n, lost, sz + n < KERNBASE);
      } else if n < 0 {
        PagesOrder(if sz + n < 0 then 0 else sz + n, sz);
        size := DeallocUvm(d, sz, if sz + n >= 0 then sz + n else sz + n + 2 * KERNBASE, Pages(sz));
        if sz + n == 0 {
          OnePrefix(M(), d, 0, Pages(sz));
        }
      }
      if n != 0 && size == 0 {
        return -1, sz, lost;
      }
      r := 0;
    }
  }

  // ----- Runs that lose frames -----

  /** With frames for the kernel's tables and two more, the first page of a process gets the last frame
  and loses it: allocuvm reports success, and no page is there. */
  method TornRun(data: nat) returns (vm: Vm, d: nat, r: nat, ghost lost: nat)
    requires KERNPAGE + EXTPAGE < data < KERNPAGE + TOP
    ensures vm.M().Ok() && vm.M().IsDir(d) && r == PGSIZE && Prefix(vm.M(), d, 0)
    ensures lost in vm.own && vm.own[lost] == Loose
  {
    hide Kmap, AllPages, Entries, KernelPages, Mem.Ok, Prefix;
    KmapOk(data);
    KmapEntries(data);
    vm := new Vm(TOP - 42);
    var s := vm.SetupKvm(Kmap(data));
    d := s.value;
    FirstPageTears(vm.M(), d);
    r, lost := vm.AllocUvm(d, 0, PGSIZE);
  }

  /** With one frame too few for the kernel's tables, setupkvm fails and has taken all there were. */
  method SetupFails(data: nat) returns (vm: Vm, r: Option<nat>)
    requires KERNPAGE + EXTPAGE < data < KERNPAGE + TOP
    ensures r.None? && vm.free == [] && vm.first == TOP - 40
  {
    hide Kmap, AllPages, Entries, KernelPages, Mem.Ok, Prefix;
    KmapOk(data);
    KmapEntries(data);
    vm := new Vm(TOP - 40);
    r := vm.SetupKvm(Kmap(data));
  }

  /** A process of one page, and frames for the tables of a second kernel map and one more: copyuvm fails
  and the frame for the page is lost. */
  method CopyLoses(data: nat) returns (vm: Vm, d: nat, r: Option<nat>, ghost lost: nat)
    requires KERNPAGE + EXTPAGE < data < KERNPAGE + TOP
    ensures vm.M().Ok() && vm.M().IsDir(d) && r.None? && lost in vm.own && vm.own[lost] == Loose
  {
    hide Kmap, AllPages, Entries, KernelPages, Mem.Ok, Prefix, Copying, Grew;
    var kmap := Kmap(data);
    KmapOk(data);
    KmapEntries(data);
    vm := new Vm(TOP - 85);
    var s := vm.SetupKvm(kmap);
    d := s.value;
    FirstPageFits(vm.M(), d);
    var size, l := vm.AllocUvm(d, 0, PGSIZE);
    CopyTears(vm.M(), Entries(AllPages(kmap)));
    ghost var m := vm.M();
    r, lost := vm.CopyUvm(d, PGSIZE, kmap);
    assert KeepsAt(m, vm.M(), d, 0, 0);
  }
}
