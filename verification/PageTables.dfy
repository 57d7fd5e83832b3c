/** Physical frames and two-level page tables as values: which frame is used for what, and what each
change to a table does to that. */
module PageTables {
  /** Directory and table entries; pages below the 512th directory entry are the user half. */
  const NENTRIES := 1024
  const NUSER := 512

  /** One past the last frame of physical memory. */
  const TOP := 0x8000

  datatype Pte = Absent | Present(frame: nat, flags: nat)

  /** The use of a frame that is not free: not in any table, a directory, the page table of the i-th
  entry of directory d, or the user page at entry j of that table. */
  datatype Use = Loose | Dir | Table(d: nat, i: nat) | User(d: nat, i: nat, j: nat)

  datatype Content = Zero | Junk | Bytes(b: seq<int>)

  datatype Mem = Mem(first: nat, free: seq<nat>, tab: map<nat, seq<Pte>>, own: map<nat, Use>, page: map<nat, Content>) {
    /** Every frame is on the free list once, or in use. */
    ghost predicate Frames() {
      && (forall f {:trigger f in own} {:trigger f in free} :: f in free || f in own <==> first <= f < TOP)
      && (forall f :: f in own ==> f !in free)
      && (forall a, b :: 0 <= a < b < |free| ==> free[a] != free[b])
    }

    ghost predicate Tables() {
      forall f :: f in tab <==> f in own && (own[f].Dir? || own[f].Table?)
    }

    ghost predicate TableSizes() {
      forall f :: f in tab ==> |tab[f]| == NENTRIES
    }

    predicate IsDir(d: nat) {
      d in own && own[d] == Dir && d in tab && |tab[d]| == NENTRIES
    }

    predicate IsTable(t: nat, d: nat, i: nat) {
      t in own && own[t] == Table(d, i) && t in tab && |tab[t]| == NENTRIES
    }

    /** A directory entry leads to the page table in use there. */
    ghost predicate EntryAt(d: nat, i: nat)
      requires IsDir(d) && i < NENTRIES
    {
      tab[d][i].Present? ==> IsTable(tab[d][i].frame, d, i)
    }

    /** The entry of page (i, j) of the address space d. */
    function Lookup(d: nat, i: nat, j: nat): Pte
      requires IsDir(d) && i < NENTRIES && j < NENTRIES
    {
      if tab[d][i].Present? && IsTable(tab[d][i].frame, d, i) then tab[tab[d][i].frame][j] else Absent
    }

    /** A user page leads to a frame in use for it. */
    ghost predicate LeafAt(d: nat, i: nat, j: nat)
      requires IsDir(d) && i < NUSER && j < NENTRIES
    {
      var p := Lookup(d, i, j);
      p.Present? ==> p.frame in own && own[p.frame] == User(d, i, j)
    }

    /** A frame in use as a page table or user page is reachable where it says. */
    ghost predicate UseAt(f: nat)
      requires f in own
    {
      match own[f]
      case Table(d, i) => IsDir(d) && i < NENTRIES && tab[d][i].Present? && tab[d][i].frame == f
      case User(d, i, j) => IsDir(d) && i < NUSER && j < NENTRIES && Lookup(d, i, j).Present? && Lookup(d, i, j).frame == f
      case _ => true
    }

    ghost predicate Linked() {
      && (forall d, i {:trigger EntryAt(d, i)} :: IsDir(d) && 0 <= i < NENTRIES ==> EntryAt(d, i))
      && (forall d, i, j {:trigger LeafAt(d, i, j)} :: IsDir(d) && 0 <= i < NUSER && 0 <= j < NENTRIES ==> LeafAt(d, i, j))
      && (forall f {:trigger UseAt(f)} :: f in own ==> UseAt(f))
    }

    ghost predicate Ok() {
      Frames() && Tables() && TableSizes() && Linked()
    }
  }

  /** The user half of d is exactly its first n pages. */
  ghost predicate Prefix(m: Mem, d: nat, n: nat)
    requires m.IsDir(d)
  {
    n <= NUSER * NENTRIES && forall i, j :: 0 <= i < NUSER && 0 <= j < NENTRIES ==>
      (m.Lookup(d, i, j).Present? <==> NENTRIES * i + j < n)
  }

  // ----- Frames -----

  function Kalloc(m: Mem): Mem
    requires m.free != []
  {
    m.(free := m.free[1..], own := m.own[m.free[0] := Loose], page := m.page[m.free[0] := Junk])
  }

  lemma KallocFrames(m: Mem)
    requires m.Frames() && m.free != []
    ensures Kalloc(m).Frames()
  {
    var g := Kalloc(m);
    var f := m.free[0];
    assert m.free == [f] + g.free;
    forall x ensures x in g.free || x in g.own <==> g.first <= x < TOP {
      assert x in m.free || x in m.own <==> m.first <= x < TOP;
    }
    assert forall k :: 0 <= k < |g.free| ==> g.free[k] == m.free[k + 1];
    forall x | x in g.own ensures x !in g.free {
      assert x == f || x in m.own;
    }
  }

  /** Nothing that tables and their frames say changes. */
  lemma SameLinks(m: Mem, g: Mem, f: nat)
    requires m.Tables() && m.TableSizes() && m.Linked() && g.tab == m.tab
    requires if f in m.own then m.own[f] == Loose && g.own == m.own - {f} else g.own == m.own[f := Loose]
    ensures g.Tables() && g.TableSizes() && g.Linked()
  {
    forall d, i | g.IsDir(d) && 0 <= i < NENTRIES ensures g.EntryAt(d, i) {
      assert m.EntryAt(d, i);
    }
    forall d, i, j | g.IsDir(d) && 0 <= i < NUSER && 0 <= j < NENTRIES ensures g.LeafAt(d, i, j) {
      assert m.LeafAt(d, i, j) && m.EntryAt(d, i);
    }
    forall x | x in g.own ensures g.UseAt(x) {
      if x != f {
        assert m.UseAt(x);
      }
    }
  }

  lemma KallocOk(m: Mem)
    requires m.Ok() && m.free != []
    ensures Kalloc(m).Ok()
  {
    hide Mem.Tables, Mem.TableSizes, Mem.Linked;
    KallocFrames(m);
    SameLinks(m, Kalloc(m), m.free[0]);
  }

  function Kfree(m: Mem, f: nat): Mem {
    m.(free := [f] + m.free, own := m.own - {f}, page := m.page[f := Junk])
  }

  lemma KfreeFrames(m: Mem, f: nat)
    requires m.Frames() && f in m.own
    ensures Kfree(m, f).Frames()
  {
    var g := Kfree(m, f);
    forall x ensures x in g.free || x in g.own <==> g.first <= x < TOP {
      assert x in m.free || x in m.own <==> m.first <= x < TOP;
      assert x in g.free <==> x == f || x in m.free;
    }
    forall x | x in g.own ensures x !in g.free {
      assert x in m.own;
    }
  }

  lemma KfreeOk(m: Mem, f: nat)
    requires m.Ok() && f in m.own && m.own[f] == Loose
    ensures Kfree(m, f).Ok()
  {
    hide Mem.Tables, Mem.TableSizes, Mem.Linked;
    KfreeFrames(m, f);
    SameLinks(m, Kfree(m, f), f);
  }

  // ----- Tables -----

  function EmptyTable(): (s: seq<Pte>)
    ensures |s| == NENTRIES && forall k :: 0 <= k < NENTRIES ==> s[k] == Absent
  {
    seq(NENTRIES, k => Absent)
  }

  /** The loose frame t becomes the page table of entry i of d. */
  function AddTable(m: Mem, d: nat, i: nat, t: nat, flags: nat): Mem
    requires m.IsDir(d) && i < NENTRIES
  {
    m.(own := m.own[t := Table(d, i)],
      tab := m.tab[t := EmptyTable()][d := m.tab[d][i := Present(t, flags)]],
      page := m.page[t := Zero])
  }

  lemma AddTableOk(m: Mem, d: nat, i: nat, t: nat, flags: nat)
    requires m.Ok() && m.IsDir(d) && i < NENTRIES && m.tab[d][i].Absent? && t in m.own && m.own[t] == Loose
    ensures AddTable(m, d, i, t, flags).Ok()
    ensures var g := AddTable(m, d, i, t, flags); g.IsDir(d) && g.IsTable(t, d, i)
  {
    var g := AddTable(m, d, i, t, flags);
    forall e, k | g.IsDir(e) && 0 <= k < NENTRIES ensures g.EntryAt(e, k) {
      assert m.EntryAt(e, k);
    }
    forall e, k, j | g.IsDir(e) && 0 <= k < NUSER && 0 <= j < NENTRIES ensures g.LeafAt(e, k, j) {
      assert m.LeafAt(e, k, j) && m.EntryAt(e, k);
    }
    forall x | x in g.own ensures g.UseAt(x) {
      if x != t {
        assert m.UseAt(x);
      }
    }
  }

  ghost predicate KeepsAt(m: Mem, g: Mem, e: nat, k: nat, l: nat)
    requires m.IsDir(e) && k < NENTRIES && l < NENTRIES
  {
    g.IsDir(e) && g.Lookup(e, k, l) == m.Lookup(e, k, l)
  }

  /** Every address space maps what it did, except perhaps page (i, j) of d. */
  ghost predicate SameElsewhere(m: Mem, g: Mem, d: nat, i: nat, j: nat) {
    && m.IsDir(d) && g.IsDir(d)
    && forall e, k, l {:trigger KeepsAt(m, g, e, k, l)} ::
      m.IsDir(e) && 0 <= k < NENTRIES && 0 <= l < NENTRIES && !(e == d && k == i && l == j) ==> KeepsAt(m, g, e, k, l)
  }

  /** Every address space maps what it did. */
  ghost predicate SameMaps(m: Mem, g: Mem) {
    forall e, k, l {:trigger KeepsAt(m, g, e, k, l)} ::
      m.IsDir(e) && 0 <= k < NENTRIES && 0 <= l < NENTRIES ==> KeepsAt(m, g, e, k, l)
  }

  lemma AddTableMaps(m: Mem, d: nat, i: nat, t: nat, flags: nat)
    requires m.Ok() && m.IsDir(d) && i < NENTRIES && m.tab[d][i].Absent? && t in m.own && m.own[t] == Loose
    ensures SameMaps(m, AddTable(m, d, i, t, flags))
  {
    var g := AddTable(m, d, i, t, flags);
    forall e, k, l | m.IsDir(e) && 0 <= k < NENTRIES && 0 <= l < NENTRIES ensures KeepsAt(m, g, e, k, l) {
      assert m.EntryAt(e, k);
    }
  }

  /** The page table of entry i. */
  function TableOf(m: Mem, d: nat, i: nat): nat
    requires m.IsDir(d) && i < NENTRIES && m.tab[d][i].Present?
  {
    m.tab[d][i].frame
  }

  /** The loose frame f becomes page (i, j) of d. */
  function MapUser(m: Mem, d: nat, i: nat, j: nat, f: nat, flags: nat): Mem
    requires m.IsDir(d) && i < NENTRIES && m.tab[d][i].Present? && m.IsTable(TableOf(m, d, i), d, i) && j < NENTRIES
  {
    var t := TableOf(m, d, i);
    m.(own := m.own[f := User(d, i, j)], tab := m.tab[t := m.tab[t][j := Present(f, flags)]])
  }

  lemma MapUserOk(m: Mem, d: nat, i: nat, j: nat, f: nat, flags: nat)
    requires m.Ok() && m.IsDir(d) && i < NUSER && m.tab[d][i].Present? && m.IsTable(TableOf(m, d, i), d, i)
    requires j < NENTRIES
    requires m.Lookup(d, i, j).Absent? && f in m.own && m.own[f] == Loose
    ensures MapUser(m, d, i, j, f, flags).Ok()
  {
    var g := MapUser(m, d, i, j, f, flags);
    forall e, k | g.IsDir(e) && 0 <= k < NENTRIES ensures g.EntryAt(e, k) {
      assert m.EntryAt(e, k);
    }
    forall e, k, l | g.IsDir(e) && 0 <= k < NUSER && 0 <= l < NENTRIES ensures g.LeafAt(e, k, l) {
      assert m.LeafAt(e, k, l) && m.EntryAt(e, k);
    }
    forall x | x in g.own ensures g.UseAt(x) {
      if x != f {
        assert m.UseAt(x);
      }
    }
  }

  lemma MapUserMaps(m: Mem, d: nat, i: nat, j: nat, f: nat, flags: nat)
    requires m.Ok() && m.IsDir(d) && i < NUSER && m.tab[d][i].Present? && m.IsTable(TableOf(m, d, i), d, i)
    requires j < NENTRIES
    requires f in m.own && m.own[f] == Loose
    ensures var g := MapUser(m, d, i, j, f, flags);
      SameElsewhere(m, g, d, i, j) && g.IsDir(d) && g.Lookup(d, i, j) == Present(f, flags)
  {
    var g := MapUser(m, d, i, j, f, flags);
    forall e, k, l | m.IsDir(e) && 0 <= k < NENTRIES && 0 <= l < NENTRIES && !(e == d && k == i && l == j)
      ensures KeepsAt(m, g, e, k, l)
    {
      assert m.EntryAt(e, k);
    }
  }

  /** A kernel page is entered in the table; the frame it leads to belongs to no table. */
  function MapKernel(m: Mem, d: nat, i: nat, j: nat, f: nat, flags: nat): Mem
    requires m.IsDir(d) && i < NENTRIES && m.tab[d][i].Present? && m.IsTable(TableOf(m, d, i), d, i) && j < NENTRIES
  {
    var t := TableOf(m, d, i);
    m.(tab := m.tab[t := m.tab[t][j := Present(f, flags)]])
  }

  lemma MapKernelOk(m: Mem, d: nat, i: nat, j: nat, f: nat, flags: nat)
    requires m.Ok() && m.IsDir(d) && NUSER <= i < NENTRIES && m.tab[d][i].Present? && m.IsTable(TableOf(m, d, i), d, i)
    requires j < NENTRIES
    ensures MapKernel(m, d, i, j, f, flags).Ok()
  {
    var g := MapKernel(m, d, i, j, f, flags);
    forall e, k | g.IsDir(e) && 0 <= k < NENTRIES ensures g.EntryAt(e, k) {
      assert m.EntryAt(e, k);
    }
    forall e, k, l | g.IsDir(e) && 0 <= k < NUSER && 0 <= l < NENTRIES ensures g.LeafAt(e, k, l) {
      assert m.LeafAt(e, k, l) && m.EntryAt(e, k);
    }
    forall x | x in g.own ensures g.UseAt(x) {
      assert m.UseAt(x);
    }
  }

  lemma MapKernelMaps(m: Mem, d: nat, i: nat, j: nat, f: nat, flags: nat)
    requires m.Ok() && m.IsDir(d) && NUSER <= i < NENTRIES && m.tab[d][i].Present? && m.IsTable(TableOf(m, d, i), d, i)
    requires j < NENTRIES
    ensures var g := MapKernel(m, d, i, j, f, flags);
      SameElsewhere(m, g, d, i, j) && g.IsDir(d) && g.Lookup(d, i, j) == Present(f, flags)
  {
    var g := MapKernel(m, d, i, j, f, flags);
    forall e, k, l | m.IsDir(e) && 0 <= k < NENTRIES && 0 <= l < NENTRIES && !(e == d && k == i && l == j)
      ensures KeepsAt(m, g, e, k, l)
    {
      assert m.EntryAt(e, k);
    }
  }

  /** User page (i, j) of d is taken out and its frame freed. */
  function Unmap(m: Mem, d: nat, i: nat, j: nat): Mem
    requires m.IsDir(d) && i < NENTRIES && j < NENTRIES && m.Lookup(d, i, j).Present?
  {
    var t := TableOf(m, d, i);
    Kfree(m, m.Lookup(d, i, j).frame).(tab := m.tab[t := m.tab[t][j := Absent]])
  }

  lemma SameFrames(m: Mem, g: Mem)
    requires m.Frames() && g.first == m.first && g.free == m.free && g.own == m.own
    ensures g.Frames()
  {
  }

  lemma UnmapOk(m: Mem, d: nat, i: nat, j: nat)
    requires m.Ok() && m.IsDir(d) && i < NUSER && j < NENTRIES && m.Lookup(d, i, j).Present?
    ensures Unmap(m, d, i, j).Ok()
  {
    hide Mem.Frames;
    var g := Unmap(m, d, i, j);
    var f := m.Lookup(d, i, j).frame;
    assert m.LeafAt(d, i, j);
    KfreeFrames(m, f);
    SameFrames(Kfree(m, f), g);
    forall e, k | g.IsDir(e) && 0 <= k < NENTRIES ensures g.EntryAt(e, k) {
      assert m.EntryAt(e, k);
    }
    forall e, k, l | g.IsDir(e) && 0 <= k < NUSER && 0 <= l < NENTRIES ensures g.LeafAt(e, k, l) {
      assert m.LeafAt(e, k, l) && m.EntryAt(e, k);
    }
    forall x | x in g.own ensures g.UseAt(x) {
      assert m.UseAt(x);
    }
  }

  lemma UnmapMaps(m: Mem, d: nat, i: nat, j: nat)
    requires m.Ok() && m.IsDir(d) && i < NUSER && j < NENTRIES && m.Lookup(d, i, j).Present?
    ensures var g := Unmap(m, d, i, j); SameElsewhere(m, g, d, i, j) && g.IsDir(d) && g.Lookup(d, i, j) == Absent
  {
    var g := Unmap(m, d, i, j);
    assert m.LeafAt(d, i, j);
    forall e, k, l | m.IsDir(e) && 0 <= k < NENTRIES && 0 <= l < NENTRIES && !(e == d && k == i && l == j)
      ensures KeepsAt(m, g, e, k, l)
    {
      assert m.EntryAt(e, k);
    }
  }

  // ----- What a change leaves alone -----

  function PageOf(m: Mem, f: nat): Content {
    if f in m.page then m.page[f] else Junk
  }

  /** Frames in use stay in the same use with the same contents. */
  ghost predicate Kept(m: Mem, g: Mem) {
    g.first == m.first && forall f :: f in m.own ==> f in g.own && g.own[f] == m.own[f] && PageOf(g, f) == PageOf(m, f)
  }

  predicate Belongs(u: Use, d: nat) {
    match u
    case Table(e, _) => e == d
    case User(e, _, _) => e == d
    case _ => false
  }

  /** Frames newly in use are tables or user pages of d. */
  ghost predicate NewFor(m: Mem, g: Mem, d: nat) {
    forall f :: f in g.own && f !in m.own ==> Belongs(g.own[f], d)
  }

  /** Page (i, j) of d is new, on a frame that was free; nothing else changed hands. */
  ghost predicate Added(m: Mem, g: Mem, d: nat, i: nat, j: nat, c: Content, flags: nat) {
    && i < NUSER && j < NENTRIES && g.Ok() && SameElsewhere(m, g, d, i, j) && Kept(m, g) && NewFor(m, g, d)
    && g.Lookup(d, i, j).Present? && g.Lookup(d, i, j).flags == flags
    && g.Lookup(d, i, j).frame !in m.own && PageOf(g, g.Lookup(d, i, j).frame) == c
  }

  predicate InWindow(a: nat, b: nat, k: nat, l: nat) {
    a <= NENTRIES * k + l < b
  }

  /** The frames of `lost` were free and are in use without being in any table. */
  ghost predicate NowLoose(m: Mem, g: Mem, lost: set<nat>) {
    forall f :: f in lost ==> f in g.own && g.own[f] == Loose && f !in m.own
  }

  ghost predicate NewPage(m: Mem, g: Mem, d: nat, k: nat, l: nat, flags: nat)
    requires g.IsDir(d) && k < NENTRIES && l < NENTRIES
  {
    var p := g.Lookup(d, k, l);
    p.Present? && p.flags == flags && p.frame !in m.own && PageOf(g, p.frame) == Zero
  }

  /** The pages of d from a to b are new and zero; nothing else changed, except for the frames lost. */
  ghost predicate Grew(m: Mem, g: Mem, d: nat, a: nat, b: nat, flags: nat, lost: set<nat>) {
    && a <= b && m.IsDir(d) && g.IsDir(d) && g.Ok() && Kept(m, g) && NowLoose(m, g, lost)
    && (forall f :: f in g.own && f !in m.own && f !in lost ==> Belongs(g.own[f], d))
    && (forall e, k, l {:trigger KeepsAt(m, g, e, k, l)} ::
          m.IsDir(e) && 0 <= k < NENTRIES && 0 <= l < NENTRIES && !(e == d && InWindow(a, b, k, l)) ==>
            KeepsAt(m, g, e, k, l))
    && (forall k, l {:trigger NewPage(m, g, d, k, l, flags)} ::
          0 <= k < NENTRIES && 0 <= l < NENTRIES && InWindow(a, b, k, l) ==> NewPage(m, g, d, k, l, flags))
  }

  lemma GrewNone(m: Mem, d: nat, a: nat, flags: nat)
    requires m.Ok() && m.IsDir(d)
    ensures Grew(m, m, d, a, a, flags, {})
  {
    forall e, k, l | m.IsDir(e) && 0 <= k < NENTRIES && 0 <= l < NENTRIES ensures KeepsAt(m, m, e, k, l) {
    }
  }

  lemma GrewMore(m: Mem, g: Mem, h: Mem, d: nat, a: nat, b: nat, i: nat, j: nat, flags: nat)
    requires Grew(m, g, d, a, b, flags, {}) && Added(g, h, d, i, j, Zero, flags) && b == NENTRIES * i + j
    ensures Grew(m, h, d, a, b + 1, flags, {})
  {
    forall e, k, l | m.IsDir(e) && 0 <= k < NENTRIES && 0 <= l < NENTRIES && !(e == d && InWindow(a, b + 1, k, l))
      ensures KeepsAt(m, h, e, k, l)
    {
      assert KeepsAt(m, g, e, k, l) && KeepsAt(g, h, e, k, l);
    }
    forall k, l | 0 <= k < NENTRIES && 0 <= l < NENTRIES && InWindow(a, b + 1, k, l)
      ensures NewPage(m, h, d, k, l, flags)
    {
      if !(k == i && l == j) {
        assert NewPage(m, g, d, k, l, flags) && KeepsAt(g, h, d, k, l);
        assert k < NUSER;
        assert g.LeafAt(d, k, l);
      }
    }
  }

  /** Growing a prefix gives a longer prefix. */
  lemma GrewPrefix(m: Mem, g: Mem, d: nat, a: nat, b: nat, flags: nat, lost: set<nat>)
    requires m.IsDir(d) && Prefix(m, d, a) && Grew(m, g, d, a, b, flags, lost) && b <= NUSER * NENTRIES
    ensures Prefix(g, d, b)
  {
    forall k, l | 0 <= k < NUSER && 0 <= l < NENTRIES ensures g.Lookup(d, k, l).Present? <==> NENTRIES * k + l < b {
      if InWindow(a, b, k, l) {
        assert NewPage(m, g, d, k, l, flags);
      } else {
        assert KeepsAt(m, g, d, k, l);
      }
    }
  }

  // ----- Adding a page -----

  predicate HasTable(m: Mem, d: nat, i: nat)
    requires m.IsDir(d)
  {
    i < NENTRIES && m.tab[d][i].Present?
  }

  /** m with the contents of frame f set. */
  function Fill(m: Mem, f: nat, c: Content): Mem {
    m.(page := m.page[f := c])
  }

  lemma FillOk(m: Mem, f: nat, c: Content)
    requires m.Ok()
    ensures Fill(m, f, c).Ok()
  {
    var g := Fill(m, f, c);
    forall e, k | g.IsDir(e) && 0 <= k < NENTRIES ensures g.EntryAt(e, k) {
      assert m.EntryAt(e, k);
    }
    forall e, k, l | g.IsDir(e) && 0 <= k < NUSER && 0 <= l < NENTRIES ensures g.LeafAt(e, k, l) {
      assert m.LeafAt(e, k, l);
    }
    forall x | x in g.own ensures g.UseAt(x) {
      assert m.UseAt(x);
    }
  }

  /** A free frame taken and filled, not yet in any table. */
  ghost predicate TookFrame(m: Mem, g: Mem, f: nat, c: Content) {
    && m.free != [] && f == m.free[0] && g.Ok() && SameMaps(m, g) && Kept(m, g)
    && f in g.own && g.own[f] == Loose && PageOf(g, f) == c
    && (forall x :: x in g.own ==> x == f || x in m.own) && f !in m.own && g.free == m.free[1..] && g.tab == m.tab
  }

  lemma TakeFrame(m: Mem, c: Content)
    requires m.Ok() && m.free != []
    ensures TookFrame(m, Fill(Kalloc(m), m.free[0], c), m.free[0], c)
  {
    var f := m.free[0];
    var g := Kalloc(m);
    KallocOk(m);
    FillOk(g, f, c);
    var h := Fill(g, f, c);
    forall e, k, l | m.IsDir(e) && 0 <= k < NENTRIES && 0 <= l < NENTRIES ensures KeepsAt(m, h, e, k, l) {
      assert m.EntryAt(e, k);
    }
  }

  ghost predicate TookTable(m: Mem, g: Mem, d: nat, i: nat) {
    && m.free != [] && g.Ok() && m.IsDir(d) && g.IsDir(d) && SameMaps(m, g) && Kept(m, g) && NewFor(m, g, d)
    && g.free == m.free[1..]
    && HasTable(g, d, i) && g.IsTable(TableOf(g, d, i), d, i)
    && (forall k :: 0 <= k < NENTRIES && k != i ==> g.tab[d][k] == m.tab[d][k])
  }

  /** walkpgdir makes a table for entry i of d. */
  lemma TakeTable(m: Mem, d: nat, i: nat, flags: nat)
    requires m.Ok() && m.free != [] && m.IsDir(d) && i < NENTRIES && m.tab[d][i].Absent?
    ensures var g := AddTable(Kalloc(m), d, i, m.free[0], flags); TookTable(m, g, d, i) && TableOf(g, d, i) == m.free[0]
  {
    var n := Kalloc(m);
    var t := m.free[0];
    KallocOk(m);
    AddTableOk(n, d, i, t, flags);
    AddTableMaps(n, d, i, t, flags);
    var g := AddTable(n, d, i, t, flags);
    forall e, k, l | m.IsDir(e) && 0 <= k < NENTRIES && 0 <= l < NENTRIES ensures KeepsAt(m, g, e, k, l) {
      assert m.EntryAt(e, k) && KeepsAt(n, g, e, k, l);
    }
  }

  /** The table for entry i of d is there, found or made. */
  ghost predicate Walked(m: Mem, g: Mem, d: nat, i: nat) {
    if m.IsDir(d) && HasTable(m, d, i) then g == m else TookTable(m, g, d, i)
  }

  /** The frame f for page (i, j) of d has been taken and the table it goes in is there. */
  ghost predicate ReadyFor(m: Mem, o: Mem, d: nat, i: nat, j: nat, f: nat, c: Content) {
    && i < NUSER && j < NENTRIES && o.Ok() && m.IsDir(d) && o.IsDir(d) && SameMaps(m, o) && Kept(m, o)
    && HasTable(o, d, i) && o.IsTable(TableOf(o, d, i), d, i) && o.Lookup(d, i, j).Absent?
    && f in o.own && o.own[f] == Loose && f !in m.own && PageOf(o, f) == c
    && forall x :: x in o.own ==> x in m.own || x == f || Belongs(o.own[x], d)
  }

  lemma SameTwice(m: Mem, n: Mem, o: Mem)
    requires SameMaps(m, n) && SameMaps(n, o)
    ensures SameMaps(m, o)
  {
    forall e, k, l | m.IsDir(e) && 0 <= k < NENTRIES && 0 <= l < NENTRIES ensures KeepsAt(m, o, e, k, l) {
      assert KeepsAt(m, n, e, k, l) && KeepsAt(n, o, e, k, l);
    }
  }

  lemma FrameReady(m: Mem, n: Mem, o: Mem, d: nat, i: nat, j: nat, f: nat, c: Content)
    requires m.Ok() && m.IsDir(d) && i < NUSER && j < NENTRIES && m.Lookup(d, i, j).Absent?
    requires TookFrame(m, n, f, c) && Walked(n, o, d, i)
    ensures ReadyFor(m, o, d, i, j, f, c)
  {
    assert n.EntryAt(d, i) && KeepsAt(m, n, d, i, j);
    if n != o {
      assert KeepsAt(n, o, d, i, j);
      SameTwice(m, n, o);
    }
  }

  lemma AddPage(m: Mem, o: Mem, d: nat, i: nat, j: nat, f: nat, c: Content, flags: nat)
    requires ReadyFor(m, o, d, i, j, f, c)
    ensures var g := MapUser(o, d, i, j, f, flags); Added(m, g, d, i, j, c, flags) && g.free == o.free && g.tab[d] == o.tab[d]
  {
    MapUserOk(o, d, i, j, f, flags);
    MapUserMaps(o, d, i, j, f, flags);
    var g := MapUser(o, d, i, j, f, flags);
    hide Mem.Ok;
    forall e, k, l | m.IsDir(e) && 0 <= k < NENTRIES && 0 <= l < NENTRIES && !(e == d && k == i && l == j)
      ensures KeepsAt(m, g, e, k, l)
    {
      assert KeepsAt(m, o, e, k, l) && KeepsAt(o, g, e, k, l);
    }
  }

  function TableSet(m: Mem, d: nat): set<nat>
    requires m.IsDir(d)
  {
    set k | 0 <= k < NENTRIES && m.tab[d][k].Present?
  }

  /** The frames left and the tables of d after one page has been entered under entry i. */
  ghost predicate TablesNow(m: Mem, g: Mem, d: nat, i: nat) {
    && m.IsDir(d) && g.IsDir(d)
    && |g.free| == |m.free| - (if HasTable(m, d, i) then 1 else 2)
    && TableSet(g, d) == TableSet(m, d) + {i}
  }

  lemma TablesAfter(m: Mem, n: Mem, o: Mem, d: nat, i: nat, f: nat, c: Content)
    requires m.IsDir(d) && i < NENTRIES && TookFrame(m, n, f, c) && Walked(n, o, d, i) && o.IsDir(d)
    ensures TablesNow(m, o, d, i)
  {
    hide Mem.Ok, SameMaps, Kept, NewFor;
    assert TableSet(o, d) == TableSet(m, d) + {i};
  }

  lemma PageEntered(m: Mem, n: Mem, o: Mem, d: nat, i: nat, j: nat, f: nat, c: Content, flags: nat)
    requires m.Ok() && m.IsDir(d) && i < NUSER && j < NENTRIES && m.Lookup(d, i, j).Absent?
    requires TookFrame(m, n, f, c) && Walked(n, o, d, i)
    ensures o.IsDir(d) && HasTable(o, d, i) && o.IsTable(TableOf(o, d, i), d, i)
    ensures var g := MapUser(o, d, i, j, f, flags); Added(m, g, d, i, j, c, flags) && TablesNow(m, g, d, i)
  {
    FrameReady(m, n, o, d, i, j, f, c);
    AddPage(m, o, d, i, j, f, c, flags);
    TablesAfter(m, n, o, d, i, f, c);
    hide Mem.Ok, Added, SameMaps, Kept, NewFor, TookFrame, Walked;
  }

  /** Growing, and then a frame taken that gets into no table. */
  lemma GrewThenLost(m: Mem, n: Mem, g: Mem, d: nat, a: nat, b: nat, flags: nat, f: nat, c: Content)
    requires Grew(m, n, d, a, b, flags, {}) && TookFrame(n, g, f, c) && b <= NUSER * NENTRIES
    ensures Grew(m, g, d, a, b, flags, {f})
  {
    forall e, k, l | m.IsDir(e) && 0 <= k < NENTRIES && 0 <= l < NENTRIES && !(e == d && InWindow(a, b, k, l))
      ensures KeepsAt(m, g, e, k, l)
    {
      assert KeepsAt(m, n, e, k, l) && KeepsAt(n, g, e, k, l);
    }
    assert KeepsAt(n, g, d, 0, 0);
    forall k, l | 0 <= k < NENTRIES && 0 <= l < NENTRIES && InWindow(a, b, k, l) ensures NewPage(m, g, d, k, l, flags) {
      assert NewPage(m, n, d, k, l, flags) && KeepsAt(n, g, d, k, l);
      assert n.LeafAt(d, k, l);
    }
  }

  // ----- Whether growing succeeds -----

  /** What allocuvm will meet: room for every page, too few frames, or one frame left when it needs one
  for the page and one for its table. */
  datatype Forecast = Room | Short | Torn

  /** tables: the directory entries that have a page table; frames: the length of the free list. */
  function Forecasted(tables: set<nat>, v: nat, end: nat, frames: nat): Forecast
    decreases end - v
  {
    if v >= end then Room
    else if frames == 0 then Short
    else if v / NENTRIES in tables then Forecasted(tables, v + 1, end, frames - 1)
    else if frames == 1 then Torn
    else Forecasted(tables + {v / NENTRIES}, v + 1, end, frames - 2)
  }

  /** The directory entries without a table that pages a to b lie under. */
  function Missing(tables: set<nat>, a: nat, b: nat): set<nat> {
    set k: nat | k < b && a / NENTRIES <= k <= (b - 1) / NENTRIES && a < b && k !in tables
  }

  lemma MissingLast(tables: set<nat>, a: nat, v: nat)
    requires a <= v
    ensures Missing(tables, a, v + 1) == Missing(tables, a, v) + ({v / NENTRIES} - tables)
  {
    var now, i := Missing(tables, a, v + 1), v / NENTRIES;
    forall x ensures x in now <==> x in Missing(tables, a, v) || (x == i && i !in tables) {
    }
  }

  /** From m on, a frame was spent on each page of d from a to v and on each table that was missing. */
  ghost predicate Spent(m: Mem, g: Mem, d: nat, a: nat, v: nat) {
    && a <= v && m.IsDir(d) && g.IsDir(d)
    && var more := Missing(TableSet(m, d), a, v);
    TableSet(g, d) == TableSet(m, d) + more && |m.free| == |g.free| + (v - a) + |more|
  }

  lemma InTableSet(m: Mem, d: nat, i: nat)
    requires m.IsDir(d) && i < NENTRIES
    ensures i in TableSet(m, d) <==> HasTable(m, d, i)
  {
  }

  lemma OneTableMore(tables: set<nat>, more: set<nat>, i: nat)
    ensures tables + more + {i} == tables + (more + ({i} - tables))
    ensures |more + ({i} - tables)| == |more| + if i in tables + more then 0 else 1
  {
    if i in tables + more {
      assert more + ({i} - tables) == more;
    } else {
      assert more + ({i} - tables) == more + {i};
    }
  }

  lemma SpentMore(m: Mem, g: Mem, h: Mem, d: nat, a: nat, v: nat, i: nat)
    requires Spent(m, g, d, a, v) && TablesNow(g, h, d, i) && i == v / NENTRIES && i < NENTRIES
    ensures Spent(m, h, d, a, v + 1)
  {
    hide Missing, TableSet;
    MissingLast(TableSet(m, d), a, v);
    InTableSet(g, d, i);
    OneTableMore(TableSet(m, d), Missing(TableSet(m, d), a, v), i);
  }

  lemma MissingStep(tables: set<nat>, a: nat, b: nat, k: nat)
    requires a < b && k == a / NENTRIES
    ensures k in tables ==> Missing(tables, a, b) == Missing(tables, a + 1, b)
    ensures k !in tables ==>
      && Missing(tables, a, b) == Missing(tables + {k}, a + 1, b) + {k}
      && |Missing(tables, a, b)| == |Missing(tables + {k}, a + 1, b)| + 1
  {
    var now := Missing(tables, a, b);
    if k in tables {
      forall x ensures x in now <==> x in Missing(tables, a + 1, b) {
      }
    } else {
      var later := Missing(tables + {k}, a + 1, b);
      forall x ensures x in now <==> x in later + {k} {
      }
      assert now == later + {k} && k !in later;
    }
  }

  /** There is room exactly if the free list holds a frame for each page and each missing table. */
  lemma {:induction false} RoomIff(tables: set<nat>, a: nat, b: nat, frames: nat)
    requires a <= b
    ensures Forecasted(tables, a, b, frames) == Room <==> (b - a) + |Missing(tables, a, b)| <= frames
    decreases b - a
  {
    if a == b {
      assert Missing(tables, a, b) == {};
    } else {
      var k := a / NENTRIES;
      MissingStep(tables, a, b, k);
      hide Missing;
      if k in tables {
        if frames > 0 {
          RoomIff(tables, a + 1, b, frames - 1);
        }
      } else if frames > 1 {
        RoomIff(tables + {k}, a + 1, b, frames - 2);
      }
    }
  }

  /** One frame is left for the last page and its table is missing. */
  predicate LacksTable(tables: set<nat>, a: nat, b: nat, frames: nat) {
    && a < b && frames == (b - 1 - a) + |Missing(tables, a, b - 1)| + 1
    && (b - 1) / NENTRIES !in tables && (b - 1) / NENTRIES !in Missing(tables, a, b - 1)
  }

  lemma LacksAtOnce(tables: set<nat>, a: nat, b: nat, frames: nat)
    requires b == a + 1
    ensures LacksTable(tables, a, b, frames) <==> frames == 1 && a / NENTRIES !in tables
    ensures Forecasted(tables, a, b, frames) == Torn <==> frames == 1 && a / NENTRIES !in tables
  {
    assert Missing(tables, a, a) == {};
    assert frames > 0 ==> Forecasted(tables, b, b, frames - 1) == Room;
    assert frames > 1 ==> Forecasted(tables + {a / NENTRIES}, b, b, frames - 2) == Room;
  }

  lemma LacksStep(tables: set<nat>, a: nat, b: nat, frames: nat, k: nat)
    requires a < b - 1 && k == a / NENTRIES
    ensures k in tables ==>
      (LacksTable(tables, a, b, frames) <==> frames > 0 && LacksTable(tables, a + 1, b, frames - 1))
    ensures k !in tables ==>
      (LacksTable(tables, a, b, frames) <==> frames > 1 && LacksTable(tables + {k}, a + 1, b, frames - 2))
  {
    hide Missing;
    MissingStep(tables, a, b - 1, k);
  }

  /** That is when there is room for all pages but the last, and the last tears. */
  lemma {:induction false} TornIff(tables: set<nat>, a: nat, b: nat, frames: nat)
    requires a < b
    ensures LacksTable(tables, a, b, frames)
      <==> Forecasted(tables, a, b - 1, frames) == Room && Forecasted(tables, a, b, frames) == Torn
    decreases b - a
  {
    hide Missing, LacksTable;
    var k := a / NENTRIES;
    if a == b - 1 {
      LacksAtOnce(tables, a, b, frames);
    } else {
      LacksStep(tables, a, b, frames, k);
      if k in tables {
        if frames > 0 {
          TornIff(tables, a + 1, b, frames - 1);
        }
      } else if frames > 1 {
        TornIff(tables + {k}, a + 1, b, frames - 2);
      }
    }
  }

  /** Room for more is room for less. */
  lemma {:induction false} RoomBefore(tables: set<nat>, a: nat, b: nat, c: nat, frames: nat)
    requires b <= c && Forecasted(tables, a, c, frames) == Room
    ensures Forecasted(tables, a, b, frames) == Room
    decreases b - a
  {
    if a < b && frames > 0 {
      if a / NENTRIES in tables {
        RoomBefore(tables, a + 1, b, c, frames - 1);
      } else if frames > 1 {
        RoomBefore(tables + {a / NENTRIES}, a + 1, b, c, frames - 2);
      }
    }
  }

  /** Where it gets stuck, it is stuck for every larger size. */
  lemma {:induction false} ForecastStuck(tables: set<nat>, a: nat, b: nat, c: nat, frames: nat)
    requires b <= c && Forecasted(tables, a, b, frames) != Room
    ensures Forecasted(tables, a, c, frames) == Forecasted(tables, a, b, frames)
    decreases b - a
  {
    if frames > 0 {
      if a / NENTRIES in tables {
        ForecastStuck(tables, a + 1, b, c, frames - 1);
      } else if frames > 1 {
        ForecastStuck(tables + {a / NENTRIES}, a + 1, b, c, frames - 2);
      }
    }
  }

  /** Growing tears exactly if it does so at some page on the way. */
  lemma {:induction false} TornWhere(tables: set<nat>, a: nat, b: nat, frames: nat)
    ensures Forecasted(tables, a, b, frames) == Torn <==> exists c :: a < c <= b && LacksTable(tables, a, c, frames)
    decreases b
  {
    hide Missing;
    if a < b {
      TornIff(tables, a, b, frames);
      if Forecasted(tables, a, b - 1, frames) == Room {
        forall c | a < c < b ensures !LacksTable(tables, a, c, frames) {
          TornIff(tables, a, c, frames);
          RoomBefore(tables, a, c, b - 1, frames);
        }
      } else {
        ForecastStuck(tables, a, b - 1, b, frames);
        TornWhere(tables, a, b - 1, frames);
      }
    }
  }

  // ----- Shrinking -----

  predicate Dropped(u: Use, d: nat, a: nat, b: nat) {
    u.User? && u.d == d && InWindow(a, b, u.i, u.j)
  }

  /** The user pages of d from a to b are gone and just their frames are freed. */
  ghost predicate Shrunk(m: Mem, g: Mem, d: nat, a: nat, b: nat) {
    && a <= b && m.IsDir(d) && g.IsDir(d) && g.Ok() && g.first == m.first && g.tab[d] == m.tab[d]
    && (forall e, k, l {:trigger KeepsAt(m, g, e, k, l)} ::
          m.IsDir(e) && 0 <= k < NENTRIES && 0 <= l < NENTRIES && !(e == d && k < NUSER && InWindow(a, b, k, l)) ==>
            KeepsAt(m, g, e, k, l))
    && (forall k, l {:trigger g.Lookup(d, k, l)} ::
          0 <= k < NUSER && 0 <= l < NENTRIES && InWindow(a, b, k, l) ==> g.Lookup(d, k, l).Absent?)
    && (forall f {:trigger f in g.own} :: f in g.own <==> f in m.own && !Dropped(m.own[f], d, a, b))
    && (forall f :: f in g.own ==> g.own[f] == m.own[f] && PageOf(g, f) == PageOf(m, f))
  }

  lemma ShrunkNone(m: Mem, d: nat, a: nat)
    requires m.Ok() && m.IsDir(d)
    ensures Shrunk(m, m, d, a, a)
  {
    forall e, k, l | m.IsDir(e) && 0 <= k < NENTRIES && 0 <= l < NENTRIES ensures KeepsAt(m, m, e, k, l) {
    }
  }

  lemma ShrunkMaps(m: Mem, g: Mem, h: Mem, d: nat, a: nat, b: nat, i: nat, j: nat)
    requires i < NUSER && j < NENTRIES && b == NENTRIES * i + j
    requires Shrunk(m, g, d, a, b) && SameElsewhere(g, h, d, i, j) && h.Lookup(d, i, j) == Absent
    ensures forall e, k, l {:trigger KeepsAt(m, h, e, k, l)} ::
      m.IsDir(e) && 0 <= k < NENTRIES && 0 <= l < NENTRIES && !(e == d && k < NUSER && InWindow(a, b + 1, k, l)) ==>
        KeepsAt(m, h, e, k, l)
    ensures forall k, l {:trigger h.Lookup(d, k, l)} ::
      0 <= k < NUSER && 0 <= l < NENTRIES && InWindow(a, b + 1, k, l) ==> h.Lookup(d, k, l).Absent?
  {
    forall e, k, l | m.IsDir(e) && 0 <= k < NENTRIES && 0 <= l < NENTRIES && !(e == d && k < NUSER && InWindow(a, b + 1, k, l))
      ensures KeepsAt(m, h, e, k, l)
    {
      assert KeepsAt(m, g, e, k, l) && KeepsAt(g, h, e, k, l);
    }
    forall k, l | 0 <= k < NUSER && 0 <= l < NENTRIES && InWindow(a, b + 1, k, l) ensures h.Lookup(d, k, l).Absent? {
      if !(k == i && l == j) {
        assert g.Lookup(d, k, l).Absent? && KeepsAt(g, h, d, k, l);
      }
    }
  }

  lemma UniquePage(g: Mem, x: nat, d: nat, i: nat, j: nat)
    requires g.Ok() && g.IsDir(d) && i < NUSER && j < NENTRIES && g.Lookup(d, i, j).Present?
    ensures x in g.own && g.own[x].User? && g.own[x].d == d && NENTRIES * g.own[x].i + g.own[x].j == NENTRIES * i + j
      <==> x == g.Lookup(d, i, j).frame
  {
    assert g.LeafAt(d, i, j);
    if x in g.own {
      assert g.UseAt(x);
    }
  }

  lemma ShrunkMore(m: Mem, g: Mem, d: nat, a: nat, b: nat, i: nat, j: nat)
    requires Shrunk(m, g, d, a, b) && i < NUSER && j < NENTRIES && b == NENTRIES * i + j && g.Lookup(d, i, j).Present?
    ensures Shrunk(m, Unmap(g, d, i, j), d, a, b + 1)
  {
    var h := Unmap(g, d, i, j);
    var f := g.Lookup(d, i, j).frame;
    assert g.LeafAt(d, i, j) && g.EntryAt(d, i);
    UnmapOk(g, d, i, j);
    UnmapMaps(g, d, i, j);
    ShrunkMaps(m, g, h, d, a, b, i, j);
    hide Mem.Ok;
    forall x ensures x in h.own <==> x in m.own && !Dropped(m.own[x], d, a, b + 1) {
      UniquePage(g, x, d, i, j);
    }
  }

  /** Passing over pages that are not there. */
  lemma ShrunkSkip(m: Mem, g: Mem, d: nat, a: nat, b: nat, c: nat)
    requires m.Ok() && Shrunk(m, g, d, a, b) && b <= c
    requires forall k, l :: 0 <= k < NUSER && 0 <= l < NENTRIES && InWindow(b, c, k, l) ==> m.Lookup(d, k, l).Absent?
    ensures Shrunk(m, g, d, a, c)
  {
    forall k, l | 0 <= k < NUSER && 0 <= l < NENTRIES && InWindow(a, c, k, l) ensures g.Lookup(d, k, l).Absent? {
      if InWindow(b, c, k, l) {
        assert KeepsAt(m, g, d, k, l);
      }
    }
    forall f | f in m.own ensures Dropped(m.own[f], d, a, c) <==> Dropped(m.own[f], d, a, b) {
      assert m.UseAt(f);
    }
  }

  function Min(a: nat, b: nat): nat {
    if a < b then a else b
  }

  /** Cutting a prefix off at a leaves a prefix. */
  lemma ShrunkPrefix(m: Mem, g: Mem, d: nat, n: nat, a: nat, b: nat)
    requires Shrunk(m, g, d, a, b) && Prefix(m, d, n) && n <= b
    ensures Prefix(g, d, Min(n, a))
  {
    forall k, l | 0 <= k < NUSER && 0 <= l < NENTRIES ensures g.Lookup(d, k, l).Present? <==>
      NENTRIES * k + l < Min(n, a) {
      if !InWindow(a, b, k, l) {
        assert KeepsAt(m, g, d, k, l);
      }
    }
  }

  /** Where there is no table, no page of a prefix is left above, so a whole table's worth may be passed
  over, even from the middle of its range. */
  lemma SkipTable(m: Mem, g: Mem, d: nat, n: nat, a: nat, b: nat, i: nat, j: nat)
    requires m.Ok() && Shrunk(m, g, d, a, b) && Prefix(m, d, n) && i < NUSER && j < NENTRIES && b == NENTRIES * i + j
    requires !HasTable(g, d, i)
    ensures n <= b && Shrunk(m, g, d, a, b + NENTRIES)
  {
    assert m.Lookup(d, i, j).Absent?;
    ShrunkSkip(m, g, d, a, b, b + NENTRIES);
  }

  lemma SkipPage(m: Mem, g: Mem, d: nat, a: nat, b: nat, i: nat, j: nat)
    requires m.Ok() && Shrunk(m, g, d, a, b) && i < NUSER && j < NENTRIES && b == NENTRIES * i + j
    requires g.Lookup(d, i, j).Absent?
    ensures Shrunk(m, g, d, a, b + 1)
  {
    assert KeepsAt(m, g, d, i, j);
    ShrunkSkip(m, g, d, a, b, b + 1);
  }

  /** Entering a page keeps the forecast. */
  lemma ForecastStep(m: Mem, g: Mem, d: nat, v: nat, end: nat, i: nat)
    requires v < end && i == v / NENTRIES && i < NENTRIES && TablesNow(m, g, d, i)
    requires (HasTable(m, d, i) || |m.free| > 1) && |m.free| > 0
    ensures Forecasted(TableSet(m, d), v, end, |m.free|) == Forecasted(TableSet(g, d), v + 1, end, |g.free|)
  {
    assert i in TableSet(m, d) <==> HasTable(m, d, i);
    if HasTable(m, d, i) {
      assert TableSet(m, d) + {i} == TableSet(m, d);
    }
  }

  lemma ForecastNow(m: Mem, d: nat, v: nat, end: nat, i: nat)
    requires m.IsDir(d) && v < end && i == v / NENTRIES && i < NENTRIES
    ensures |m.free| == 0 ==> Forecasted(TableSet(m, d), v, end, |m.free|) == Short
    ensures |m.free| == 1 && !HasTable(m, d, i) ==> Forecasted(TableSet(m, d), v, end, |m.free|) == Torn
  {
    assert i in TableSet(m, d) <==> HasTable(m, d, i);
  }

  /** No address space changed, except that page tables may have been added to d; frames may be lost. */
  ghost predicate Restored(m: Mem, g: Mem, d: nat, lost: set<nat>) {
    && g.Ok() && SameMaps(m, g) && Kept(m, g) && NowLoose(m, g, lost)
    && forall f :: f in g.own && f !in m.own && f !in lost ==> g.own[f].Table? && g.own[f].d == d
  }

  lemma GrewShrunkMaps(m: Mem, g: Mem, h: Mem, d: nat, a: nat, b: nat, c: nat, flags: nat, lost: set<nat>)
    requires m.Ok() && m.IsDir(d) && Prefix(m, d, a) && Grew(m, g, d, a, b, flags, lost) && b <= NUSER * NENTRIES
    requires Shrunk(g, h, d, a, c) && b <= c
    ensures SameMaps(m, h)
  {
    forall e, k, l | m.IsDir(e) && 0 <= k < NENTRIES && 0 <= l < NENTRIES ensures KeepsAt(m, h, e, k, l) {
      if e == d && k < NUSER && InWindow(a, c, k, l) {
        assert h.Lookup(d, k, l).Absent?;
      } else {
        assert KeepsAt(m, g, e, k, l) && KeepsAt(g, h, e, k, l);
      }
    }
  }

  /** A page of the old prefix is not in the window above it. */
  lemma GrewKeepsUse(m: Mem, g: Mem, d: nat, a: nat, b: nat, flags: nat, lost: set<nat>, f: nat)
    requires m.Ok() && m.IsDir(d) && Prefix(m, d, a) && Grew(m, g, d, a, b, flags, lost) && f in m.own
    ensures f in g.own && forall c :: !Dropped(g.own[f], d, a, c)
  {
    assert m.UseAt(f);
  }

  lemma NewIsInWindow(m: Mem, g: Mem, d: nat, a: nat, b: nat, flags: nat, lost: set<nat>, f: nat)
    requires m.Ok() && Grew(m, g, d, a, b, flags, lost) && f in g.own && f !in m.own && f !in lost
    ensures g.own[f].User? ==> Dropped(g.own[f], d, a, b)
  {
    assert g.UseAt(f);
    if g.own[f].User? {
      var i, j := g.own[f].i, g.own[f].j;
      assert Belongs(g.own[f], d) && m.LeafAt(d, i, j);
      assert InWindow(a, b, i, j) || KeepsAt(m, g, d, i, j);
    }
  }

  /** Pages added and then cut off again. */
  lemma GrewShrunk(m: Mem, g: Mem, h: Mem, d: nat, a: nat, b: nat, c: nat, flags: nat, lost: set<nat>)
    requires m.Ok() && m.IsDir(d) && Prefix(m, d, a) && Grew(m, g, d, a, b, flags, lost) && b <= NUSER * NENTRIES
    requires Shrunk(g, h, d, a, c) && b <= c
    ensures Restored(m, h, d, lost)
  {
    GrewShrunkMaps(m, g, h, d, a, b, c, flags, lost);
    forall f | f in m.own ensures f in h.own {
      GrewKeepsUse(m, g, d, a, b, flags, lost, f);
    }
    forall f | f in h.own && f !in m.own && f !in lost ensures h.own[f].Table? && h.own[f].d == d {
      assert g.UseAt(f) && Belongs(g.own[f], d);
      NewIsInWindow(m, g, d, a, b, flags, lost, f);
    }
    assert forall f :: f in lost ==> f in h.own;
  }

  // ----- Freeing an address space -----

  function FreeTable(m: Mem, t: nat): Mem {
    Kfree(m, t).(tab := m.tab - {t})
  }

  /** The page tables of the first k entries of d freed, as the loop of freevm does. */
  function FreeTables(m: Mem, d: nat, k: nat): Mem
    requires m.IsDir(d) && k <= NENTRIES
  {
    if k == 0 then m
    else
      var h := FreeTables(m, d, k - 1);
      if m.tab[d][k - 1].Present? then FreeTable(h, m.tab[d][k - 1].frame) else h
  }

  predicate TableBelow(u: Use, d: nat, k: nat) {
    u.Table? && u.d == d && u.i < k
  }

  /** h has lost just the page tables of the first k entries of d. */
  ghost predicate TablesGone(m: Mem, h: Mem, d: nat, k: nat) {
    && h.Frames() && h.first == m.first
    && (forall f {:trigger f in h.own} :: f in h.own <==> f in m.own && !TableBelow(m.own[f], d, k))
    && (forall f {:trigger f in h.tab} :: f in h.tab <==> f in m.tab && f in h.own)
    && (forall f :: f in h.own ==> h.own[f] == m.own[f] && PageOf(h, f) == PageOf(m, f))
    && (forall f :: f in h.tab ==> h.tab[f] == m.tab[f])
  }

  /** The page table of an entry is the one frame in use for it. */
  lemma OneTable(m: Mem, d: nat, i: nat, f: nat)
    requires m.Ok() && m.IsDir(d) && i < NENTRIES
    ensures f in m.own && m.own[f] == Table(d, i) <==> m.tab[d][i].Present? && f == m.tab[d][i].frame
  {
    assert m.EntryAt(d, i);
    if f in m.own {
      assert m.UseAt(f);
    }
  }

  lemma FreeTableFrames(m: Mem, t: nat)
    requires m.Frames() && t in m.own
    ensures FreeTable(m, t).Frames()
  {
    KfreeFrames(m, t);
  }

  lemma FreeTableNext(m: Mem, h: Mem, d: nat, k: nat)
    requires m.Ok() && m.IsDir(d) && 1 <= k <= NENTRIES && TablesGone(m, h, d, k - 1)
    ensures TablesGone(m, if m.tab[d][k - 1].Present? then FreeTable(h, m.tab[d][k - 1].frame) else h, d, k)
  {
    hide Mem.Ok, Mem.Frames;
    forall f | f in m.own ensures TableBelow(m.own[f], d, k) <==>
      TableBelow(m.own[f], d, k - 1) || (m.tab[d][k - 1].Present? && f == m.tab[d][k - 1].frame) {
      OneTable(m, d, k - 1, f);
    }
    if m.tab[d][k - 1].Present? {
      OneTable(m, d, k - 1, m.tab[d][k - 1].frame);
      FreeTableFrames(h, m.tab[d][k - 1].frame);
    }
  }

  lemma {:induction false} FreeTablesAre(m: Mem, d: nat, k: nat)
    requires m.Ok() && m.IsDir(d) && k <= NENTRIES
    ensures TablesGone(m, FreeTables(m, d, k), d, k)
  {
    if k > 0 {
      FreeTablesAre(m, d, k - 1);
      FreeTableNext(m, FreeTables(m, d, k - 1), d, k);
    }
  }

  /** Everything of d is freed and nothing else. */
  ghost predicate Closed(m: Mem, z: Mem, d: nat) {
    && z.Ok() && z.first == m.first
    && (forall f {:trigger f in z.own} :: f in z.own <==> f in m.own && f != d && !Belongs(m.own[f], d))
    && (forall f :: f in z.own ==> z.own[f] == m.own[f] && PageOf(z, f) == PageOf(m, f))
    && (forall e, k, l {:trigger KeepsAt(m, z, e, k, l)} ::
          m.IsDir(e) && e != d && 0 <= k < NENTRIES && 0 <= l < NENTRIES ==> KeepsAt(m, z, e, k, l))
  }

  /** An address space without user pages owns its tables only. */
  lemma OnlyTables(m: Mem, d: nat, f: nat)
    requires m.Ok() && m.IsDir(d) && Prefix(m, d, 0) && f in m.own
    ensures Belongs(m.own[f], d) <==> TableBelow(m.own[f], d, NENTRIES)
  {
    assert m.UseAt(f);
  }

  /** What is left in use when d has no user pages and its tables and directory are freed. */
  ghost predicate Left(m: Mem, z: Mem, d: nat) {
    && z.Frames() && z.first == m.first
    && (forall f {:trigger f in z.own} :: f in z.own <==> f in m.own && f != d && !Belongs(m.own[f], d))
    && (forall f :: f in z.own ==> z.own[f] == m.own[f] && PageOf(z, f) == PageOf(m, f))
    && (forall f {:trigger f in z.tab} :: f in z.tab <==> f in m.tab && f in z.own)
    && (forall f :: f in z.tab ==> z.tab[f] == m.tab[f])
  }

  lemma CloseFrames(m: Mem, h: Mem, d: nat)
    requires m.Ok() && m.IsDir(d) && Prefix(m, d, 0) && TablesGone(m, h, d, NENTRIES)
    ensures Left(m, FreeTable(h, d), d)
  {
    hide Mem.Ok, Prefix, Mem.Frames;
    forall f | f in m.own ensures Belongs(m.own[f], d) <==> TableBelow(m.own[f], d, NENTRIES) {
      OnlyTables(m, d, f);
    }
    FreeTableFrames(h, d);
  }

  lemma LeftLinked(m: Mem, z: Mem, d: nat)
    requires m.Ok() && m.IsDir(d) && Left(m, z, d)
    ensures z.Ok()
  {
    forall e, i | z.IsDir(e) && 0 <= i < NENTRIES ensures z.EntryAt(e, i) {
      assert m.EntryAt(e, i);
    }
    forall e, i, j | z.IsDir(e) && 0 <= i < NUSER && 0 <= j < NENTRIES ensures z.LeafAt(e, i, j) {
      assert m.LeafAt(e, i, j) && m.EntryAt(e, i);
    }
    forall x | x in z.own ensures z.UseAt(x) {
      assert m.UseAt(x);
    }
  }

  lemma CloseOk(m: Mem, h: Mem, d: nat)
    requires m.Ok() && m.IsDir(d) && Prefix(m, d, 0) && TablesGone(m, h, d, NENTRIES)
    ensures Closed(m, FreeTable(h, d), d)
  {
    var z := FreeTable(h, d);
    CloseFrames(m, h, d);
    LeftLinked(m, z, d);
    forall e, k, l | m.IsDir(e) && e != d && 0 <= k < NENTRIES && 0 <= l < NENTRIES ensures KeepsAt(m, z, e, k, l) {
      assert m.EntryAt(e, k);
    }
  }

  lemma UserDropped(m: Mem, d: nat, n: nat, b: nat, f: nat)
    requires m.Ok() && m.IsDir(d) && Prefix(m, d, n) && n <= b && f in m.own && m.own[f].User? && m.own[f].d == d
    ensures Dropped(m.own[f], d, 0, b)
  {
    assert m.UseAt(f);
  }

  /** freevm as a whole: the pages, then the tables, then the directory. */
  lemma FreedAll(m: Mem, g: Mem, z: Mem, d: nat, n: nat, b: nat)
    requires m.Ok() && m.IsDir(d) && Prefix(m, d, n) && Shrunk(m, g, d, 0, b) && n <= b && Closed(g, z, d)
    ensures Closed(m, z, d)
  {
    hide Mem.Frames, Mem.Tables, Mem.TableSizes, Mem.Linked;
    forall f | f in m.own && m.own[f].User? && m.own[f].d == d ensures Dropped(m.own[f], d, 0, b) {
      UserDropped(m, d, n, b, f);
    }
    forall e, k, l | m.IsDir(e) && e != d && 0 <= k < NENTRIES && 0 <= l < NENTRIES ensures KeepsAt(m, z, e, k, l) {
      assert KeepsAt(m, g, e, k, l) && KeepsAt(g, z, e, k, l);
    }
  }
}
