/** The kernel half of an address space, as values. */
module KernelMap {
  import opened Common
  import opened PageTables

  /** One kernel page and the frame it leads to. */
  datatype KPage = KPage(i: nat, j: nat, frame: nat, flags: nat)

  /** An entry of kmap: n pages from page number v on, leading to consecutive frames. */
  datatype KRange = KRange(v: nat, n: nat, frame: nat, flags: nat)

  function RangePage(r: KRange, x: nat): KPage {
    KPage((r.v + x) / NENTRIES, (r.v + x) % NENTRIES, r.frame + x, r.flags)
  }

  /** The first n pages of r. */
  function RangePages(r: KRange, n: nat): (ps: seq<KPage>)
    ensures |ps| == n
  {
    if n == 0 then [] else RangePages(r, n - 1) + [RangePage(r, n - 1)]
  }

  function AllPages(kmap: seq<KRange>): seq<KPage> {
    if kmap == [] then [] else AllPages(kmap[..|kmap| - 1]) + RangePages(kmap[|kmap| - 1], kmap[|kmap| - 1].n)
  }

  /** Page (k, l) is among ps. */
  predicate Listed(ps: seq<KPage>, k: nat, l: nat) {
    exists x :: 0 <= x < |ps| && ps[x].i == k && ps[x].j == l
  }

  /** The pages are in the kernel half and no two are the same. */
  ghost predicate KernelPages(ps: seq<KPage>) {
    && (forall x :: 0 <= x < |ps| ==> NUSER <= ps[x].i < NENTRIES && ps[x].j < NENTRIES)
    && (forall x, y :: 0 <= x < y < |ps| ==> ps[x].i != ps[y].i || ps[x].j != ps[y].j)
  }

  /** The directory entries the pages lie under. */
  function Entries(ps: seq<KPage>): set<nat> {
    set x | 0 <= x < |ps| :: ps[x].i
  }

  ghost predicate EnteredMaps(m: Mem, g: Mem, d: nat, ps: seq<KPage>)
    requires g.IsDir(d) && KernelPages(ps)
  {
    && (forall e, k, l {:trigger KeepsAt(m, g, e, k, l)} ::
          m.IsDir(e) && 0 <= k < NENTRIES && 0 <= l < NENTRIES && !(e == d && Listed(ps, k, l)) ==>
            KeepsAt(m, g, e, k, l))
    && (forall x :: 0 <= x < |ps| ==> g.Lookup(d, ps[x].i, ps[x].j) == Present(ps[x].frame, ps[x].flags))
  }

  ghost predicate EnteredUses(m: Mem, g: Mem, d: nat, ps: seq<KPage>)
    requires m.IsDir(d) && g.IsDir(d)
  {
    && Kept(m, g) && NewFor(m, g, d)
    && TableSet(g, d) == TableSet(m, d) + Entries(ps) && |g.free| + |TableSet(g, d)| == |m.free| + |TableSet(m, d)|
  }

  /** The pages ps have been entered in d; nothing else changed, and a frame was taken for each new table. */
  ghost predicate Entered(m: Mem, g: Mem, d: nat, ps: seq<KPage>) {
    && m.IsDir(d) && g.IsDir(d) && g.Ok() && KernelPages(ps) && EnteredMaps(m, g, d, ps) && EnteredUses(m, g, d, ps)
  }

  lemma EnteredNone(m: Mem, d: nat)
    requires m.Ok() && m.IsDir(d)
    ensures Entered(m, m, d, [])
  {
    forall e, k, l | m.IsDir(e) && 0 <= k < NENTRIES && 0 <= l < NENTRIES ensures KeepsAt(m, m, e, k, l) {
    }
  }

  /** walkpgdir for a kernel page: the maps stay, and a table made costs one frame. */
  lemma WalkedSame(g: Mem, o: Mem, d: nat, i: nat)
    requires g.Ok() && g.IsDir(d) && Walked(g, o, d, i) && i < NENTRIES
    ensures o.Ok() && o.IsDir(d) && SameMaps(g, o) && Kept(g, o) && NewFor(g, o, d)
    ensures HasTable(o, d, i) && o.IsTable(TableOf(o, d, i), d, i)
    ensures TableSet(o, d) == TableSet(g, d) + {i} && |o.free| + |TableSet(o, d)| == |g.free| + |TableSet(g, d)|
  {
    assert g.EntryAt(d, i);
    if HasTable(g, d, i) {
      assert TableSet(g, d) + {i} == TableSet(g, d);
      forall e, k, l | g.IsDir(e) && 0 <= k < NENTRIES && 0 <= l < NENTRIES ensures KeepsAt(g, g, e, k, l) {
      }
    } else {
      assert TableSet(o, d) == TableSet(g, d) + {i};
    }
  }

  lemma EnterMaps(m: Mem, g: Mem, o: Mem, h: Mem, d: nat, ps: seq<KPage>, p: KPage)
    requires KernelPages(ps + [p]) && Entered(m, g, d, ps) && SameMaps(g, o) && o.IsDir(d)
    requires SameElsewhere(o, h, d, p.i, p.j)
    requires p.i < NENTRIES && p.j < NENTRIES && h.Lookup(d, p.i, p.j) == Present(p.frame, p.flags)
    ensures EnteredMaps(m, h, d, ps + [p])
  {
    var qs := ps + [p];
    assert qs[|ps|] == p;
    forall e, k, l | m.IsDir(e) && 0 <= k < NENTRIES && 0 <= l < NENTRIES && !(e == d && Listed(qs, k, l))
      ensures KeepsAt(m, h, e, k, l)
    {
      assert Listed(ps, k, l) ==> Listed(qs, k, l) by {
        if x :| 0 <= x < |ps| && ps[x].i == k && ps[x].j == l {
          assert qs[x] == ps[x];
        }
      }
      assert KeepsAt(m, g, e, k, l) && KeepsAt(g, o, e, k, l) && KeepsAt(o, h, e, k, l);
    }
    forall x | 0 <= x < |qs| ensures h.Lookup(d, qs[x].i, qs[x].j) == Present(qs[x].frame, qs[x].flags) {
      if x < |ps| {
        assert qs[x] == ps[x];
        assert KeepsAt(g, o, d, ps[x].i, ps[x].j) && KeepsAt(o, h, d, ps[x].i, ps[x].j);
      }
    }
  }

  lemma EntriesMore(ps: seq<KPage>, p: KPage)
    ensures Entries(ps + [p]) == Entries(ps) + {p.i}
  {
    var qs := ps + [p];
    assert qs[|ps|] == p && forall x :: 0 <= x < |ps| ==> qs[x] == ps[x];
    forall k | k in Entries(ps) + {p.i} ensures k in Entries(qs) {
      if k in Entries(ps) {
        var x :| 0 <= x < |ps| && ps[x].i == k;
        assert qs[x].i == k;
      }
    }
  }

  lemma EnterUses(m: Mem, g: Mem, o: Mem, h: Mem, d: nat, ps: seq<KPage>, p: KPage)
    requires m.IsDir(d) && g.IsDir(d) && o.IsDir(d) && h.IsDir(d) && EnteredUses(m, g, d, ps) && Kept(g, o)
    requires NewFor(g, o, d)
    requires TableSet(o, d) == TableSet(g, d) + {p.i} && |o.free| + |TableSet(o, d)| == |g.free| + |TableSet(g, d)|
    requires h.own == o.own && h.free == o.free && h.page == o.page && h.first == o.first
    requires TableSet(h, d) == TableSet(o, d)
    ensures EnteredUses(m, h, d, ps + [p])
  {
    EntriesMore(ps, p);
  }

  /** One more kernel page, in the table walkpgdir found or made. */
  lemma EnterMore(m: Mem, g: Mem, o: Mem, d: nat, ps: seq<KPage>, p: KPage)
    requires KernelPages(ps + [p]) && Entered(m, g, d, ps) && NUSER <= p.i < NENTRIES && p.j < NENTRIES
    requires Walked(g, o, d, p.i)
    ensures o.IsDir(d) && HasTable(o, d, p.i) && o.IsTable(TableOf(o, d, p.i), d, p.i)
    ensures Entered(m, MapKernel(o, d, p.i, p.j, p.frame, p.flags), d, ps + [p])
  {
    WalkedSame(g, o, d, p.i);
    MapKernelOk(o, d, p.i, p.j, p.frame, p.flags);
    MapKernelMaps(o, d, p.i, p.j, p.frame, p.flags);
    var h := MapKernel(o, d, p.i, p.j, p.frame, p.flags);
    EnterMaps(m, g, o, h, d, ps, p);
    hide Mem.Ok, SameElsewhere, SameMaps, Walked, EnteredMaps, KernelPages;
    EnterUses(m, g, o, h, d, ps, p);
  }

  lemma NotYetThere(m: Mem, g: Mem, d: nat, ps: seq<KPage>, p: KPage)
    requires KernelPages(ps + [p]) && Entered(m, g, d, ps) && p.i < NENTRIES && p.j < NENTRIES
    requires m.Lookup(d, p.i, p.j).Absent?
    ensures g.Lookup(d, p.i, p.j).Absent?
  {
    var qs := ps + [p];
    assert qs[|ps|] == p && forall x :: 0 <= x < |ps| ==> qs[x] == ps[x];
    assert !Listed(ps, p.i, p.j);
    assert KeepsAt(m, g, d, p.i, p.j);
  }

  /** Too few frames for the tables of all pages. */
  lemma RanOut(m: Mem, g: Mem, d: nat, ps: seq<KPage>, p: KPage, qs: seq<KPage>)
    requires Entered(m, g, d, ps) && g.free == [] && !HasTable(g, d, p.i) && p.i < NENTRIES && ps + [p] <= qs
    requires TableSet(m, d) == {}
    ensures |m.free| < |Entries(qs)|
  {
    EntriesMore(ps, p);
    assert Entries(ps + [p]) <= Entries(qs) by {
      forall k | k in Entries(ps + [p]) ensures k in Entries(qs) {
        var x :| 0 <= x < |ps + [p]| && (ps + [p])[x].i == k;
        assert qs[x].i == k;
      }
    }
    SubsetSize(Entries(ps) + {p.i}, Entries(qs));
    assert p.i !in Entries(ps);
  }

  // ----- Going through kmap -----

  lemma {:induction false} RangePrefix(r: KRange, x: nat, n: nat)
    requires x <= n
    ensures RangePages(r, x) <= RangePages(r, n)
  {
    if x < n {
      RangePrefix(r, x, n - 1);
    }
  }

  lemma {:induction false} AllPrefix(kmap: seq<KRange>, r: nat)
    requires r <= |kmap|
    ensures AllPages(kmap[..r]) <= AllPages(kmap)
    decreases |kmap|
  {
    if r == |kmap| {
      assert kmap[..r] == kmap;
    } else {
      var init := kmap[..|kmap| - 1];
      AllPrefix(init, r);
      assert init[..r] == kmap[..r];
    }
  }

  /** The pages entered before page x of range r. */
  function Before(kmap: seq<KRange>, r: nat, x: nat): seq<KPage>
    requires r < |kmap|
  {
    AllPages(kmap[..r]) + RangePages(kmap[r], x)
  }

  lemma RangeDone(kmap: seq<KRange>, r: nat)
    requires r < |kmap|
    ensures AllPages(kmap[..r + 1]) == Before(kmap, r, kmap[r].n)
  {
    var k := kmap[..r + 1];
    assert k[..r] == kmap[..r] && k[r] == kmap[r];
  }

  lemma BeforeWithin(kmap: seq<KRange>, r: nat, x: nat)
    requires r < |kmap| && x <= kmap[r].n
    ensures Before(kmap, r, x) <= AllPages(kmap)
  {
    hide AllPages, RangePages;
    RangePrefix(kmap[r], x, kmap[r].n);
    RangeDone(kmap, r);
    AllPrefix(kmap, r + 1);
  }

  lemma NextPage(kmap: seq<KRange>, r: nat, x: nat)
    requires r < |kmap| && x < kmap[r].n
    ensures Before(kmap, r, x + 1) == Before(kmap, r, x) + [RangePage(kmap[r], x)]
    ensures Before(kmap, r, x + 1) <= AllPages(kmap)
  {
    BeforeWithin(kmap, r, x + 1);
    hide AllPages;
  }

  lemma KernelPrefix(ps: seq<KPage>, qs: seq<KPage>)
    requires ps <= qs && KernelPages(qs)
    ensures KernelPages(ps)
  {
    assert forall x :: 0 <= x < |ps| ==> ps[x] == qs[x];
  }

  // ----- The kernel's own map -----

  const KERNPAGE := 0x8_0000           // page number of KERNBASE
  const EXTPAGE := 0x100               // of EXTMEM
  const DEVPAGE := 0xF_E000            // of DEVSPACE
  const RWXX := 0x00
  const RDXX := 0x10
  const EX := 0x08

  /** kmap, where page number `data` is the first of the kernel's data. */
  function Kmap(data: nat): seq<KRange>
    requires KERNPAGE + EXTPAGE < data < KERNPAGE + TOP
  {
    [ KRange(KERNPAGE, EXTPAGE, 0, RWXX),
      KRange(KERNPAGE + EXTPAGE, data - KERNPAGE - EXTPAGE, EXTPAGE, RDXX + EX),
      KRange(data, KERNPAGE + TOP - data, data - KERNPAGE, RWXX),
      KRange(DEVPAGE, NENTRIES * NENTRIES - DEVPAGE, DEVPAGE, RWXX) ]
  }

  function Number(p: KPage): nat {
    NENTRIES * p.i + p.j
  }

  /** The ranges lie in the kernel half, one above the other. */
  ghost predicate Ascending(kmap: seq<KRange>) {
    && (forall r :: 0 <= r < |kmap| ==> NUSER * NENTRIES <= kmap[r].v && kmap[r].v + kmap[r].n <= NENTRIES * NENTRIES)
    && forall r, s :: 0 <= r < s < |kmap| ==> kmap[r].v + kmap[r].n <= kmap[s].v
  }

  lemma {:induction false} RangeNumbers(r: KRange, n: nat)
    ensures forall x :: 0 <= x < n ==> Number(RangePages(r, n)[x]) == r.v + x && RangePages(r, n)[x].j < NENTRIES
  {
    if n > 0 {
      RangeNumbers(r, n - 1);
    }
  }

  predicate Numbered(ps: seq<KPage>, v: nat) {
    exists x :: 0 <= x < |ps| && Number(ps[x]) == v
  }

  predicate InRange(r: KRange, v: nat) {
    r.v <= v < r.v + r.n
  }

  predicate InSome(kmap: seq<KRange>, v: nat) {
    exists r :: 0 <= r < |kmap| && InRange(kmap[r], v)
  }

  /** The numbers of the pages grow, and page v is there exactly if it is in a range. */
  ghost predicate PagesAre(kmap: seq<KRange>, ps: seq<KPage>) {
    && (forall x {:trigger ps[x]} :: 0 <= x < |ps| ==> ps[x].j < NENTRIES && InSome(kmap, Number(ps[x])))
    && (forall x, y :: 0 <= x < y < |ps| ==> Number(ps[x]) < Number(ps[y]))
    && forall v: nat {:trigger InSome(kmap, v)} :: InSome(kmap, v) ==> Numbered(ps, v)
  }

  /** rs are the pages of r in order. */
  ghost predicate PagesOf(r: KRange, rs: seq<KPage>) {
    |rs| == r.n && forall x :: 0 <= x < r.n ==> Number(rs[x]) == r.v + x && rs[x].j < NENTRIES
  }

  lemma SomeInit(kmap: seq<KRange>, v: nat)
    requires kmap != []
    ensures InSome(kmap, v) <==> InSome(kmap[..|kmap| - 1], v) || InRange(kmap[|kmap| - 1], v)
  {
    var init := kmap[..|kmap| - 1];
    if r :| 0 <= r < |init| && InRange(init[r], v) {
      assert InRange(kmap[r], v);
    }
    if r :| 0 <= r < |kmap| && InRange(kmap[r], v) && r < |kmap| - 1 {
      assert InRange(init[r], v);
    }
  }

  lemma RangeListed(kmap: seq<KRange>, qs: seq<KPage>, rs: seq<KPage>)
    requires kmap != [] && PagesAre(kmap[..|kmap| - 1], qs) && PagesOf(kmap[|kmap| - 1], rs)
    ensures var ps := qs + rs; forall x {:trigger ps[x]} :: 0 <= x < |ps| ==> ps[x].j < NENTRIES && InSome(kmap, Number(ps[x]))
  {
    hide Number;
    var ps := qs + rs;
    forall x | 0 <= x < |ps| ensures ps[x].j < NENTRIES && InSome(kmap, Number(ps[x])) {
      SomeInit(kmap, Number(ps[x]));
      if x < |qs| {
        assert ps[x] == qs[x];
      } else {
        var y := x - |qs|;
        assert ps[x] == rs[y];
      }
    }
  }

  /** A page of the earlier ranges is below the last. */
  lemma SomeBelow(kmap: seq<KRange>, v: nat)
    requires kmap != [] && Ascending(kmap) && InSome(kmap[..|kmap| - 1], v)
    ensures v < kmap[|kmap| - 1].v
  {
    var init := kmap[..|kmap| - 1];
    var r :| 0 <= r < |init| && InRange(init[r], v);
    assert init[r] == kmap[r];
  }

  lemma RangeGrows(kmap: seq<KRange>, qs: seq<KPage>, rs: seq<KPage>, x: nat, y: nat)
    requires kmap != [] && Ascending(kmap) && PagesAre(kmap[..|kmap| - 1], qs) && PagesOf(kmap[|kmap| - 1], rs)
    requires x < y < |qs + rs|
    ensures Number((qs + rs)[x]) < Number((qs + rs)[y])
  {
    hide Number, Ascending;
    var ps := qs + rs;
    if x < |qs| <= y {
      var z := y - |qs|;
      assert ps[x] == qs[x] && ps[y] == rs[z];
      SomeBelow(kmap, Number(qs[x]));
    } else if y < |qs| {
      assert ps[x] == qs[x] && ps[y] == qs[y];
    } else {
      var w, z := x - |qs|, y - |qs|;
      assert ps[x] == rs[w] && ps[y] == rs[z];
    }
  }

  lemma RangeCovers(kmap: seq<KRange>, qs: seq<KPage>, rs: seq<KPage>, v: nat)
    requires kmap != [] && PagesAre(kmap[..|kmap| - 1], qs) && PagesOf(kmap[|kmap| - 1], rs) && InSome(kmap, v)
    ensures Numbered(qs + rs, v)
  {
    hide Number;
    var r, ps := kmap[|kmap| - 1], qs + rs;
    SomeInit(kmap, v);
    if InRange(r, v) {
      var x := v - r.v;
      assert ps[|qs| + x] == rs[x];
    } else {
      assert Numbered(qs, v);
      var x :| 0 <= x < |qs| && Number(qs[x]) == v;
      assert ps[x] == qs[x];
    }
  }

  lemma OneMoreRange(kmap: seq<KRange>, qs: seq<KPage>)
    requires kmap != [] && Ascending(kmap) && PagesAre(kmap[..|kmap| - 1], qs)
    ensures var r := kmap[|kmap| - 1]; PagesAre(kmap, qs + RangePages(r, r.n))
  {
    var r := kmap[|kmap| - 1];
    var rs := RangePages(r, r.n);
    RangeNumbers(r, r.n);
    RangeListed(kmap, qs, rs);
    forall x, y | 0 <= x < y < |qs + rs| ensures Number((qs + rs)[x]) < Number((qs + rs)[y]) {
      RangeGrows(kmap, qs, rs, x, y);
    }
    forall v: nat | InSome(kmap, v) ensures Numbered(qs + rs, v) {
      RangeCovers(kmap, qs, rs, v);
    }
  }

  lemma {:induction false} AscendingPages(kmap: seq<KRange>)
    requires Ascending(kmap)
    ensures PagesAre(kmap, AllPages(kmap))
  {
    if kmap != [] {
      AscendingPages(kmap[..|kmap| - 1]);
      OneMoreRange(kmap, AllPages(kmap[..|kmap| - 1]));
    }
  }

  lemma AscendingKernel(kmap: seq<KRange>)
    requires Ascending(kmap)
    ensures KernelPages(AllPages(kmap))
  {
    hide AllPages, RangePages;
    AscendingPages(kmap);
    var ps := AllPages(kmap);
    forall x | 0 <= x < |ps| ensures NUSER <= ps[x].i < NENTRIES && ps[x].j < NENTRIES {
      assert InSome(kmap, Number(ps[x]));
    }
    forall x, y | 0 <= x < y < |ps| ensures ps[x].i != ps[y].i || ps[x].j != ps[y].j {
      assert Number(ps[x]) < Number(ps[y]);
    }
  }

  /** The pages of kmap are in the kernel half and none is entered twice, wherever the kernel's data
  begins: mappages does not panic in setupkvm. */
  lemma KmapOk(data: nat)
    requires KERNPAGE + EXTPAGE < data < KERNPAGE + TOP
    ensures KernelPages(AllPages(Kmap(data)))
  {
    AscendingKernel(Kmap(data));
  }

  lemma TwoRuns(s: set<nat>, a: nat, b: nat, c: nat, d: nat)
    requires a <= b <= c <= d && forall k :: k in s <==> a <= k < b || c <= k < d
    ensures |s| == (b - a) + (d - c)
  {
    assert s == Between(a, b) + Between(c, d);
  }

  lemma KmapAscends(data: nat)
    requires KERNPAGE + EXTPAGE < data < KERNPAGE + TOP
    ensures Ascending(Kmap(data))
  {
  }

  lemma KmapPages(data: nat, v: nat)
    requires KERNPAGE + EXTPAGE < data < KERNPAGE + TOP
    ensures InSome(Kmap(data), v) <==> KERNPAGE <= v < KERNPAGE + TOP || DEVPAGE <= v < NENTRIES * NENTRIES
  {
    var k := Kmap(data);
    assert InRange(k[0], v) || InRange(k[1], v) || InRange(k[2], v) || InRange(k[3], v)
      <==> KERNPAGE <= v < KERNPAGE + TOP || DEVPAGE <= v < NENTRIES * NENTRIES;
  }

  lemma EntryOfKmap(data: nat, ps: seq<KPage>, k: int)
    requires KERNPAGE + EXTPAGE < data < KERNPAGE + TOP && PagesAre(Kmap(data), ps)
    ensures k in Entries(ps) <==> 512 <= k < 544 || 1016 <= k < 1024
  {
    hide Kmap;
    if k in Entries(ps) {
      var x :| 0 <= x < |ps| && ps[x].i == k;
      KmapPages(data, Number(ps[x]));
    }
    if 512 <= k < 544 || 1016 <= k < 1024 {
      KmapPages(data, NENTRIES * k);
      assert Numbered(ps, NENTRIES * k);
      var x :| 0 <= x < |ps| && Number(ps[x]) == NENTRIES * k;
      assert ps[x].i == k;
    }
  }

  // ----- Where the kernel's pages lead -----

  /** p is a page of r: as far into the frames of r as into its pages. */
  predicate Leads(r: KRange, p: KPage) {
    InRange(r, Number(p)) && p.frame == r.frame + (Number(p) - r.v) && p.flags == r.flags
  }

  predicate LeadsFrom(kmap: seq<KRange>, p: KPage) {
    exists r :: 0 <= r < |kmap| && Leads(kmap[r], p)
  }

  lemma {:induction false} RangeLeads(r: KRange, n: nat)
    requires n <= r.n
    ensures forall x :: 0 <= x < n ==> Leads(r, RangePages(r, n)[x])
  {
    if n > 0 {
      RangeLeads(r, n - 1);
      assert Leads(r, RangePage(r, n - 1));
    }
  }

  lemma {:induction false} AllLead(kmap: seq<KRange>)
    ensures forall x :: 0 <= x < |AllPages(kmap)| ==> LeadsFrom(kmap, AllPages(kmap)[x])
  {
    if kmap != [] {
      var init, r := kmap[..|kmap| - 1], kmap[|kmap| - 1];
      var qs, ps := AllPages(init), AllPages(kmap);
      AllLead(init);
      RangeLeads(r, r.n);
      forall x | 0 <= x < |ps| ensures LeadsFrom(kmap, ps[x]) {
        if x < |qs| {
          assert ps[x] == qs[x];
          var k :| 0 <= k < |init| && Leads(init[k], qs[x]);
          assert kmap[k] == init[k];
        } else {
          var y := x - |qs|;
          assert ps[x] == RangePages(r, r.n)[y];
        }
      }
    }
  }

  /** The entry of kernel page v: physical memory from 0x80000 on, devices from 0xFE000 on, each page at
  its own frame; the kernel's text cannot be written and can be executed. */
  predicate PteIs(p: Pte, v: nat, data: nat) {
    if 0x80000 <= v < 0x88000 then p == Present(v - 0x80000, if 0x80100 <= v < data then 0x18 else 0)
    else if 0xFE000 <= v < 0x100000 then p == Present(v, 0)
    else p == Absent
  }

  lemma KmapLeads(data: nat, p: KPage)
    requires 0x80100 < data < 0x88000 && LeadsFrom(Kmap(data), p)
    ensures PteIs(Present(p.frame, p.flags), Number(p), data)
  {
    var k := Kmap(data);
    var r :| 0 <= r < |k| && Leads(k[r], p);
    assert r == 0 || r == 1 || r == 2 || r == 3;
  }

  /** They take 40 page tables. */
  lemma KmapEntries(data: nat)
    requires KERNPAGE + EXTPAGE < data < KERNPAGE + TOP
    ensures |Entries(AllPages(Kmap(data)))| == 40
    ensures forall k :: k in Entries(AllPages(Kmap(data))) ==> NUSER <= k
  {
    hide AllPages, Ascending, Kmap;
    KmapAscends(data);
    AscendingPages(Kmap(data));
    var ps := AllPages(Kmap(data));
    forall k ensures k in Entries(ps) <==> 512 <= k < 544 || 1016 <= k < 1024 {
      EntryOfKmap(data, ps, k);
    }
    TwoRuns(Entries(ps), 512, 544, 1016, 1024);
  }

  // ----- A new directory -----

  function NewDir(m: Mem): Mem
    requires m.free != []
  {
    var f := m.free[0];
    var n := Kalloc(m);
    n.(own := n.own[f := Dir], tab := n.tab[f := EmptyTable()], page := n.page[f := Zero])
  }

  lemma NewDirFrames(m: Mem)
    requires m.free != [] && Kalloc(m).Frames()
    ensures NewDir(m).Frames()
  {
    var n, g := Kalloc(m), NewDir(m);
    assert g.own.Keys == n.own.Keys;
    forall f ensures f in g.free || f in g.own <==> g.first <= f < TOP {
      assert f in n.free || f in n.own <==> n.first <= f < TOP;
    }
    forall f | f in g.own ensures f !in g.free {
      assert f in n.own;
    }
  }

  lemma NewDirOk(m: Mem)
    requires m.Ok() && m.free != []
    ensures NewDir(m).Ok()
  {
    KallocOk(m);
    var n, g := Kalloc(m), NewDir(m);
    NewDirFrames(m);
    forall e, k | g.IsDir(e) && 0 <= k < NENTRIES ensures g.EntryAt(e, k) {
      if e != m.free[0] {
        assert n.EntryAt(e, k);
      }
    }
    forall e, k, l | g.IsDir(e) && 0 <= k < NUSER && 0 <= l < NENTRIES ensures g.LeafAt(e, k, l) {
      if e != m.free[0] {
        assert n.LeafAt(e, k, l) && n.EntryAt(e, k);
      }
    }
    forall x | x in g.own ensures g.UseAt(x) {
      assert n.UseAt(x);
    }
  }

  /** A directory without entries, on the frame at the head of the free list. */
  ghost predicate BareDir(m: Mem, g: Mem, d: nat) {
    && g.Ok() && g.IsDir(d) && d !in m.own && SameMaps(m, g) && Kept(m, g) && TableSet(g, d) == {} && |g.free| == |m.free| - 1
    && (forall f :: f in g.own ==> f in m.own || f == d)
    && forall k, l :: 0 <= k < NENTRIES && 0 <= l < NENTRIES ==> g.Lookup(d, k, l).Absent?
  }

  lemma NewDirBare(m: Mem)
    requires m.Ok() && m.free != []
    ensures BareDir(m, NewDir(m), m.free[0])
  {
    NewDirOk(m);
    var g, d := NewDir(m), m.free[0];
    assert m.free[0] in m.free;
    forall e, k, l | m.IsDir(e) && 0 <= k < NENTRIES && 0 <= l < NENTRIES ensures KeepsAt(m, g, e, k, l) {
      assert m.EntryAt(e, k);
    }
  }

  /** d is a new address space: the kernel pages ps, no user pages, and the rest as it was. */
  ghost predicate FreshSpace(m: Mem, g: Mem, d: nat, ps: seq<KPage>) {
    && g.Ok() && g.IsDir(d) && d !in m.own && Kept(m, g) && SameMaps(m, g) && Prefix(g, d, 0) && KernelPages(ps)
    && (forall x :: 0 <= x < |ps| ==> g.Lookup(d, ps[x].i, ps[x].j) == Present(ps[x].frame, ps[x].flags))
    && (forall f :: f in g.own && f !in m.own ==> f == d || Belongs(g.own[f], d))
    && (forall k, l :: 0 <= k < NENTRIES && 0 <= l < NENTRIES && !Listed(ps, k, l) ==> g.Lookup(d, k, l).Absent?)
    && TableSet(g, d) == Entries(ps) && |m.free| == |g.free| + 1 + |Entries(ps)|
  }

  lemma FreshMaps(m: Mem, n: Mem, g: Mem, d: nat, ps: seq<KPage>)
    requires BareDir(m, n, d) && Entered(n, g, d, ps)
    ensures Prefix(g, d, 0) && SameMaps(m, g)
    ensures forall k, l :: 0 <= k < NENTRIES && 0 <= l < NENTRIES && !Listed(ps, k, l) ==> g.Lookup(d, k, l).Absent?
  {
    hide Mem.Ok;
    forall k, l | 0 <= k < NENTRIES && 0 <= l < NENTRIES && !Listed(ps, k, l) ensures g.Lookup(d, k, l).Absent? {
      assert KeepsAt(n, g, d, k, l);
    }
    forall k, l | 0 <= k < NUSER && 0 <= l < NENTRIES ensures g.Lookup(d, k, l).Absent? {
      assert !Listed(ps, k, l);
    }
    forall e, k, l | m.IsDir(e) && 0 <= k < NENTRIES && 0 <= l < NENTRIES ensures KeepsAt(m, g, e, k, l) {
      assert KeepsAt(m, n, e, k, l) && KeepsAt(n, g, e, k, l);
    }
  }

  lemma FreshIs(m: Mem, n: Mem, g: Mem, d: nat, ps: seq<KPage>)
    requires BareDir(m, n, d) && Entered(n, g, d, ps)
    ensures FreshSpace(m, g, d, ps)
  {
    FreshMaps(m, n, g, d, ps);
    hide Mem.Ok, SameMaps, Prefix;
    assert {} + Entries(ps) == Entries(ps);
  }

  lemma NumberIs(p: KPage, v: nat)
    requires p.j < NENTRIES
    ensures Number(p) == v <==> p.i == v / 1024 && p.j == v % 1024
  {
  }

  lemma ListedIff(data: nat, ps: seq<KPage>, v: nat)
    requires 0x80100 < data < 0x88000 && PagesAre(Kmap(data), ps)
    ensures Listed(ps, v / 1024, v % 1024) <==> 0x80000 <= v < 0x88000 || 0xFE000 <= v < 0x100000
  {
    hide Kmap, Number;
    KmapPages(data, v);
    forall x | 0 <= x < |ps| ensures Number(ps[x]) == v <==> ps[x].i == v / 1024 && ps[x].j == v % 1024 {
      NumberIs(ps[x], v);
    }
    if InSome(Kmap(data), v) {
      assert Numbered(ps, v);
    }
  }

  /** The directory setupkvm makes from kmap maps page v just as it should. */
  lemma KernelPte(m: Mem, g: Mem, d: nat, data: nat, v: nat)
    requires 0x80100 < data < 0x88000 && FreshSpace(m, g, d, AllPages(Kmap(data))) && v < 0x100000
    ensures PteIs(g.Lookup(d, v / 1024, v % 1024), v, data)
  {
    hide AllPages, Kmap, Mem.Ok, SameMaps, Kept, Prefix, Ascending, LeadsFrom, Number, PagesAre, TableSet;
    var ps, k, l := AllPages(Kmap(data)), v / 1024, v % 1024;
    KmapAscends(data);
    AscendingPages(Kmap(data));
    AllLead(Kmap(data));
    ListedIff(data, ps, v);
    if Listed(ps, k, l) {
      var x :| 0 <= x < |ps| && ps[x].i == k && ps[x].j == l;
      NumberIs(ps[x], v);
      KmapLeads(data, ps[x]);
    }
  }
}
