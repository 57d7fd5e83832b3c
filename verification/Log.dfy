/** The redo log (log.c) over the buffer cache.  Every disk write it makes is a step of the machine
in LogProtocol; `trace` records them, so crash atomicity holds after each. */
module RedoLog {
  import opened Blocks
  import opened Common
  import opened BufferCache
  import opened LogProtocol

  /** Logged sector k is held by a dirty buffer, which unless in use equals its slot. */
  ghost predicate Held(bs: seq<Buf>, d: Disk, g: Geometry, lh: seq<Word>, k: nat)
    requires k < |lh| < g.size && g.Wf() && |d| == g.disksize
  {
    exists i :: Caches(bs, i, lh[k]) && bs[i].dirty && (!bs[i].busy ==> bs[i].data == d[g.Slot(k)])
  }

  /** The dirty buffers are exactly the logged sectors; only home sectors are in use outside log.c. */
  ghost predicate Pinned(bs: seq<Buf>, d: Disk, g: Geometry, lh: seq<Word>)
    requires g.Wf() && |d| == g.disksize && |lh| < g.size
  {
    && (forall i :: 0 <= i < |bs| && bs[i].dirty ==> bs[i].sector in lh)
    && (forall i :: 0 <= i < |bs| && bs[i].busy ==> bs[i].valid && g.Home(bs[i].sector))
    && forall k :: 0 <= k < |lh| ==> Held(bs, d, g, lh, k)
  }

  /** The net effect of bread, memmove, bwrite, brelse on the buffers. */
  predicate Rewrote(was: seq<Buf>, now: seq<Buf>, b: nat, s: Word, x: Block)
    requires |was| == NBUF
  {
    && b < NBUF && !was[b].busy
    && (was[b].Is(DISKDEV, s) || (!was[b].dirty && Absent(was, DISKDEV, s)))
    && now == was[b := Buf(DISKDEV, s, false, true, false, x)]
  }

  ghost predicate SameHomeView(g: Geometry, bs: seq<Buf>, d: Disk, bs': seq<Buf>, d': Disk)
    requires |d| == |d'| == g.disksize <= TWO32
  {
    forall s: Word :: g.Home(s) ==> View(bs', d', s) == View(bs, d, s)
  }

  lemma RewriteCoherent(was: seq<Buf>, now: seq<Buf>, d: Disk, b: nat, s: Word, x: Block)
    requires Coherent(was, d) && s < |d| && Rewrote(was, now, b, s, x)
    ensures Coherent(now, d[s := x])
    ensures forall t: Word :: t < |d| ==> View(now, d[s := x], t) == if t == s then x else View(was, d, t)
  {
    var d' := d[s := x];
    forall t: Word | t < |d| ensures View(now, d', t) == if t == s then x else View(was, d, t) {
      if t == s {
        assert Caches(now, b, s);
      } else {
        assert forall i :: Caches(now, i, t) ==> i != b && Caches(was, i, t);
        assert forall i :: Caches(was, i, t) && i != b ==> Caches(now, i, t);
      }
    }
  }

  /** Rewriting a log sector disturbs no pinned buffer, except that its own slot changes. */
  lemma RewriteLogSector(was: seq<Buf>, now: seq<Buf>, d: Disk, g: Geometry, lh: seq<Word>, b: nat, s: Word, x: Block)
    requires g.Wf() && |d| == g.disksize && Fits(g, lh) && Coherent(was, d) && Pinned(was, d, g, lh)
    requires s < |d| && !g.Home(s) && Rewrote(was, now, b, s, x)
    ensures forall i :: 0 <= i < |now| && now[i].dirty ==> now[i].sector in lh
    ensures forall i :: 0 <= i < |now| && now[i].busy ==> now[i].valid && g.Home(now[i].sector)
    ensures forall k :: 0 <= k < |lh| && g.Slot(k) != s ==> Held(now, d[s := x], g, lh, k)
  {
    forall k | 0 <= k < |lh| && g.Slot(k) != s ensures Held(now, d[s := x], g, lh, k) {
      assert Held(was, d, g, lh, k);
      var i :| Caches(was, i, lh[k]) && was[i].dirty && (!was[i].busy ==> was[i].data == d[g.Slot(k)]);
      assert i != b;
      assert Caches(now, i, lh[k]);
    }
  }

  // ----- What a client of the cache does in a transaction -----

  predicate InUse(bs: seq<Buf>, s: Word) {
    exists i :: 0 <= i < |bs| && bs[i].Is(DISKDEV, s) && bs[i].busy
  }

  /** If the buffer's sector is logged, its slot holds what the buffer does. */
  predicate SlotHolds(d: Disk, g: Geometry, lh: seq<Word>, b: Buf)
    requires g.Wf() && |d| == g.disksize && |lh| < g.size
  {
    forall k :: 0 <= k < |lh| && lh[k] == b.sector ==> b.data == d[g.Slot(k)]
  }

  /** bread of a home sector. */
  lemma FetchKeepsPinned(was: seq<Buf>, now: seq<Buf>, d: Disk, g: Geometry, lh: seq<Word>, s: Word, b: nat)
    requires g.Wf() && |d| == g.disksize && |lh| < g.size && Coherent(was, d) && Pinned(was, d, g, lh)
    requires b < NBUF && g.Home(s) && Fetched(was, now, d, s, b)
    ensures Pinned(now, d, g, lh) && SlotHolds(d, g, lh, now[b])
  {
    forall k | 0 <= k < |lh| ensures Held(now, d, g, lh, k) && (lh[k] == s ==> now[b].data == d[g.Slot(k)]) {
      assert Held(was, d, g, lh, k);
      var i :| Caches(was, i, lh[k]) && was[i].dirty && (!was[i].busy ==> was[i].data == d[g.Slot(k)]);
      assert Caches(now, i, lh[k]);
    }
  }

  /** A store into a buffer in use. */
  lemma StoreKeepsPinned(was: seq<Buf>, d: Disk, g: Geometry, lh: seq<Word>, b: nat, x: Block)
    requires g.Wf() && |d| == g.disksize && |lh| < g.size && Coherent(was, d) && Pinned(was, d, g, lh)
    requires b < NBUF && was[b].busy
    ensures Pinned(was[b := was[b].(data := x)], d, g, lh)
  {
    var now := was[b := was[b].(data := x)];
    forall k | 0 <= k < |lh| ensures Held(now, d, g, lh, k) {
      assert Held(was, d, g, lh, k);
      var i :| Caches(was, i, lh[k]) && was[i].dirty && (!was[i].busy ==> was[i].data == d[g.Slot(k)]);
      assert Caches(now, i, lh[k]);
    }
  }

  /** brelse of a buffer that, if its sector is logged, holds what was logged. */
  lemma ReleaseKeepsPinned(was: seq<Buf>, d: Disk, g: Geometry, lh: seq<Word>, b: nat)
    requires g.Wf() && |d| == g.disksize && |lh| < g.size && Coherent(was, d) && Pinned(was, d, g, lh)
    requires b < NBUF && was[b].busy && SlotHolds(d, g, lh, was[b])
    ensures Pinned(was[b := was[b].(busy := false)], d, g, lh)
  {
    var now := was[b := was[b].(busy := false)];
    forall k | 0 <= k < |lh| ensures Held(now, d, g, lh, k) {
      assert Held(was, d, g, lh, k);
      var i :| Caches(was, i, lh[k]) && was[i].dirty && (!was[i].busy ==> was[i].data == d[g.Slot(k)]);
      assert Caches(now, i, lh[k]);
    }
  }

  /** A busy buffer's contents are what its sector reads as. */
  lemma BufferViews(was: seq<Buf>, now: seq<Buf>, d: Disk, b: nat, y: Buf)
    requires Coherent(was, d) && b < NBUF && was[b].busy && was[b].valid && y.Is(was[b].dev, was[b].sector) && y.valid
    requires now == was[b := y]
    ensures forall t: Word :: t < |d| ==> View(now, d, t) == if t == was[b].sector then y.data else View(was, d, t)
  {
    forall t: Word | t < |d| ensures View(now, d, t) == if t == was[b].sector then y.data else View(was, d, t) {
      forall i | Caches(now, i, t) ensures i == b || (t != was[b].sector && Caches(was, i, t)) {
        assert i == b || Caches(was, i, t);
      }
      if t == was[b].sector {
        assert Caches(now, b, t);
      } else {
        assert forall i :: Caches(was, i, t) ==> i != b && Caches(now, i, t);
      }
    }
  }

  lemma ReleaseKeepsView(was: seq<Buf>, d: Disk, b: nat)
    requires Coherent(was, d) && b < NBUF && was[b].busy && was[b].valid
    ensures SameView(was, d, was[b := was[b].(busy := false)], d)
  {
    BufferViews(was, was[b := was[b].(busy := false)], d, b, was[b].(busy := false));
    ViewOfCached(was, d, b);
  }

  lemma FetchedNotInUse(was: seq<Buf>, now: seq<Buf>, d: Disk, s: Word, b: nat)
    requires Coherent(was, d) && b < NBUF && s < |d| && Fetched(was, now, d, s, b)
    ensures !InUse(was, s)
    ensures now[b].dirty || now[b].data == d[s]
  {
  }

  /** The disk is where the recorded steps lead from some recoverable disk d0. */
  ghost predicate Reached(g: Geometry, d0: Disk, trace: seq<Step>, d: Disk, mem: Memory) {
    && g.Wf() && |d0| == g.disksize <= TWO32 && Fits(g, Header(d0[g.start]))
    && Run(g, State(d0, Down), trace) == Ran(State(d, mem))
  }

  /** How a client's access ends: with the sector's contents, asleep for the process that holds the
  buffer, or in a panic. */
  datatype Access = Done(x: Block) | Sleeps | Panics

  /** How commit_trans ends: asleep means that a process holds the buffer of logged sector k, while the
  committer holds buffer b with its slot. */
  datatype Commit = Finished | AsleepAt(k: nat, b: nat) | Halted

  /** Sector s now reads as x, every other home sector as before. */
  ghost predicate Updated(g: Geometry, bs: seq<Buf>, d: Disk, bs': seq<Buf>, d': Disk, s: Word, x: Block)
    requires |d| == |d'| == g.disksize <= TWO32
  {
    forall t: Word :: g.Home(t) ==> View(bs', d', t) == if t == s then x else View(bs, d, t)
  }

  /** The same sectors are in use. */
  predicate SameInUse(was: seq<Buf>, now: seq<Buf>) {
    |was| == |now| && forall i :: 0 <= i < |was| ==>
      was[i].busy == now[i].busy && (was[i].busy ==> now[i].Is(was[i].dev, was[i].sector))
  }

  /** What log_write does as its callers see it: the buffer is marked dirty, other buffers in use
  are untouched, and no home sector reads differently. */
  ghost predicate Logged(g: Geometry, was: seq<Buf>, d: Disk, now: seq<Buf>, d': Disk, b: nat) {
    && |was| == |now| == NBUF && b < NBUF && |d| == |d'| == g.disksize <= TWO32
    && now[b] == was[b].(dirty := true)
    && (forall i :: 0 <= i < NBUF && i != b && was[i].busy ==> now[i] == was[i])
    && SameHomeView(g, was, d, now, d') && SameInUse(was, now)
  }

  lemma ReachedShape(g: Geometry, d0: Disk, trace: seq<Step>, d: Disk, mem: Memory)
    requires Reached(g, d0, trace, d, mem)
    ensures g.Wf() && |d| == g.disksize <= TWO32
  {
  }

  lemma BusyIsHome(bs: seq<Buf>, d: Disk, g: Geometry, lh: seq<Word>, b: nat)
    requires g.Wf() && |d| == g.disksize && |lh| < g.size && Pinned(bs, d, g, lh) && b < |bs| && bs[b].busy
    ensures bs[b].valid && g.Home(bs[b].sector)
  {
  }

  lemma SlotNotInUse(bs: seq<Buf>, d: Disk, g: Geometry, lh: seq<Word>, i: nat)
    requires g.Wf() && |d| == g.disksize <= TWO32 && |lh| < g.size && Pinned(bs, d, g, lh) && i < g.size - 1
    ensures forall k :: 0 <= k < |bs| && bs[k].Is(DISKDEV, g.Slot(i)) ==> !bs[k].busy
  {
  }

  lemma StoreKeepsClean(bs: seq<Buf>, b: nat, x: Block)
    requires b < |bs|
    ensures NoneClean(bs[b := bs[b].(data := x)]) ==> NoneClean(bs)
    ensures SameInUse(bs, bs[b := bs[b].(data := x)])
  {
    var now := bs[b := bs[b].(data := x)];
    assert forall i :: 0 <= i < |bs| ==> bs[i].Clean() == now[i].Clean();
  }

  predicate TwoClean(bs: seq<Buf>) {
    exists i, j :: 0 <= i < j < |bs| && bs[i].Clean() && bs[j].Clean()
  }

  lemma NoBufferMeans(bs: seq<Buf>, s: Word)
    requires Absent(bs, DISKDEV, s) && NoneClean(bs)
    ensures !InUse(bs, s) && !TwoClean(bs)
  {
  }

  lemma UpdatedView(g: Geometry, was: seq<Buf>, d: Disk, mid: seq<Buf>, log: seq<Buf>, now: seq<Buf>, d': Disk, s: Word,
      x: Block)
    requires |d| == |d'| == g.disksize <= TWO32
    requires SameView(was, d, mid, d) && Updated(g, mid, d, log, d', s, x) && SameView(log, d', now, d')
    ensures Updated(g, was, d, now, d', s, x)
  {
  }

  lemma UpdatedInUse(was: seq<Buf>, mid: seq<Buf>, log: seq<Buf>, d: Disk, s: Word, b: nat)
    requires |was| == |mid| == NBUF && b < NBUF && s < |d| && Fetched(was, mid, d, s, b) && SameInUse(mid, log)
    ensures SameInUse(was, log[b := log[b].(busy := false)])
  {
  }

  lemma SlotIsWritten(d: Disk, g: Geometry, lh: seq<Word>, i: nat, b: Buf, lh': seq<Word>)
    requires g.Wf() && |d| == g.disksize && |lh'| < g.size && Distinct(lh) && i <= |lh|
    requires b.sector !in lh[..i] && (i < |lh| ==> lh[i] == b.sector)
    requires lh' == if i == |lh| then lh + [b.sector] else lh
    requires d[g.Slot(i)] == b.data
    ensures SlotHolds(d, g, lh', b) && SlotHolds(d, g, lh', b.(dirty := true))
  {
    forall k | 0 <= k < |lh'| && lh'[k] == b.sector ensures k == i {
      assert lh'[k] !in lh[..i];
    }
  }

  /** Handing out a buffer uses up at most one clean one. */
  lemma OneCleanLess(was: seq<Buf>, now: seq<Buf>, d: Disk, s: Word, b: nat)
    requires |was| == NBUF && b < NBUF && s < |d| && Fetched(was, now, d, s, b)
    ensures NoneClean(now) ==> !TwoClean(was)
  {
    forall i, j | 0 <= i < j < |was| && was[i].Clean() && was[j].Clean() ensures !NoneClean(now) {
      assert now[if i == b then j else i].Clean();
    }
  }

  lemma StillInUse(was: seq<Buf>, now: seq<Buf>, s: Word)
    requires SameInUse(was, now) && InUse(now, s)
    ensures InUse(was, s)
  {
    var i :| 0 <= i < |now| && now[i].Is(DISKDEV, s) && now[i].busy;
    assert was[i].busy;
  }

  lemma SomeClean(bs: seq<Buf>)
    ensures TwoClean(bs) ==> !NoneClean(bs)
  {
  }

  predicate NoneDirty(bs: seq<Buf>, s: Word) {
    forall i :: 0 <= i < |bs| && bs[i].Is(DISKDEV, s) ==> !bs[i].dirty
  }

  predicate CannotPair(bs: seq<Buf>, home: Word) {
    NoneClean(bs) || (NoneDirty(bs, home) && !TwoClean(bs))
  }

  lemma CanPair(bs: seq<Buf>, home: Word)
    requires TwoClean(bs)
    ensures !CannotPair(bs, home)
  {
  }

  lemma SameInUseItself(bs: seq<Buf>)
    ensures SameInUse(bs, bs)
  {
  }

  lemma SameInUseStep(was: seq<Buf>, mid: seq<Buf>, now: seq<Buf>)
    requires SameInUse(was, mid) && SameInUse(mid, now)
    ensures SameInUse(was, now)
  {
  }

  lemma RunStep(g: Geometry, s: State, trace: seq<Step>, m: State, ev: Step)
    requires g.Wf() && |s.disk| == g.disksize && Run(g, s, trace) == Ran(m) && Enabled(g, m, ev)
    ensures Run(g, s, trace + [ev]) == Ran(Next(g, m, ev))
  {
    assert (trace + [ev])[..|trace|] == trace;
  }

  lemma BeginRuns(g: Geometry, d0: Disk, trace: seq<Step>, d: Disk, lh: seq<Word>)
    requires Reached(g, d0, trace, d, Up(lh, false))
    ensures lh == [] && Reached(g, d0, trace + [Begin], d, Up(lh, true))
  {
    RunKeepsInv(g, d0, trace);
    RunStep(g, State(d0, Down), trace, State(d, Up(lh, false)), Begin);
  }

  lemma CommitEmptyRuns(g: Geometry, d0: Disk, trace: seq<Step>, d: Disk)
    requires Reached(g, d0, trace, d, Up([], true))
    ensures Reached(g, d0, trace + [CommitEmpty], d, Up([], false))
  {
    RunStep(g, State(d0, Down), trace, State(d, Up([], true)), CommitEmpty);
  }

  lemma CommitRuns(g: Geometry, d0: Disk, trace: seq<Step>, d: Disk, lh: seq<Word>)
    requires Reached(g, d0, trace, d, Up(lh, true)) && |lh| > 0
    ensures Fits(g, lh) && Distinct(lh) && |d| == g.disksize
    ensures Reached(g, d0, trace + [WriteHead], d[g.start := StoreSectors(d[g.start], lh, |lh|)], Installing(lh, 0))
  {
    RunKeepsInv(g, d0, trace);
    RunStep(g, State(d0, Down), trace, State(d, Up(lh, true)), WriteHead);
  }

  lemma EraseRuns(g: Geometry, d0: Disk, trace: seq<Step>, d: Disk, lh: seq<Word>)
    requires Reached(g, d0, trace, d, Installing(lh, |lh|))
    ensures Fits(g, lh) && |d| == g.disksize
    ensures Reached(g, d0, trace + [Erase], d[g.start := StoreSectors(d[g.start], [], 0)], Up([], false))
  {
    RunKeepsInv(g, d0, trace);
    RunStep(g, State(d0, Down), trace, State(d, Installing(lh, |lh|)), Erase);
  }

  lemma RecoverRuns(g: Geometry, d0: Disk, trace: seq<Step>, d: Disk)
    requires Reached(g, d0, trace, d, Down)
    ensures |d| == g.disksize && Fits(g, Header(d[g.start]))
    ensures Reached(g, d0, trace + [ReadHead], d, Installing(Header(d[g.start]), 0))
  {
    RunKeepsInv(g, d0, trace);
    RunStep(g, State(d0, Down), trace, State(d, Down), ReadHead);
  }

  /** While installing: only sectors still to be copied are dirty, and no log sector is in use. */
  predicate PinnedFrom(bs: seq<Buf>, g: Geometry, lh: seq<Word>, k: nat)
    requires k <= |lh|
  {
    && (forall i :: 0 <= i < |bs| && bs[i].dirty ==> bs[i].sector in lh[k..])
    && forall i :: 0 <= i < |bs| && bs[i].busy ==> bs[i].valid && g.Home(bs[i].sector)
  }

  predicate HasDirty(bs: seq<Buf>, s: Word) {
    exists i :: 0 <= i < |bs| && bs[i].Is(DISKDEV, s) && bs[i].dirty
  }

  /** Every logged sector from k on is distinct from the others and dirty in the cache. */
  predicate StillDirty(bs: seq<Buf>, lh: seq<Word>, k: nat) {
    Distinct(lh) && forall j :: k <= j < |lh| ==> HasDirty(bs, lh[j])
  }

  lemma HeaderKeepsPinned(was: seq<Buf>, now: seq<Buf>, d: Disk, g: Geometry, lh: seq<Word>, b: nat, x: Block)
    requires g.Wf() && |d| == g.disksize <= TWO32 && Fits(g, lh) && |lh| > 0 && |was| == NBUF
    requires Pinned(was, d, g, lh) && Rewrote(was, now, b, g.start, x) && Distinct(lh)
    ensures PinnedFrom(now, g, lh, 0) && !CannotPair(now, lh[0]) && StillDirty(now, lh, 0)
  {
    forall j | 0 <= j < |lh| ensures HasDirty(now, lh[j]) {
      assert Held(was, d, g, lh, j);
      var i :| Caches(was, i, lh[j]) && was[i].dirty;
      assert now[i] == was[i];
    }
    assert lh[0..] == lh;
    assert now[b].Clean();
    assert Held(was, d, g, lh, 0);
    var i :| Caches(was, i, lh[0]) && was[i].dirty;
    assert now[i] == was[i];
  }

  lemma EraseKeepsPinned(was: seq<Buf>, now: seq<Buf>, d: Disk, g: Geometry, lh: seq<Word>, b: nat, x: Block)
    requires g.Wf() && |d| == g.disksize <= TWO32 && |was| == NBUF
    requires PinnedFrom(was, g, lh, |lh|) && Rewrote(was, now, b, g.start, x)
    ensures Pinned(now, d, g, []) && forall i :: 0 <= i < |now| ==> !now[i].dirty
  {
  }

  function Installs(n: nat): seq<Step> {
    if n == 0 then [] else Installs(n - 1) + [InstallOne]
  }

  predicate SlotClean(bs: seq<Buf>, slot: Word) {
    forall i :: 0 <= i < |bs| && bs[i].Is(DISKDEV, slot) ==> bs[i].Clean()
  }

  lemma PinnedSlots(bs: seq<Buf>, g: Geometry, lh: seq<Word>, k: nat)
    requires k < |lh| && PinnedFrom(bs, g, lh, k) && g.Wf() && Fits(g, lh) && g.disksize <= TWO32
    ensures SlotClean(bs, g.Slot(k))
  {
    assert forall x :: x in lh[k..] ==> x in lh;
  }

  predicate Copied(was: seq<Buf>, now: seq<Buf>, bl: nat, bd: nat, slot: Word, home: Word, x: Block)
    requires |was| == NBUF
  {
    && bl < NBUF && bd < NBUF && bl != bd
    && var mid := was[bl := Buf(DISKDEV, slot, false, true, false, x)];
    Rewrote(was, mid, bl, slot, x) && Rewrote(mid, now, bd, home, x)
  }

  lemma CopyKeepsPinned(was: seq<Buf>, now: seq<Buf>, d: Disk, g: Geometry, lh: seq<Word>, k: nat, bl: nat, bd: nat,
      x: Block)
    requires |was| == NBUF && k < |lh| && PinnedFrom(was, g, lh, k) && g.Wf() && Fits(g, lh) && g.disksize <= TWO32
    requires Copied(was, now, bl, bd, g.Slot(k), lh[k], x) && Coherent(now, d)
    ensures PinnedFrom(now, g, lh, k + 1) && TwoClean(now) && SameInUse(was, now)
    ensures StillDirty(was, lh, k) ==> StillDirty(now, lh, k + 1)
  {
    if StillDirty(was, lh, k) {
      forall j | k + 1 <= j < |lh| ensures HasDirty(now, lh[j]) {
        assert HasDirty(was, lh[j]);
        var i :| 0 <= i < |was| && was[i].Is(DISKDEV, lh[j]) && was[i].dirty;
        assert lh[j] != lh[k] && g.Home(lh[j]) && i != bl && i != bd;
        assert now[i] == was[i];
      }
    }
    assert lh[k..] == [lh[k]] + lh[k + 1..];
    assert now[bl].Clean() && now[bd].Clean();
    forall i | 0 <= i < |now| && now[i].dirty ensures now[i].sector in lh[k + 1..] {
      assert now[i] == was[i] && !now[i].Is(DISKDEV, lh[k]);
    }
  }

  lemma InstallRuns(g: Geometry, d0: Disk, trace: seq<Step>, d: Disk, lh: seq<Word>, tail: nat)
    requires Reached(g, d0, trace, d, Installing(lh, tail)) && tail < |lh|
    ensures Fits(g, lh) && |d| == g.disksize
    ensures Reached(g, d0, trace + [InstallOne], d[lh[tail] := d[g.Slot(tail)]], Installing(lh, tail + 1))
  {
    RunKeepsInv(g, d0, trace);
    RunStep(g, State(d0, Down), trace, State(d, Installing(lh, tail)), InstallOne);
  }

  /** Buffer b has been handed out for the slot, which holds x. */
  predicate Holding(was: seq<Buf>, now: seq<Buf>, b: nat, slot: Word, x: Block)
    requires |was| == NBUF
  {
    && b < NBUF && now == was[b := Buf(DISKDEV, slot, true, true, false, x)]
    && Rewrote(was, was[b := Buf(DISKDEV, slot, false, true, false, x)], b, slot, x)
  }

  function Freed(bs: seq<Buf>, b: nat): seq<Buf>
    requires b < |bs|
  {
    bs[b := bs[b].(busy := false)]
  }

  lemma HoldingIs(was: seq<Buf>, now: seq<Buf>, disk: Disk, slot: Word, b: nat)
    requires Coherent(was, disk) && slot < |disk| && SlotClean(was, slot) && b < NBUF && Fetched(was, now, disk, slot, b)
    ensures Holding(was, now, b, slot, disk[slot])
  {
    assert was[b].Is(DISKDEV, slot) ==> was[b].Clean() && was[b].data == disk[slot];
  }

  /** The home sector read beside the slot: the copy, with both released, rewrites the home buffer alone. */
  lemma CopyIs(mid: seq<Buf>, now: seq<Buf>, disk: Disk, slot: Word, home: Word, bl: nat, bd: nat)
    requires Coherent(mid, disk) && slot < |disk| && home < |disk| && slot != home && bl < NBUF && bd < NBUF
    requires mid[bl] == Buf(DISKDEV, slot, true, true, false, disk[slot]) && Fetched(mid, now, disk, home, bd)
    ensures bl != bd && now[bl] == mid[bl] && now[bd].busy && now[bd].valid && now[bd].Is(DISKDEV, home)
    ensures var x := disk[slot];
      Rewrote(Freed(mid, bl), now[bd := Buf(DISKDEV, home, false, true, false, x)][bl := mid[bl].(busy := false)], bd, home, x)
  {
    if Absent(mid, DISKDEV, home) {
      forall i | 0 <= i < NBUF ensures !Freed(mid, bl)[i].Is(DISKDEV, home) {
        assert !mid[i].Is(DISKDEV, home);
      }
    }
  }

  /** The second read of the pair waits only for the home sector's holder and fails only for want of
  a clean buffer. */
  lemma SecondRead(was: seq<Buf>, mid: seq<Buf>, slot: Word, home: Word, b: nat, x: Block)
    requires |was| == NBUF && slot != home && SlotClean(was, slot) && Holding(was, mid, b, slot, x)
    ensures mid[b] == Buf(DISKDEV, slot, true, true, false, x) && InUse(mid, home) ==> InUse(was, home)
    ensures Absent(mid, DISKDEV, home) && NoneClean(mid) ==> CannotPair(was, home)
  {
    if i :| 0 <= i < |mid| && mid[i].Is(DISKDEV, home) && mid[i].busy {
      assert mid[i] == was[i];
    }
    if Absent(mid, DISKDEV, home) && NoneClean(mid) {
      forall i, j | 0 <= i < j < |was| && was[i].Clean() ensures !was[j].Clean() {
        assert !mid[i].Clean() && !mid[j].Clean();
      }
      forall i | 0 <= i < |was| && was[i].Is(DISKDEV, home) ensures !was[i].dirty {
        assert !mid[i].Is(DISKDEV, home);
      }
    }
  }

  // ----- The committer asleep -----

  /** Buffer b is held with slot k; apart from that, only sectors from k on are dirty, and all of them. */
  predicate Paused(bs: seq<Buf>, d: Disk, g: Geometry, lh: seq<Word>, k: nat, b: nat) {
    && b < |bs| && k < |lh| && g.Wf() && |d| == g.disksize <= TWO32 && 0 <= g.Slot(k) < |d|
    && bs[b] == Buf(DISKDEV, g.Slot(k), true, true, false, d[g.Slot(k)])
    && PinnedFrom(Freed(bs, b), g, lh, k) && StillDirty(bs, lh, k)
  }

  lemma PausedIs(was: seq<Buf>, now: seq<Buf>, d: Disk, g: Geometry, lh: seq<Word>, k: nat, b: nat)
    requires |was| == NBUF && k < |lh| && g.Wf() && Fits(g, lh) && |d| == g.disksize <= TWO32
    requires PinnedFrom(was, g, lh, k) && Holding(was, now, b, g.Slot(k), d[g.Slot(k)])
    ensures StillDirty(was, lh, k) ==> Paused(now, d, g, lh, k, b)
  {
    if StillDirty(was, lh, k) {
      assert Freed(now, b) == was[b := Buf(DISKDEV, g.Slot(k), false, true, false, d[g.Slot(k)])];
      forall j | k <= j < |lh| ensures HasDirty(now, lh[j]) {
        assert HasDirty(was, lh[j]);
        var i :| 0 <= i < |was| && was[i].Is(DISKDEV, lh[j]) && was[i].dirty;
        assert i != b && now[i] == was[i];
      }
    }
  }

  lemma PausedFacts(bs: seq<Buf>, d: Disk, g: Geometry, lh: seq<Word>, k: nat, b: nat)
    requires |bs| == NBUF && Paused(bs, d, g, lh, k, b) && Fits(g, lh)
    ensures b < NBUF && bs[b] == Buf(DISKDEV, g.Slot(k), true, true, false, d[g.Slot(k)])
    ensures !Absent(bs, DISKDEV, lh[k]) && lh[k] != g.Slot(k) && lh[k] < |d|
  {
    assert HasDirty(bs, lh[k]);
  }

  /** The copy to the home sector, after the sleep, leaves what the next iteration needs. */
  lemma ResumeKeepsPinned(was: seq<Buf>, now: seq<Buf>, d: Disk, d': Disk, g: Geometry, lh: seq<Word>, k: nat, b: nat,
      bd: nat)
    requires |was| == NBUF && Paused(was, d, g, lh, k, b) && Fits(g, lh) && Coherent(now, d') && b != bd
    requires Rewrote(Freed(was, b), now, bd, lh[k], d[g.Slot(k)])
    ensures PinnedFrom(now, g, lh, k + 1) && TwoClean(now) && SameInUse(Freed(was, b), now) && StillDirty(now, lh, k + 1)
  {
    var free, x := Freed(was, b), d[g.Slot(k)];
    assert Rewrote(free, free, b, g.Slot(k), x);
    assert free[b := Buf(DISKDEV, g.Slot(k), false, true, false, x)] == free;
    assert StillDirty(free, lh, k) by {
      forall j | k <= j < |lh| ensures HasDirty(free, lh[j]) {
        assert HasDirty(was, lh[j]);
        var i :| 0 <= i < |was| && was[i].Is(DISKDEV, lh[j]) && was[i].dirty;
        assert free[i].dirty && free[i].Is(DISKDEV, lh[j]);
      }
    }
    CopyKeepsPinned(free, now, d', g, lh, k, b, bd, x);
  }

  lemma ResumeInUse(was: seq<Buf>, mid: seq<Buf>, b: nat, s: Word)
    requires b < |was| && SameInUse(Freed(was, b), mid) && InUse(mid, s)
    ensures InUse(was, s)
  {
    StillInUse(Freed(was, b), mid, s);
    var i :| 0 <= i < |was| && Freed(was, b)[i].Is(DISKDEV, s) && Freed(was, b)[i].busy;
    assert was[i].busy && was[i].Is(DISKDEV, s);
  }

  lemma ReleaseKeepsPaused(was: seq<Buf>, d: Disk, g: Geometry, lh: seq<Word>, k: nat, b: nat, i: nat)
    requires Paused(was, d, g, lh, k, b) && i < |was| && i != b
    ensures Paused(Freed(was, i), d, g, lh, k, b)
  {
    var now := Freed(was, i);
    assert Freed(now, b) == Freed(Freed(was, b), i);
    forall j | k <= j < |lh| ensures HasDirty(now, lh[j]) {
      assert HasDirty(was, lh[j]);
      var x :| 0 <= x < |was| && was[x].Is(DISKDEV, lh[j]) && was[x].dirty;
      assert now[x].dirty && now[x].Is(DISKDEV, lh[j]);
    }
  }

  lemma {:induction false} InstallsJoin(n: nat)
    requires n > 0
    ensures [InstallOne] + Installs(n - 1) == Installs(n)
  {
    if n > 1 {
      InstallsJoin(n - 1);
    } else {
      assert Installs(0) == [] && Installs(1) == [] + [InstallOne];
    }
  }

  lemma IndexIs(lh: seq<Word>, s: Word, i: nat)
    requires i <= |lh| && s !in lh[..i] && (i < |lh| ==> lh[i] == s)
    ensures IndexOf(lh, s) == i
    ensures (if i == |lh| then lh + [s] else lh) == Absorb(lh, s)
  {
    var k := IndexOf(lh, s);
  }

  lemma LogWriteRuns(g: Geometry, d0: Disk, trace: seq<Step>, d: Disk, lh: seq<Word>, w: Write, i: nat, lh': seq<Word>)
    requires Reached(g, d0, trace, d, Up(lh, true))
    requires |lh| < LOGSIZE && |lh| < g.size - 1 && g.Home(w.sector)
    requires i <= |lh| && w.sector !in lh[..i] && (i < |lh| ==> lh[i] == w.sector)
    ensures Fits(g, lh) && Distinct(lh) && |d| == g.disksize
    requires lh' == if i == |lh| then lh + [w.sector] else lh
    ensures lh' == Absorb(lh, w.sector)
    ensures Reached(g, d0, trace + [Step.LogWrite(w)], d[g.Slot(i) := w.data], Up(lh', true))
  {
    IndexIs(lh, w.sector, i);
    RunKeepsInv(g, d0, trace);
    RunStep(g, State(d0, Down), trace, State(d, Up(lh, true)), Step.LogWrite(w));
  }

  /** Setting B_DIRTY on the caller's buffer restores the pinning of the sector just logged. */
  lemma MarkDirty(bs: seq<Buf>, d: Disk, g: Geometry, lh: seq<Word>, b: nat, i: nat)
    requires g.Wf() && |d| == g.disksize && Coherent(bs, d) && |lh| < g.size - 1
    requires forall j :: 0 <= j < |bs| && bs[j].dirty ==> bs[j].sector in lh
    requires forall j :: 0 <= j < |bs| && bs[j].busy ==> bs[j].valid && g.Home(bs[j].sector)
    requires forall k :: 0 <= k < |lh| && k != i ==> Held(bs, d, g, lh, k)
    requires b < NBUF && bs[b].busy && i <= |lh| && (i < |lh| ==> lh[i] == bs[b].sector)
    ensures
      var now := bs[b := bs[b].(dirty := true)];
      var lh' := if i == |lh| then lh + [bs[b].sector] else lh;
      Coherent(now, d) && Pinned(now, d, g, lh') && SameView(bs, d, now, d)
  {
    var now := bs[b := bs[b].(dirty := true)];
    var lh' := if i == |lh| then lh + [bs[b].sector] else lh;
    forall k | 0 <= k < |lh'| ensures Held(now, d, g, lh', k) {
      if k == i {
        assert Caches(now, b, lh'[k]);
      } else {
        assert Held(bs, d, g, lh, k);
        var j :| Caches(bs, j, lh[k]) && bs[j].dirty && (!bs[j].busy ==> bs[j].data == d[g.Slot(k)]);
        assert Caches(now, j, lh'[k]);
      }
    }
    forall s: Word | s < |d| ensures View(now, d, s) == View(bs, d, s) {
      assert forall j :: Caches(now, j, s) <==> Caches(bs, j, s);
    }
  }

  /** The cache after log_write: everything pinned as before, and the sector just logged. */
  lemma LogWriteKeepsPinned(was: seq<Buf>, mid: seq<Buf>, d: Disk, g: Geometry, lh: seq<Word>,
                            b: nat, l: nat, i: nat, x: Block, lh': seq<Word>)
    requires g.Wf() && |d| == g.disksize <= TWO32 && Fits(g, lh) && |lh| < g.size - 1 && Coherent(was, d)
    requires Pinned(was, d, g, lh)
    requires Distinct(lh) && b < NBUF && was[b].busy && i <= |lh| && (i < |lh| ==> lh[i] == was[b].sector)
    requires Rewrote(was, mid, l, g.Slot(i), x)
    requires lh' == if i == |lh| then lh + [was[b].sector] else lh
    ensures
      var now := mid[b := mid[b].(dirty := true)];
      var d' := d[g.Slot(i) := x];
      Coherent(now, d') && Pinned(now, d', g, lh') && Logged(g, was, d, now, d', b)
  {
    RewriteCoherent(was, mid, d, l, g.Slot(i), x);
    RewriteLogSector(was, mid, d, g, lh, l, g.Slot(i), x);
    var d' := d[g.Slot(i) := x];
    forall k | 0 <= k < |lh| && k != i ensures Held(mid, d', g, lh, k) {
      assert g.Slot(k) != g.Slot(i);
    }
    MarkDirty(mid, d[g.Slot(i) := x], g, lh, b, i);
  }

  /** What any process reads through the cache, at any point of any run: the committed transactions
  plus the writes of the open one, for every home sector not being modified at that moment. */
  lemma ReadersSeeOpen(g: Geometry, d0: Disk, trace: seq<Step>, d: Disk, lh: seq<Word>, busy: bool, bs: seq<Buf>,
      t: Word)
    requires Reached(g, d0, trace, d, Up(lh, busy)) && |lh| < g.size && |d| == g.disksize
    requires Coherent(bs, d) && Pinned(bs, d, g, lh)
    requires g.Home(t) && !InUse(bs, t)
    ensures View(bs, d, t) == Apply(ApplyAll(Recover(g, d0), Committed(trace).0), Committed(trace).1)[t]
  {
    RunKeepsInv(g, d0, trace);
    var h := ApplyAll(Recover(g, d0), Committed(trace).0);
    var a := Apply(h, Committed(trace).1);
    if t in lh {
      var k :| 0 <= k < |lh| && lh[k] == t;
      assert Held(bs, d, g, lh, k);
      var i :| Caches(bs, i, lh[k]) && bs[i].dirty && (!bs[i].busy ==> bs[i].data == d[g.Slot(k)]);
      ViewOfCached(bs, d, i);
    } else {
      assert d[t] == h[t] == a[t];
      forall i | Caches(bs, i, t) ensures bs[i].data == d[t] {
        assert bs[i].Clean();
      }
    }
  }

  // ----- The log in place -----

  class Log {
    const cache: Cache
    const start: Word
    const size: nat
    var busy: bool
    var lh: seq<Word>
    ghost const d0: Disk
    ghost var trace: seq<Step>
    ghost var mem: Memory

    ghost function G(): Geometry {
      Geometry(start, size, |d0|)
    }

    /** The disk is where the recorded steps lead, so it is recoverable (see CrashAtomicity). */
    ghost predicate Legal()
      reads this, cache
    {
      Reached(G(), d0, trace, cache.disk, mem)
    }

    ghost predicate Valid()
      reads this, cache
    {
      && Legal() && cache.Valid()
      && mem == Up(lh, busy) && |lh| < size
      && Pinned(cache.buf, cache.disk, G(), lh)
    }

    /** Power-on: `past` is everything that has happened to this disk so far, up to the crash. */
    constructor (c: Cache, start: Word, size: nat, ghost d0: Disk, ghost past: seq<Step>, ghost m: Memory)
      requires c.Valid()
      requires Reached(Geometry(start, size, |d0|), d0, past, c.disk, m)
      ensures Legal() && mem == Down && lh == [] && !busy
      ensures cache == c && this.start == start && this.size == size && this.d0 == d0 && trace == past + [Crash]
    {
      cache, this.start, this.size, this.d0 := c, start, size, d0;
      busy, lh := false, [];
      trace, mem := past + [Crash], Down;
      assert (past + [Crash])[..|past|] == past;
    }

    /** memmove, bwrite, brelse on a buffer just read. */
    method Put(b: nat, x: Block) returns (ok: bool)
      requires cache.Valid() && b < NBUF && cache.buf[b].busy && cache.buf[b].valid
      modifies cache
      ensures ok && cache.Valid()
      ensures var s := old(cache.buf[b].sector);
        && s < |old(cache.disk)| && cache.disk == old(cache.disk)[s := x]
        && cache.buf == old(cache.buf)[b := Buf(DISKDEV, s, false, true, false, x)]
    {
      ok := cache.StoreAndWrite(b, x);
      ok := cache.Brelse(b);
    }

    /** Writes the in-memory header to the header sector. */
    method WriteHeader() returns (ok: bool, ghost b: nat)
      requires cache.Valid() && start < |cache.disk| && |lh| < WORDS
      requires forall i :: 0 <= i < NBUF && cache.buf[i].Is(DISKDEV, start) ==> cache.buf[i].Clean()
      modifies cache
      ensures !ok ==> cache.disk == old(cache.disk) && NoneClean(old(cache.buf))
      ensures ok ==> cache.Valid()
      ensures ok ==>
        var x := StoreSectors(old(cache.disk)[start], lh, |lh|);
        && Rewrote(old(cache.buf), cache.buf, b, start, x)
        && cache.disk == old(cache.disk)[start := x]
    {
      b := 0;
      var r := cache.Bread(DISKDEV, start);
      if !r.Ok? {
        return false, 0;
      }
      b := r.b;
      var head := cache.buf[r.b].data;
      assert head == cache.disk[start];
      var x := SetWord(head, 0, |lh|);
      var k := 0;
      while k < |lh|
        invariant 0 <= k <= |lh|
        invariant x == StoreSectors(head, lh, k)
      {
        x := SetWord(x, k + 1, lh[k]);
        k := k + 1;
      }
      ok := Put(r.b, x);
    }

    /** bread, memmove, bwrite, brelse: replace a log sector's contents. */
    method Overwrite(s: Word, x: Block) returns (ok: bool, ghost b: nat)
      requires cache.Valid() && s < |cache.disk|
      requires forall i :: 0 <= i < NBUF && cache.buf[i].Is(DISKDEV, s) ==> !cache.buf[i].busy
      modifies cache
      ensures !ok ==> cache.disk == old(cache.disk) && NoneClean(old(cache.buf))
      ensures ok ==> cache.Valid() && cache.disk == old(cache.disk)[s := x]
      ensures ok ==> Rewrote(old(cache.buf), cache.buf, b, s, x)
    {
      b := 0;
      var r := cache.Bread(DISKDEV, s);
      if !r.Ok? {
        return false, 0;
      }
      b := r.b;
      ok := Put(r.b, x);
    }

    /** The slot already given to the sector, else the next free one. */
    method FindSlot(s: Word) returns (i: nat)
      ensures i <= |lh| && s !in lh[..i] && (i < |lh| ==> lh[i] == s)
    {
      i := 0;
      while i < |lh| && lh[i] != s
        invariant 0 <= i <= |lh| && s !in lh[..i]
      {
        i := i + 1;
      }
    }

    /** Append a modified buffer to the log.  Returns false where the source panics: no transaction,
    transaction too big, or no buffer left for the slot. */
    method LogWrite(b: nat) returns (ok: bool)
      requires Valid() && b < NBUF && cache.buf[b].busy
      modifies this, cache
      ensures Legal()
      ensures ok ==> Valid() && busy && lh == Absorb(old(lh), old(cache.buf[b].sector))
      ensures ok ==> trace == old(trace) + [Step.LogWrite(Write(old(cache.buf[b].sector), old(cache.buf[b].data)))]
      ensures ok ==> Logged(G(), old(cache.buf), old(cache.disk), cache.buf, cache.disk, b)
      ensures ok ==> SlotHolds(cache.disk, G(), lh, cache.buf[b])
      ensures ok ==> var k := start + 1 + IndexOf(old(lh), old(cache.buf[b].sector));
        k < |old(cache.disk)| && cache.disk == old(cache.disk)[k := old(cache.buf[b].data)]
      ensures ok ==> old(busy) && |old(lh)| < 10 && |old(lh)| < size - 1
      ensures !ok ==> !old(busy) || |old(lh)| >= 10 || |old(lh)| >= size - 1 || NoneClean(old(cache.buf))
      ensures !ok ==> cache.disk == old(cache.disk) && trace == old(trace)
    {
      if |lh| >= LOGSIZE || |lh| >= size - 1 {
        return false;
      }
      if !busy {
        return false;
      }
      var i := FindSlot(cache.buf[b].sector);
      IndexIs(lh, cache.buf[b].sector, i);
      ok := Append(b, i);
    }

    /** The part of log_write that follows the search for a slot. */
    method Append(b: nat, i: nat) returns (ok: bool)
      requires Valid() && b < NBUF && cache.buf[b].busy && busy && |lh| < LOGSIZE && |lh| < size - 1
      requires i <= |lh| && cache.buf[b].sector !in lh[..i] && (i < |lh| ==> lh[i] == cache.buf[b].sector)
      modifies this, cache
      ensures Legal()
      ensures ok ==> Valid() && busy && lh == Absorb(old(lh), old(cache.buf[b].sector))
      ensures ok ==> trace == old(trace) + [Step.LogWrite(Write(old(cache.buf[b].sector), old(cache.buf[b].data)))]
      ensures ok ==> Logged(G(), old(cache.buf), old(cache.disk), cache.buf, cache.disk, b)
      ensures ok ==> SlotHolds(cache.disk, G(), lh, cache.buf[b])
      ensures ok ==> start + 1 + i < |old(cache.disk)|
      ensures ok ==> cache.disk == old(cache.disk)[start + 1 + i := old(cache.buf[b].data)]
      ensures !ok ==> NoneClean(old(cache.buf)) && cache.disk == old(cache.disk) && trace == old(trace)
    {
      hide Pinned, Logged, SlotHolds, Fits, Reached, Rewrote, Coherent, Linked, Full;
      ghost var was, d := cache.buf, cache.disk;
      ReachedShape(G(), d0, trace, d, mem);
      BusyIsHome(was, d, G(), lh, b);
      var s, x := cache.buf[b].sector, cache.buf[b].data;
      var lh2 := if i == |lh| then lh + [s] else lh;
      LogWriteRuns(G(), d0, trace, d, lh, Write(s, x), i, lh2);
      SlotNotInUse(was, d, G(), lh, i);
      ghost var l;
      ok, l := Overwrite(start + 1 + i, x);
      if ok {
        LogWriteKeepsPinned(was, cache.buf, d, G(), lh, b, l, i, x, lh2);
        cache.Pin(b);
        SlotIsWritten(cache.disk, G(), lh, i, was[b], lh2);
        lh, trace, mem := lh2, trace + [Step.LogWrite(Write(s, x))], Up(lh2, true);
      }
    }

    /** bread and brelse: the contents are the committed transactions plus the open one's writes. */
    method ReadBlock(s: Word) returns (r: Access)
      requires Valid() && G().Home(s)
      modifies cache
      ensures Valid() && cache.disk == old(cache.disk) && SameView(old(cache.buf), cache.disk, cache.buf, cache.disk)
      ensures SameInUse(old(cache.buf), cache.buf)
      ensures r.Done? ==> r.x == View(old(cache.buf), old(cache.disk), s)
      ensures r.Done? ==> r.x == Apply(ApplyAll(Recover(G(), d0), Committed(trace).0), Committed(trace).1)[s]
      ensures r.Sleeps? <==> InUse(old(cache.buf), s)
      ensures r.Panics? <==> Absent(old(cache.buf), DISKDEV, s) && NoneClean(old(cache.buf))
    {
      hide Pinned, Coherent, SlotHolds, SameInUse, Reached, Linked, Full;
      SameInUseItself(cache.buf);
      ghost var was := cache.buf;
      ReachedShape(G(), d0, trace, cache.disk, mem);
      var got := cache.Bread(DISKDEV, s);
      match got
      case Waits(b) =>
        return Sleeps;
      case Panic =>
        return Panics;
      case Ok(b) =>
        ghost var mid := cache.buf;
        FetchedNotInUse(was, mid, cache.disk, s, b);
        FetchKeepsPinned(was, mid, cache.disk, G(), lh, s, b);
        var x := cache.buf[b].data;
        Release(b);
        SameInUseItself(mid);
        UpdatedInUse(was, mid, mid, cache.disk, s, b);
        ReadersSeeOpen(G(), d0, trace, cache.disk, lh, busy, was, s);
        return Done(x);
    }

    /** brelse of a buffer that holds its logged contents or is unchanged. */
    method Release(b: nat)
      requires Valid() && b < NBUF && cache.buf[b].busy && SlotHolds(cache.disk, G(), lh, cache.buf[b])
      requires !cache.buf[b].dirty ==> cache.buf[b].data == cache.disk[cache.buf[b].sector]
      modifies cache
      ensures Valid() && cache.disk == old(cache.disk) && SameView(old(cache.buf), cache.disk, cache.buf, cache.disk)
      ensures cache.buf == old(cache.buf)[b := old(cache.buf[b]).(busy := false)]
    {
      ReleaseKeepsPinned(cache.buf, cache.disk, G(), lh, b);
      ReleaseKeepsView(cache.buf, cache.disk, b);
      var ok := cache.Brelse(b);
    }

    /** The way every block is modified in a transaction: bread, store, log_write, brelse. */
    method Update(s: Word, x: Block) returns (r: Access)
      requires Valid() && G().Home(s)
      modifies this, cache
      ensures Legal()
      ensures r.Done? ==> Valid() && old(busy) && busy && lh == Absorb(old(lh), s)
      ensures r.Done? ==> r.x == View(old(cache.buf), old(cache.disk), s)
      ensures r.Done? ==> trace == old(trace) + [Step.LogWrite(Write(s, x))]
      ensures r.Done? ==> Updated(G(), old(cache.buf), old(cache.disk), cache.buf, cache.disk, s, x)
      ensures r.Done? ==> SameInUse(old(cache.buf), cache.buf)
      ensures !r.Done? ==> trace == old(trace) && cache.disk == old(cache.disk)
      ensures r.Sleeps? <==> InUse(old(cache.buf), s)
      ensures r.Panics? ==>
        !old(busy) || |old(lh)| >= LOGSIZE || |old(lh)| >= size - 1 || !TwoClean(old(cache.buf))
    {
      hide Pinned, Coherent, SlotHolds, SameInUse, TwoClean;
      ghost var was, d := cache.buf, cache.disk;
      var got := cache.Bread(DISKDEV, s);
      match got
      case Waits(b) =>
        return Sleeps;
      case Panic =>
        NoBufferMeans(was, s);
        return Panics;
      case Ok(b) =>
        ghost var mid := cache.buf;
        FetchedNotInUse(was, mid, d, s, b);
        FetchKeepsPinned(was, mid, d, G(), lh, s, b);
        OneCleanLess(was, mid, d, s, b);
        var y := cache.buf[b].data;
        var ok := StoreAndLog(b, x);
        if !ok {
          return Panics;
        }
        ghost var log := cache.buf;
        Release(b);
        UpdatedView(G(), was, d, mid, log, cache.buf, cache.disk, s, x);
        UpdatedInUse(was, mid, log, d, s, b);
        return Done(y);
    }

    /** A store into a buffer in use, and log_write. */
    method StoreAndLog(b: nat, x: Block) returns (ok: bool)
      requires Valid() && b < NBUF && cache.buf[b].busy
      modifies this, cache
      ensures Legal()
      ensures ok ==> Valid() && old(busy) && busy && lh == Absorb(old(lh), old(cache.buf[b].sector))
      ensures ok ==> trace == old(trace) + [Step.LogWrite(Write(old(cache.buf[b].sector), x))]
      ensures ok ==> cache.buf[b] == old(cache.buf[b]).(data := x, dirty := true)
      ensures ok ==> SameInUse(old(cache.buf), cache.buf) && SlotHolds(cache.disk, G(), lh, cache.buf[b])
      ensures ok ==> Updated(G(), old(cache.buf), old(cache.disk), cache.buf, cache.disk, old(cache.buf[b].sector), x)
      ensures !ok ==> !old(busy) || |old(lh)| >= LOGSIZE || |old(lh)| >= size - 1 || NoneClean(old(cache.buf))
      ensures !ok ==> cache.disk == old(cache.disk) && trace == old(trace)
    {
      hide Pinned, SlotHolds, NoneClean;
      ghost var was, d := cache.buf, cache.disk;
      StoreKeepsPinned(was, d, G(), lh, b, x);
      BusyIsHome(was, d, G(), lh, b);
      BufferViews(was, was[b := was[b].(data := x)], d, b, was[b].(data := x));
      StoreKeepsClean(was, b, x);
      cache.Store(b, x);
      ok := LogWrite(b);
    }

    /** The first bread of install_trans: the slot. */
    method TakeSlot(slot: Word) returns (r: Read)
      requires cache.Valid() && slot < |cache.disk| && SlotClean(cache.buf, slot)
      modifies cache`disk, cache`buf
      ensures cache.disk == old(cache.disk) && cache.Valid() && !r.Waits?
      ensures r.Ok? ==> Holding(old(cache.buf), cache.buf, r.b, slot, cache.disk[slot])
      ensures r.Panic? ==> NoneClean(old(cache.buf))
    {
      r := cache.Bread(DISKDEV, slot);
      if r.Ok? {
        HoldingIs(old(cache.buf), cache.buf, cache.disk, slot, r.b);
      }
    }

    /** The rest of an iteration: bread of the home sector, the copy, and both releases. */
    method FinishBlock(slot: Word, home: Word, bl: nat) returns (d: Read)
      requires cache.Valid() && slot < |cache.disk| && home < |cache.disk| && slot != home
      requires bl < NBUF && cache.buf[bl] == Buf(DISKDEV, slot, true, true, false, cache.disk[slot])
      modifies cache
      ensures cache.Valid()
      ensures d.Ok? ==> var x := old(cache.disk)[slot];
        && bl != d.b && cache.disk == old(cache.disk)[home := x]
        && Rewrote(Freed(old(cache.buf), bl), cache.buf, d.b, home, x)
      ensures !d.Ok? ==> cache.disk == old(cache.disk) && cache.buf == old(cache.buf)
      ensures d.Waits? ==> InUse(old(cache.buf), home)
      ensures d.Panic? ==> Absent(old(cache.buf), DISKDEV, home) && NoneClean(old(cache.buf))
    {
      ghost var mid := cache.buf;
      d := cache.Bread(DISKDEV, home);
      if d.Ok? {
        CopyIs(mid, cache.buf, cache.disk, slot, home, bl, d.b);
        var x := cache.buf[bl].data;
        var ok := cache.StoreAndWrite(d.b, x);
        ok := cache.Brelse(bl);
        ok := cache.Brelse(d.b);
      }
    }

    /** Copies one slot to its home sector. */
    method InstallBlock(tail: nat) returns (d: Read, bl: nat)
      requires cache.Valid() && tail < |lh| && start + 1 + tail < |cache.disk| <= TWO32 && lh[tail] < |cache.disk|
      requires lh[tail] != start + 1 + tail && SlotClean(cache.buf, start + 1 + tail)
      modifies cache
      ensures cache.Valid()
      ensures d.Ok? ==> var x := old(cache.disk)[start + 1 + tail];
        && cache.disk == old(cache.disk)[lh[tail] := x]
        && Copied(old(cache.buf), cache.buf, bl, d.b, start + 1 + tail, lh[tail], x)
      ensures !d.Ok? ==> cache.disk == old(cache.disk)
      ensures d.Waits? ==> InUse(old(cache.buf), lh[tail])
      ensures d.Waits? ==> Holding(old(cache.buf), cache.buf, bl, start + 1 + tail, cache.disk[start + 1 + tail])
      ensures d.Panic? ==> CannotPair(old(cache.buf), lh[tail])
    {
      hide Coherent, Linked, Full;
      var slot, home := start + 1 + tail, lh[tail];
      ghost var was := cache.buf;
      d := TakeSlot(slot);
      if d.Panic? {
        return Panic, 0;
      }
      bl := d.b;
      ghost var mid := cache.buf;
      SecondRead(was, mid, slot, home, bl, cache.disk[slot]);
      d := FinishBlock(slot, home, bl);
      if d.Ok? {
        assert Freed(mid, bl) == was[bl := Buf(DISKDEV, slot, false, true, false, old(cache.disk)[slot])];
      }
    }

    /** One iteration of install_trans. */
    method InstallNext(tail: nat) returns (r: Read, bl: nat)
      requires Legal() && cache.Valid() && tail < |lh| && mem == Installing(lh, tail)
      requires PinnedFrom(cache.buf, G(), lh, tail)
      modifies this`trace, this`mem, cache
      ensures Legal() && cache.Valid()
      ensures r.Ok? ==> mem == Installing(lh, tail + 1) && trace == old(trace) + [InstallOne]
      ensures r.Ok? ==> PinnedFrom(cache.buf, G(), lh, tail + 1) && TwoClean(cache.buf)
      ensures r.Ok? ==> SameInUse(old(cache.buf), cache.buf)
      ensures r.Ok? && StillDirty(old(cache.buf), lh, tail) ==> StillDirty(cache.buf, lh, tail + 1)
      ensures !r.Ok? ==> trace == old(trace) && mem == old(mem)
      ensures r.Waits? ==> InUse(old(cache.buf), lh[tail])
      ensures r.Waits? && StillDirty(old(cache.buf), lh, tail) ==> Paused(cache.buf, cache.disk, G(), lh, tail, bl)
      ensures r.Panic? ==> CannotPair(old(cache.buf), lh[tail])
    {
      hide Reached, Linked, Full, Coherent, Copied, TwoClean, SameInUse, PinnedFrom, StillDirty, Holding, Paused;
      ghost var was, d := cache.buf, cache.disk;
      ReachedShape(G(), d0, trace, d, mem);
      InstallRuns(G(), d0, trace, d, lh, tail);
      PinnedSlots(was, G(), lh, tail);
      r, bl := InstallBlock(tail);
      if r.Ok? {
        CopyKeepsPinned(was, cache.buf, cache.disk, G(), lh, tail, bl, r.b, d[G().Slot(tail)]);
        trace := trace + [InstallOne];
        mem := Installing(lh, tail + 1);
      } else if r.Waits? {
        PausedIs(was, cache.buf, cache.disk, G(), lh, tail, bl);
      }
    }

    /** install_trans from a slot on: copies each slot to its home sector, one disk write each. */
    method InstallFrom(from: nat) returns (r: Commit)
      requires Legal() && cache.Valid() && from <= |lh| && mem == Installing(lh, from)
      requires PinnedFrom(cache.buf, G(), lh, from)
      modifies this`trace, this`mem, cache
      ensures Legal() && cache.Valid()
      ensures r.Finished? ==> mem == Installing(lh, |lh|) && PinnedFrom(cache.buf, G(), lh, |lh|)
      ensures r.Finished? ==> trace == old(trace) + Installs(|lh| - from) && SameInUse(old(cache.buf), cache.buf)
      ensures r.Finished? && |lh| > from ==> TwoClean(cache.buf)
      ensures r.Finished? && |lh| == from ==> cache.buf == old(cache.buf)
      ensures r.AsleepAt? ==> from <= r.k < |lh| && InUse(old(cache.buf), lh[r.k]) && mem == Installing(lh, r.k)
      ensures r.AsleepAt? ==> trace == old(trace) + Installs(r.k - from)
      ensures r.AsleepAt? && StillDirty(old(cache.buf), lh, from) ==> Paused(cache.buf, cache.disk, G(), lh, r.k, r.b)
      ensures r.Halted? ==> |lh| > from && CannotPair(old(cache.buf), lh[from])
    {
      hide SameInUse, InUse, Reached, Linked, Full, Coherent, TwoClean, CannotPair, PinnedFrom, StillDirty, Paused;
      var tail := from;
      SameInUseItself(cache.buf);
      while tail < |lh|
        invariant from <= tail <= |lh|
        invariant Legal() && cache.Valid() && mem == Installing(lh, tail) && PinnedFrom(cache.buf, G(), lh, tail)
        invariant trace == old(trace) + Installs(tail - from) && SameInUse(old(cache.buf), cache.buf)
        invariant if tail == from then cache.buf == old(cache.buf) else TwoClean(cache.buf)
        invariant StillDirty(old(cache.buf), lh, from) ==> StillDirty(cache.buf, lh, tail)
      {
        ghost var was := cache.buf;
        if tail > from {
          CanPair(was, lh[tail]);
        }
        var step, bl := InstallNext(tail);
        if step.Waits? {
          StillInUse(old(cache.buf), was, lh[tail]);
          return AsleepAt(tail, bl);
        }
        if step.Panic? {
          return Halted;
        }
        SameInUseStep(old(cache.buf), was, cache.buf);
        tail := tail + 1;
      }
      return Finished;
    }

    /** install_trans: copies every slot to its home sector. */
    method InstallTrans() returns (r: Commit)
      requires Legal() && cache.Valid() && mem == Installing(lh, 0) && PinnedFrom(cache.buf, G(), lh, 0)
      modifies this`trace, this`mem, cache
      ensures Legal() && cache.Valid()
      ensures r.Finished? ==> mem == Installing(lh, |lh|) && PinnedFrom(cache.buf, G(), lh, |lh|)
      ensures r.Finished? ==> trace == old(trace) + Installs(|lh|) && SameInUse(old(cache.buf), cache.buf)
      ensures r.Finished? && |lh| > 0 ==> TwoClean(cache.buf)
      ensures r.Finished? && |lh| == 0 ==> cache.buf == old(cache.buf)
      ensures r.AsleepAt? ==> r.k < |lh| && InUse(old(cache.buf), lh[r.k]) && mem == Installing(lh, r.k)
      ensures r.AsleepAt? ==> trace == old(trace) + Installs(r.k)
      ensures r.AsleepAt? && StillDirty(old(cache.buf), lh, 0) ==> Paused(cache.buf, cache.disk, G(), lh, r.k, r.b)
      ensures r.Halted? ==> |lh| > 0 && CannotPair(old(cache.buf), lh[0])
    {
      hide SameInUse, InUse, Reached, Linked, Full, Coherent, TwoClean, CannotPair, PinnedFrom, StillDirty, Paused;
      r := InstallFrom(0);
    }

    /** begin_trans; a process that finds a transaction open sleeps. */
    method BeginTrans() returns (ok: bool)
      requires Valid()
      modifies this
      ensures Valid() && ok == !old(busy)
      ensures ok ==> busy && lh == old(lh) == [] && trace == old(trace) + [Begin]
      ensures !ok ==> busy && lh == old(lh) && trace == old(trace)
    {
      if busy {
        return false;
      }
      BeginRuns(G(), d0, trace, cache.disk, lh);
      busy := true;
      trace, mem := trace + [Begin], Up(lh, true);
      return true;
    }

    /** The header write: the real commit. */
    method WriteCommit() returns (ok: bool)
      requires Valid() && busy && |lh| > 0
      modifies this`trace, this`mem, cache
      ensures Legal()
      ensures ok ==> cache.Valid() && mem == Installing(lh, 0) && trace == old(trace) + [WriteHead]
      ensures ok ==> PinnedFrom(cache.buf, G(), lh, 0) && !CannotPair(cache.buf, lh[0]) && StillDirty(cache.buf, lh, 0)
      ensures ok ==> SameInUse(old(cache.buf), cache.buf)
      ensures !ok ==> NoneClean(old(cache.buf)) && trace == old(trace) && cache.disk == old(cache.disk)
    {
      ghost var was, d := cache.buf, cache.disk;
      CommitRuns(G(), d0, trace, d, lh);
      ghost var b;
      ok, b := WriteHeader();
      if ok {
        HeaderKeepsPinned(was, cache.buf, d, G(), lh, b, cache.disk[start]);
        trace, mem := trace + [WriteHead], Installing(lh, 0);
      }
    }

    /** The second header write, with nothing logged any more. */
    method EraseLog() returns (ok: bool)
      requires Legal() && cache.Valid() && mem == Installing(lh, |lh|) && PinnedFrom(cache.buf, G(), lh, |lh|)
      modifies this, cache
      ensures Legal() && (ok ==> Valid() && lh == [] && !busy && trace == old(trace) + [Erase])
      ensures ok ==> SameInUse(old(cache.buf), cache.buf)
      ensures !ok ==> NoneClean(old(cache.buf))
    {
      ghost var was, d := cache.buf, cache.disk;
      EraseRuns(G(), d0, trace, d, lh);
      lh := [];
      ghost var b;
      ok, b := WriteHeader();
      if ok {
        EraseKeepsPinned(was, cache.buf, cache.disk, G(), old(lh), b, cache.disk[start]);
        busy := false;
        trace, mem := trace + [Erase], Up([], false);
      }
    }

    /** The committer sleeps in install_trans at slot k, whose buffer b it holds: the slots before it are
    installed, and the sectors from it on are still dirty in the cache. */
    ghost predicate Asleep(k: nat, b: nat)
      reads this, cache
    {
      Legal() && cache.Valid() && busy && k < |lh| && mem == Installing(lh, k) && Paused(cache.buf, cache.disk, G(), lh, k, b)
    }

    /** commit_trans.  It sleeps where a process holds the buffer of a logged sector, and panics where
    a buffer is lacking; even then the disk is recoverable. */
    method CommitTrans() returns (r: Commit)
      requires Valid() && busy
      modifies this, cache
      ensures Legal()
      ensures r.Finished? ==> Valid() && !busy && lh == [] && SameInUse(old(cache.buf), cache.buf)
      ensures r.Finished? && |old(lh)| > 0 ==> trace == old(trace) + [WriteHead] + Installs(|old(lh)|) + [Erase]
      ensures r.Finished? && |old(lh)| == 0 ==> trace == old(trace) + [CommitEmpty]
      ensures r.Finished? ==> forall i :: 0 <= i < NBUF ==> !cache.buf[i].dirty
      ensures r.AsleepAt? ==> lh == old(lh) && Asleep(r.k, r.b) && InUse(old(cache.buf), lh[r.k])
      ensures r.AsleepAt? ==> trace == old(trace) + [WriteHead] + Installs(r.k)
      ensures r.Halted? ==> |old(lh)| > 0 && NoneClean(old(cache.buf)) && trace == old(trace)
    {
      hide SameInUse, InUse, Reached, Linked, Full, Coherent, CannotPair, StillDirty, Paused;
      ghost var was := cache.buf;
      SameInUseItself(was);
      if |lh| > 0 {
        var ok := WriteCommit();
        if !ok {
          return Halted;
        }
        ghost var mid := cache.buf;
        r := InstallTrans();
        if r.AsleepAt? {
          StillInUse(was, mid, lh[r.k]);
          return;
        }
        SameInUseStep(was, mid, cache.buf);
        mid := cache.buf;
        ok := EraseLog();
        SameInUseStep(was, mid, cache.buf);
      } else {
        CommitEmptyRuns(G(), d0, trace, cache.disk);
        busy := false;
        trace, mem := trace + [CommitEmpty], Up([], false);
        r := Finished;
      }
    }

    /** The rest of commit_trans once the committer wakes up: it goes on where it slept, sleeps again if
    the buffer, or a later one, is in use, and cannot panic. */
    method ResumeCommit(k: nat, b: nat) returns (r: Commit)
      requires Asleep(k, b)
      modifies this, cache
      ensures Legal() && !r.Halted?
      ensures r.Finished? ==> Valid() && !busy && lh == [] && trace == old(trace) + Installs(|old(lh)| - k) + [Erase]
      ensures r.Finished? ==> forall i :: 0 <= i < NBUF ==> !cache.buf[i].dirty
      ensures r.AsleepAt? ==> lh == old(lh) && k <= r.k < |lh| && Asleep(r.k, r.b) && InUse(old(cache.buf), lh[r.k])
      ensures r.AsleepAt? ==> trace == old(trace) + Installs(r.k - k)
      ensures !InUse(old(cache.buf), old(lh)[k]) ==> r.Finished? || k < r.k
    {
      hide SameInUse, InUse, Reached, Linked, Full, Coherent, TwoClean, StillDirty, PinnedFrom, Paused, CannotPair;
      ghost var was := cache.buf;
      var done := ResumeBlock(k, b);
      if !done {
        return AsleepAt(k, b);
      }
      ghost var mid := cache.buf;
      if k + 1 < |lh| {
        CanPair(mid, lh[k + 1]);
      }
      r := InstallFrom(k + 1);
      if r.AsleepAt? {
        InstallsJoin(r.k - k);
        ResumeInUse(was, mid, b, lh[r.k]);
        return;
      }
      InstallsJoin(|lh| - k);
      SomeClean(cache.buf);
      var ok := EraseLog();
    }

    /** The iteration in which it slept. */
    method ResumeBlock(k: nat, b: nat) returns (done: bool)
      requires Asleep(k, b)
      modifies this`trace, this`mem, cache
      ensures Legal() && cache.Valid() && b < |old(cache.buf)|
      ensures !done ==> Asleep(k, b) && trace == old(trace) && InUse(old(cache.buf), lh[k])
      ensures done ==> mem == Installing(lh, k + 1) && trace == old(trace) + [InstallOne]
      ensures done ==> PinnedFrom(cache.buf, G(), lh, k + 1) && TwoClean(cache.buf) && StillDirty(cache.buf, lh, k + 1)
      ensures done ==> SameInUse(Freed(old(cache.buf), b), cache.buf)
    {
      hide SameInUse, Reached, Linked, Full, Coherent, TwoClean, StillDirty, Rewrote, PinnedFrom, Paused, Fits;
      ghost var was, d := cache.buf, cache.disk;
      ReachedShape(G(), d0, trace, d, mem);
      InstallRuns(G(), d0, trace, d, lh, k);
      PausedFacts(was, d, G(), lh, k, b);
      var r := FinishBlock(start + 1 + k, lh[k], b);
      if r.Waits? {
        return false;
      }
      ResumeKeepsPinned(was, cache.buf, d, cache.disk, G(), lh, k, b, r.b);
      trace, mem := trace + [InstallOne], Installing(lh, k + 1);
      return true;
    }

    /** The process that holds another buffer releases it while the committer sleeps. */
    method ReleaseBeside(i: nat, k: nat, b: nat)
      requires Asleep(k, b) && i < NBUF && i != b && cache.buf[i].busy
      requires Sound(cache.buf[i].(busy := false), cache.disk)
      modifies cache
      ensures Asleep(k, b) && cache.buf == old(cache.buf)[i := old(cache.buf[i]).(busy := false)]
    {
      var ok := cache.Brelse(i);
      ReleaseKeepsPaused(old(cache.buf), cache.disk, G(), lh, k, b, i);
    }

    /** read_head: the in-memory header becomes what the disk says. */
    method ReadHeader() returns (ok: bool)
      requires cache.Valid() && start < |cache.disk| && |Header(cache.disk[start])| <= LOGSIZE
      requires forall i :: 0 <= i < NBUF ==> cache.buf[i].Clean()
      modifies this`lh, cache
      ensures ok && cache.Valid() && cache.disk == old(cache.disk) && lh == Header(cache.disk[start])
      ensures forall i :: 0 <= i < NBUF ==> cache.buf[i].Clean()
    {
      var r := cache.Bread(DISKDEV, start);
      assert old(cache.buf)[0].Clean();
      var x := cache.buf[r.b].data;
      assert x == cache.disk[start];
      var n := GetWord(x, 0);
      var h: seq<Word> := [];
      while |h| < n
        invariant |h| <= n == |Header(x)| && h == Header(x)[..|h|]
        decreases n - |h|
      {
        h := h + [GetWord(x, 1 + |h|)];
      }
      lh := h;
      ok := cache.Brelse(r.b);
    }

    /** recover_from_log, run once after power-on with an empty cache. */
    method RecoverFromLog() returns (ok: bool)
      requires Legal() && cache.Valid() && mem == Down && !busy
      requires forall i :: 0 <= i < NBUF ==> cache.buf[i].Clean()
      modifies this, cache
      ensures ok && Valid() && !busy && lh == []
      ensures forall i :: 0 <= i < NBUF ==> !cache.buf[i].busy
      ensures trace == old(trace) + [ReadHead] + Installs(|Header(old(cache.disk)[start])|) + [Erase]
    {
      RecoverRuns(G(), d0, trace, cache.disk);
      ok := ReadHeader();
      trace, mem := trace + [ReadHead], Installing(lh, 0);
      assert cache.buf[0].Clean() && cache.buf[1].Clean();
      var r := InstallTrans();
      ok := EraseLog();
    }
  }
}
