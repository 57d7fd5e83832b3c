/** The buffer cache (bio.c) and its one disk operation (iderw in ide.c).

Buffers are numbered 0 .. NBUF-1; HEAD is the list's sentinel.  The prev/next links form one ring
through the sentinel, most recently released buffer first. */
module BufferCache {
  import opened Blocks

  const NBUF: nat := 10
  const HEAD: nat := NBUF
  const NODEV: Word := 0xFFFF_FFFF     // dev == -1 in a uint field
  const DISKDEV: Word := 1

  datatype Buf = Buf(dev: Word, sector: Word, busy: bool, valid: bool, dirty: bool, data: Block) {
    predicate Is(d: Word, s: Word) { dev == d && sector == s }
    predicate Clean() { !busy && !dirty }
  }

  // ----- The ring -----

  predicate Perm(r: seq<nat>)
  {
    && (forall i :: 0 <= i < |r| ==> r[i] <= NBUF)
    && forall i, j :: 0 <= i < j < |r| ==> r[i] != r[j]
  }

  function After(r: seq<nat>, i: nat): nat
    requires i < |r|
  {
    if i + 1 < |r| then r[i + 1] else r[0]
  }

  function Before(r: seq<nat>, i: nat): nat
    requires i < |r|
  {
    if i == 0 then r[|r| - 1] else r[i - 1]
  }

  predicate LinkAt(prev: seq<nat>, next: seq<nat>, r: seq<nat>, i: nat)
    requires |prev| == |next| == NBUF + 1 && i < |r| && Perm(r)
  {
    next[r[i]] == After(r, i) && prev[r[i]] == Before(r, i)
  }

  /** Following next from the sentinel visits `r` in order and comes back; prev is its inverse. */
  predicate Linked(prev: seq<nat>, next: seq<nat>, r: seq<nat>)
  {
    && |prev| == |next| == NBUF + 1
    && 0 < |r| && r[0] == HEAD && Perm(r)
    && forall i: nat :: i < |r| ==> LinkAt(prev, next, r, i)
  }

  predicate Full(r: seq<nat>) {
    forall k: nat :: k <= NBUF ==> k in r
  }

  function Without(r: seq<nat>, k: nat): seq<nat>
    requires k < |r|
  {
    r[..k] + r[k + 1..]
  }

  /** The two neighbours of a buffer are linked to each other: the buffer leaves the ring. */
  lemma UnlinkIsWithout(prev: seq<nat>, next: seq<nat>, r: seq<nat>, k: nat)
    requires Linked(prev, next, r) && 1 <= k < |r|
    ensures
      var b := r[k];
      next[b] <= NBUF && prev[b] <= NBUF && b !in Without(r, k)
      && Linked(prev[next[b] := prev[b]], next[prev[b] := next[b]], Without(r, k))
  {
    var q, b := Without(r, k), r[k];
    assert LinkAt(prev, next, r, k);
    var p', n' := prev[next[b] := prev[b]], next[prev[b] := next[b]];
    forall i: nat | i < |q| ensures LinkAt(p', n', q, i) {
      assert LinkAt(prev, next, r, if i < k then i else i + 1);
    }
  }

  /** A buffer is linked in between the sentinel and what followed it: it becomes the first. */
  lemma PushIsFront(prev: seq<nat>, next: seq<nat>, r: seq<nat>, b: nat)
    requires Linked(prev, next, r) && b < NBUF && b !in r
    ensures
      var f := next[HEAD];
      f <= NBUF && Linked(prev[b := HEAD][f := b], next[b := f][HEAD := b], [HEAD, b] + r[1..])
  {
    assert LinkAt(prev, next, r, 0);
    var q, f := [HEAD, b] + r[1..], next[HEAD];
    var p', n' := prev[b := HEAD][f := b], next[b := f][HEAD := b];
    forall i: nat | i < |q| ensures LinkAt(p', n', q, i) {
      if i != 1 {
        assert LinkAt(prev, next, r, if i == 0 then 0 else i - 1);
      }
    }
  }

  lemma FrontMembers(r: seq<nat>, b: nat)
    requires 0 < |r| && r[0] == HEAD
    ensures forall x :: x in [HEAD, b] + r[1..] <==> x == b || x in r
  {
    assert r == [HEAD] + r[1..];
  }

  lemma WithoutMembers(r: seq<nat>, k: nat)
    requires k < |r|
    ensures forall x :: x in r ==> x == r[k] || x in Without(r, k)
  {
    assert r == r[..k] + [r[k]] + r[k + 1..];
  }

  // ----- Contents -----

  predicate Caches(bs: seq<Buf>, i: int, s: Word) {
    0 <= i < |bs| && bs[i].valid && bs[i].Is(DISKDEV, s)
  }

  /** What a reader of sector s sees: the cached copy if there is one, else the disk. */
  ghost function View(bs: seq<Buf>, disk: seq<Block>, s: Word): Block
    requires s < |disk|
  {
    if i :| Caches(bs, i, s) then bs[i].data else disk[s]
  }

  predicate Sound(b: Buf, disk: seq<Block>) {
    && (b.dev != NODEV && !b.busy ==> b.valid)
    && (b.dirty ==> b.valid)
    && (b.valid ==> b.dev == DISKDEV && b.sector < |disk|)
    && (b.valid && b.Clean() ==> b.data == disk[b.sector])
  }

  /** At most one buffer per sector; an idle clean buffer agrees with the disk. */
  predicate Coherent(bs: seq<Buf>, disk: seq<Block>)
  {
    && |bs| == NBUF
    && (forall i, j :: 0 <= i < j < NBUF && bs[i].dev != NODEV ==> !bs[j].Is(bs[i].dev, bs[i].sector))
    && forall i :: 0 <= i < NBUF ==> Sound(bs[i], disk)
  }

  lemma CoherentSet(bs: seq<Buf>, disk: seq<Block>, b: nat, x: Buf)
    requires Coherent(bs, disk) && b < NBUF && Sound(x, disk)
    requires forall i :: 0 <= i < NBUF && i != b && x.dev != NODEV ==> !bs[i].Is(x.dev, x.sector)
    ensures Coherent(bs[b := x], disk)
  {
  }

  lemma ViewOfCached(bs: seq<Buf>, disk: seq<Block>, i: nat)
    requires Coherent(bs, disk) && i < NBUF && bs[i].valid
    ensures View(bs, disk, bs[i].sector) == bs[i].data
  {
    assert Caches(bs, i, bs[i].sector);
  }

  ghost predicate SameView(bs: seq<Buf>, disk: seq<Block>, bs': seq<Buf>, disk': seq<Block>) {
    |disk| == |disk'| && forall s: Word :: s < |disk| ==> View(bs', disk', s) == View(bs, disk, s)
  }

  predicate Absent(bs: seq<Buf>, dev: Word, sector: Word) {
    forall i :: 0 <= i < |bs| ==> !bs[i].Is(dev, sector)
  }

  /** `b` now holds the sector: an idle buffer that already cached it, or a clean one recycled. */
  predicate Fetched(was: seq<Buf>, now: seq<Buf>, disk: seq<Block>, sector: Word, b: nat)
    requires |was| == NBUF && b < NBUF && sector < |disk|
  {
    && !was[b].busy
    && if was[b].Is(DISKDEV, sector) then now == was[b := was[b].(busy := true)]
       else
         && !was[b].dirty && Absent(was, DISKDEV, sector)
         && now == was[b := Buf(DISKDEV, sector, true, true, false, disk[sector])]
  }

  predicate NoneClean(bs: seq<Buf>) {
    forall i :: 0 <= i < |bs| ==> !bs[i].Clean()
  }

  /** Handing out a buffer, recycled or not, changes no sector's contents. */
  lemma FetchKeepsView(was: seq<Buf>, now: seq<Buf>, disk: seq<Block>, sector: Word, b: nat)
    requires Coherent(was, disk) && b < NBUF && sector < |disk| && Fetched(was, now, disk, sector, b)
    ensures Coherent(now, disk) && SameView(was, disk, now, disk)
    ensures now[b].valid && now[b].busy && now[b].Is(DISKDEV, sector) && now[b].data == View(was, disk, sector)
  {
    forall s: Word | s < |disk| ensures View(now, disk, s) == View(was, disk, s) {
      forall i | Caches(now, i, s) ensures now[i].data == View(was, disk, s) {
        if i != b || was[b].Is(DISKDEV, sector) {
          assert Caches(was, i, s);
        }
      }
      if forall i :: !Caches(now, i, s) {
        forall i | Caches(was, i, s) ensures was[i].data == disk[s] {
          assert !Caches(now, i, s);
        }
      }
    }
    ViewOfCached(now, disk, b);
  }

  /** Even a recycled buffer whose read then fails leaves every sector's contents alone. */
  lemma RecycleKeepsView(was: seq<Buf>, now: seq<Buf>, disk: seq<Block>, dev: Word, sector: Word, b: nat)
    requires Coherent(was, disk) && b < NBUF && was[b].Clean()
    requires now == was[b := Buf(dev, sector, true, false, false, was[b].data)]
    ensures SameView(was, disk, now, disk)
  {
    forall s: Word | s < |disk| ensures View(now, disk, s) == View(was, disk, s) {
      assert forall i :: Caches(now, i, s) ==> Caches(was, i, s);
      assert forall i :: Caches(was, i, s) && i != b ==> Caches(now, i, s);
    }
  }

  datatype Got = Got(b: nat) | Asleep(b: nat) | NoBuffers

  datatype Read = Ok(b: nat) | Waits(b: nat) | Panic

  /** `b` was handed out for the sector: the idle buffer already caching it or, if none did, the
  eligible buffer nearest the tail of the ring.  Nothing else changed. */
  predicate Took(was: seq<Buf>, now: seq<Buf>, ring: seq<nat>, dev: Word, sector: Word, b: nat)
    requires |was| == NBUF && b < NBUF
  {
    && !was[b].busy
    && if was[b].Is(dev, sector) then now == was[b := was[b].(busy := true)]
       else
         && !was[b].dirty
         && now == was[b := Buf(dev, sector, true, false, false, was[b].data)]
         && Absent(was, dev, sector)
         && exists k :: 1 <= k < |ring| && ring[k] == b && forall j :: k < j < |ring| && ring[j] < NBUF ==>
           !was[ring[j]].Clean()
  }

  class Cache {
    var buf: seq<Buf>
    var prev: seq<nat>
    var next: seq<nat>
    var disk: seq<Block>
    ghost var ring: seq<nat>

    ghost predicate Valid()
      reads this
    {
      && |buf| == NBUF && InRing() && Full(ring)
      && Coherent(buf, disk)
    }

    /** binit, on statically zeroed buffers. */
    constructor (d: seq<Block>)
      ensures Valid() && disk == d && |buf| == 10
      ensures forall i :: 0 <= i < NBUF ==> buf[i].dev == 0xFFFF_FFFF && buf[i].Clean() && !buf[i].valid
    {
      var zero := ZeroBytes(BSIZE);
      buf := seq(NBUF, _ => Buf(0, 0, false, false, false, zero));
      prev := seq(NBUF + 1, _ => 0);
      next := seq(NBUF + 1, _ => 0);
      disk := d;
      ring := [HEAD];
      new;
      prev := prev[HEAD := HEAD];
      next := next[HEAD := HEAD];
      for b: nat := 0 to NBUF
        invariant |buf| == NBUF && InRing()
        invariant forall k :: 0 <= k <= NBUF ==> (k in ring <==> k < b || k == HEAD)
        invariant disk == d
        invariant forall i :: 0 <= i < NBUF ==> buf[i] == Buf(if i < b then NODEV else 0, 0, false, false, false, zero)
      {
        FrontMembers(ring, b);
        buf := buf[b := buf[b].(dev := NODEV)];
        PushFront(b);
      }
    }

    ghost predicate InRing()
      reads this
    {
      Linked(prev, next, ring)
    }

    /** Links a buffer in right behind the sentinel. */
    method PushFront(b: nat)
      requires InRing() && b < NBUF && b !in ring
      modifies this`ring, this`prev, this`next
      ensures InRing() && ring == [HEAD, b] + old(ring)[1..]
    {
      ghost var p: seq<nat>, n: seq<nat> := prev, next;
      PushIsFront(p, n, ring, b);
      var f: nat := next[HEAD];
      next := next[b := f];
      prev := prev[b := HEAD];
      prev := prev[f := b];
      next := next[HEAD := b];
      ring := [HEAD, b] + ring[1..];
    }

    /** Takes a buffer out of the ring, wherever it is. */
    method Unlink(b: nat, ghost k: nat)
      requires InRing() && 1 <= k < |ring| && ring[k] == b
      modifies this`ring, this`prev, this`next
      ensures InRing() && ring == Without(old(ring), k) && b !in ring
    {
      ghost var p: seq<nat>, n: seq<nat> := prev, next;
      UnlinkIsWithout(p, n, ring, k);
      assert LinkAt(p, n, ring, k);
      prev := prev[next[b] := prev[b]];
      next := next[prev[b] := next[b]];
      ring := Without(ring, k);
    }

    /** Look for the sector; failing that, recycle the least recently released buffer that is
    neither busy nor dirty.  Asleep means the caller would sleep and look again. */
    method Bget(dev: Word, sector: Word) returns (r: Got)
      requires Valid() && dev != NODEV
      modifies this`buf
      ensures Valid()
      ensures r.Got? ==> r.b < NBUF && Took(old(buf), buf, ring, dev, sector, r.b)
      ensures r.Asleep? ==> r.b < NBUF && buf[r.b].Is(dev, sector) && buf[r.b].busy
      ensures r.NoBuffers? ==> Absent(buf, dev, sector) && NoneClean(buf)
      ensures !r.Got? ==> buf == old(buf)
    {
      var b := next[HEAD];
      ghost var i := 1;
      assert LinkAt(prev, next, ring, 0);
      while b != HEAD
        invariant 1 <= i <= |ring| && b == if i < |ring| then ring[i] else HEAD
        invariant forall j :: 1 <= j < i ==> !buf[ring[j]].Is(dev, sector)
        decreases |ring| - i
      {
        if buf[b].Is(dev, sector) {
          if !buf[b].busy {
            CoherentSet(buf, disk, b, buf[b].(busy := true));
            buf := buf[b := buf[b].(busy := true)];
            return Got(b);
          }
          return Asleep(b);
        }
        assert LinkAt(prev, next, ring, i);
        b := next[b];
        i := i + 1;
      }
      forall k | 0 <= k < NBUF ensures !buf[k].Is(dev, sector) {
        assert k in ring;
      }
      b := prev[HEAD];
      i := |ring| - 1;
      while b != HEAD
        invariant 0 <= i < |ring| && b == ring[i]
        invariant forall j :: i < j < |ring| ==> !buf[ring[j]].Clean()
        decreases i
      {
        if buf[b].Clean() {
          CoherentSet(buf, disk, b, Buf(dev, sector, true, false, false, buf[b].data));
          buf := buf[b := Buf(dev, sector, true, false, false, buf[b].data)];
          return Got(b);
        }
        assert LinkAt(prev, next, ring, i);
        b := prev[b];
        i := i - 1;
      }
      forall k | 0 <= k < NBUF ensures !buf[k].Clean() {
        assert k in ring;
      }
      return NoBuffers;
    }

    /** Synchronise a buffer with the disk: write it if dirty, else read it if not yet valid.
    Returns false where the source panics. */
    method Iderw(b: nat) returns (ok: bool)
      requires |buf| == NBUF && b < NBUF
      modifies this`disk, this`buf
      ensures ok == old(buf[b].busy && (!buf[b].valid || buf[b].dirty) && buf[b].dev == 1 && buf[b].sector < |disk|)
      ensures !ok ==> disk == old(disk) && buf == old(buf)
      ensures ok && old(buf[b].dirty) ==>
        disk == old(disk[buf[b].sector := buf[b].data]) && buf == old(buf)[b := old(buf[b]).(dirty := false, valid := true)]
      ensures ok && !old(buf[b].dirty) ==>
        disk == old(disk) && buf == old(buf)[b := old(buf[b]).(data := disk[old(buf[b].sector)], valid := true)]
    {
      var x := buf[b];
      if !x.busy || (x.valid && !x.dirty) || x.dev != DISKDEV || x.sector >= |disk| {
        return false;
      }
      if x.dirty {
        disk := disk[x.sector := x.data];
        buf := buf[b := x.(dirty := false, valid := true)];
      } else {
        buf := buf[b := x.(data := disk[x.sector], valid := true)];
      }
      return true;
    }

    /** Read a sector through the cache: the buffer returned holds its latest contents, and no
    sector's contents change, not even that of the buffer recycled. */
    method Bread(dev: Word, sector: Word) returns (r: Read)
      requires Valid() && dev != NODEV
      modifies this`disk, this`buf
      ensures Valid() && disk == old(disk)
      ensures SameView(old(buf), disk, buf, disk)
      ensures r.Ok? ==> r.b < NBUF && sector < |disk| && Fetched(old(buf), buf, disk, sector, r.b)
      ensures r.Ok? ==> buf[r.b].data == View(old(buf), disk, sector)
      ensures r.Waits? ==> r.b < NBUF && buf[r.b].Is(dev, sector) && buf[r.b].busy && buf == old(buf)
      ensures r.Panic? <==>
        Absent(old(buf), dev, sector) && (NoneClean(old(buf)) || dev != DISKDEV || sector >= |disk|)
      ensures r.Panic? && NoneClean(old(buf)) ==> buf == old(buf)
    {
      ghost var was := buf;
      var g := Bget(dev, sector);
      match g
      case Asleep(b) =>
        return Waits(b);
      case NoBuffers =>
        return Panic;
      case Got(b) =>
        assert was[b].Is(dev, sector) ==> was[b].valid;
        if !buf[b].valid {
          var ok := Iderw(b);
          if !ok {
            RecycleKeepsView(was, buf, disk, dev, sector, b);
            return Panic;
          }
        }
        FetchKeepsView(was, buf, disk, sector, b);
        return Ok(b);
    }

    /** Write a buffer to its sector.  Returns false where the source panics. */
    method Bwrite(b: nat) returns (ok: bool)
      requires Valid() && b < NBUF
      modifies this`disk, this`buf
      ensures ok == old(buf[b].busy && buf[b].dev == 1 && buf[b].sector < |disk|)
      ensures !ok ==> disk == old(disk)
      ensures ok ==> Valid()
      ensures ok ==> disk == old(disk[buf[b].sector := buf[b].data])
      ensures ok ==> buf == old(buf)[b := old(buf[b]).(dirty := false, valid := true)]
    {
      if !buf[b].busy {
        return false;
      }
      buf := buf[b := buf[b].(dirty := true)];
      ok := Iderw(b);
    }

    /** A client's store into a buffer in use. */
    method Store(b: nat, x: Block)
      requires Valid() && b < NBUF && buf[b].busy
      modifies this`buf
      ensures Valid() && buf == old(buf)[b := old(buf[b]).(data := x)]
    {
      CoherentSet(buf, disk, b, buf[b].(data := x));
      buf := buf[b := buf[b].(data := x)];
    }

    /** A store followed by bwrite. */
    method StoreAndWrite(b: nat, x: Block) returns (ok: bool)
      requires Valid() && b < NBUF && buf[b].busy && buf[b].valid
      modifies this`disk, this`buf
      ensures ok && Valid()
      ensures disk == old(disk[buf[b].sector := x])
      ensures buf == old(buf)[b := old(buf[b]).(dirty := false, data := x)]
    {
      Store(b, x);
      ok := Bwrite(b);
    }

    /** Set B_DIRTY on a buffer in use, which keeps it from being recycled. */
    method Pin(b: nat)
      requires Valid() && b < NBUF && buf[b].valid
      modifies this`buf
      ensures Valid() && buf == old(buf)[b := old(buf[b]).(dirty := true)]
    {
      CoherentSet(buf, disk, b, buf[b].(dirty := true));
      buf := buf[b := buf[b].(dirty := true)];
    }

    /** Release a buffer: it becomes the most recently used.  The caller has marked (written or
    logged) every change it made.  Returns false where the source panics. */
    method Brelse(b: nat) returns (ok: bool)
      requires Valid() && b < NBUF
      requires buf[b].busy ==> Sound(buf[b].(busy := false), disk)
      modifies this`ring, this`buf, this`prev, this`next
      ensures Valid()
      ensures ok == old(buf[b].busy)
      ensures !ok ==> buf == old(buf) && ring == old(ring)
      ensures ok ==> buf == old(buf)[b := old(buf[b]).(busy := false)]
      ensures ok ==>
        exists k :: 1 <= k < |old(ring)| && old(ring)[k] == b && ring == [HEAD, b] + Without(old(ring), k)[1..]
    {
      if !buf[b].busy {
        return false;
      }
      assert b in ring;
      ghost var k :| 0 <= k < |ring| && ring[k] == b;
      WithoutMembers(ring, k);
      FrontMembers(Without(ring, k), b);
      Unlink(b, k);
      PushFront(b);
      CoherentSet(buf, disk, b, buf[b].(busy := false));
      buf := buf[b := buf[b].(busy := false)];
      return true;
    }
  }
}
