/** The file system over the log: what a crash leaves behind. */
module CrashSafety {
  import opened Blocks
  import opened Common
  import opened FileBytes
  import opened FsFormat
  import opened FsImage
  import opened FileSystem
  import opened LogProtocol

  // ----- What recovery finds -----

  /** Replaying transaction by transaction is replaying the log in one piece. */
  lemma {:induction false} ApplyConcat(d: Disk, txs: seq<Tx>)
    ensures Apply(d, Concat(txs)) == ApplyAll(d, txs)
  {
    if txs != [] {
      ApplyConcat(d, txs[..|txs| - 1]);
      ApplyJoin(d, Concat(txs[..|txs| - 1]), txs[|txs| - 1]);
    }
  }

  /** The log is the last nlog blocks of the file system, and no file owns any of them. */
  ghost predicate LogApart(g: Geometry, f: Image) {
    && g.Wf() && g.disksize == |f.v| && g.start == f.sb.size - f.sb.nlog && g.size == f.sb.nlog
    && f.sb.DataStart() <= g.start && forall b :: b in f.own ==> b < g.start
  }

  /** The image read from disk d, with f's witnesses. */
  ghost function ImageOf(d: Disk, f: Image): Image
    requires f.sb.Wf() && f.sb.size <= |d|
  {
    var dino := DinosOf(f.sb, d);
    Image(f.sb, BitsOf(f.sb, d), dino, d, dino, f.own, f.nblk)
  }

  lemma SameMetadata(g: Geometry, f: Image, d: Disk)
    requires f.Ok() && Settled(f) && Decoded(f) && LogApart(g, f) && |d| == |f.v| && SameHome(g, d, f.v)
    ensures BitsOf(f.sb, d) == f.bit && DinosOf(f.sb, d) == f.dino == f.cur
  {
    Layout(f.sb);
    forall b: nat | b < f.sb.size ensures BitsOf(f.sb, d)[b] == f.bit[b] {
      assert g.Home(f.sb.BBlock(b));
    }
    forall i: nat | i < f.sb.ninodes ensures DinosOf(f.sb, d)[i] == f.dino[i] == f.cur[i] {
      assert SettledAt(f, i) && g.Home(f.sb.IBlock(i));
    }
  }

  lemma SamePtrs(g: Geometry, f: Image, d: Disk, h: Image)
    requires f.Ok() && LogApart(g, f) && |d| == |f.v| && SameHome(g, d, f.v) && h == f.(v := d)
    ensures forall i: nat, s: nat :: i < |f.cur| && s < SLOTS ==> h.P(i, s) == f.P(i, s)
  {
    forall i: nat, s: nat | i < |f.cur| && s < SLOTS ensures h.P(i, s) == f.P(i, s) {
      var root := f.P(i, NDIRECT);
      assert root == f.cur[i].addrs[NDIRECT];
      if root != 0 {
        assert root in f.own && g.Home(root);
      }
    }
  }

  lemma SameOk(f: Image, h: Image)
    requires f.Ok() && h == f.(v := h.v) && |h.v| == |f.v|
    requires forall i: nat, s: nat :: i < |f.cur| && s < SLOTS ==> h.P(i, s) == f.P(i, s)
    ensures h.Ok()
  {
    forall b | b in h.own ensures h.P(h.own[b].i, h.own[b].s) == b {
      assert f.P(f.own[b].i, f.own[b].s) == b;
    }
  }

  lemma SameFile(g: Geometry, f: Image, h: Image, i: nat)
    requires f.Ok() && h.Ok() && h == f.(v := h.v) && |h.v| == |f.v| && LogApart(g, f) && SameHome(g, h.v, f.v)
    requires i < |f.cur|
    requires forall s: nat :: s < SLOTS ==> h.P(i, s) == f.P(i, s)
    ensures h.Data(i) == f.Data(i)
  {
    forall k | 0 <= k < f.nblk[i] ensures h.BlockOf(i, k) == f.BlockOf(i, k) {
      var b := f.P(i, SlotOf(k));
      assert b != 0 && b in f.own && g.Home(b);
      assert h.P(i, SlotOf(k)) == b;
    }
  }

  /** A disk that agrees with a consistent image outside the log is itself a consistent image of the
  same files. */
  lemma AgreesOutsideLog(g: Geometry, f: Image, d: Disk)
    requires Consistent(f) && LogApart(g, f) && |d| == |f.v| && SameHome(g, d, f.v)
    ensures var h := ImageOf(d, f);
      Consistent(h) && h == f.(v := d) && forall i: nat :: i < |f.cur| ==> Contents(h, i) == Contents(f, i)
  {
    SameMetadata(g, f, d);
    var h := ImageOf(d, f);
    assert h == f.(v := d);
    SamePtrs(g, f, d, h);
    SameOk(f, h);
    forall i: nat | i < |f.cur| ensures SettledAt(h, i) && Contents(h, i) == Contents(f, i) {
      assert SettledAt(f, i) && h.P(i, NDIRECT) == f.P(i, NDIRECT);
      SameFile(g, f, h, i);
    }
  }

  // ----- The files, and what operations do to them -----

  ghost function Files(f: Image): (s: seq<seq<byte>>)
    requires f.Ok() && Settled(f)
    ensures |s| == |f.cur| && forall i :: 0 <= i < |s| ==> s[i] == Contents(f, i)
  {
    seq(|f.cur|, i requires 0 <= i < |f.cur| => Contents(f, i))
  }

  /** What the operation means: a write that is not refused splices, a truncation empties. */
  function Effect(files: seq<seq<byte>>, op: Op): (s: seq<seq<byte>>)
    ensures |s| == |files|
  {
    if op.i >= |files| then files
    else
      match op
      case WriteOp(i, off, src) =>
        if off > |files[i]| || off + |src| > MAXFILE * BSIZE then files else files[i := Splice(files[i], off, src)]
      case TruncOp(i) => files[i := []]
  }

  function Replay(files: seq<seq<byte>>, ops: seq<Op>): (s: seq<seq<byte>>)
    ensures |s| == |files|
  {
    if ops == [] then files else Effect(Replay(files, ops[..|ops| - 1]), ops[|ops| - 1])
  }

  lemma DidEffect(f: Image, g: Image, op: Op, tx: Tx)
    requires Consistent(f) && Did(f, g, op, tx)
    ensures Files(g) == Effect(Files(f), op)
  {
    hide Image.PtrsOwn, Image.OwnersPoint, Image.BitsMatch, Image.NoHoles, PtrAt, BitsOf, DinosOf, UsesOwn, LogsFew,
      LowFirst, Contents, Splice;
    var want := Effect(Files(f), op);
    forall j: nat | j < |f.cur| ensures Files(g)[j] == want[j] {
      assert SettledAt(f, j) && SettledAt(g, j);
    }
  }

  // ----- How many blocks an operation takes -----

  /** The blocks of a file of that size: those for its bytes and, past the direct ones, the indirect block. */
  function Need(size: nat): nat {
    var n := BlocksFor(size);
    if n > NDIRECT then n + 1 else n
  }

  function Total(cur: seq<Inode>, n: nat): nat
    requires n <= |cur|
  {
    if n == 0 then 0 else Total(cur, n - 1) + Need(cur[n - 1].size)
  }

  /** The slots in use when the first n blocks of a file are mapped. */
  function SlotsFor(n: nat): set<nat> {
    if n <= NDIRECT then Between(0, n) else Between(0, n + 1)
  }

  /** The slots of inode i that lead to a block. */
  ghost function UsedSlots(f: Image, i: nat): set<nat>
    requires i < |f.cur|
  {
    set s: nat | s < SLOTS && f.P(i, s) != 0
  }

  lemma UsedSlot(f: Image, i: nat, s: nat)
    requires f.Ok() && i < |f.cur| && SettledAt(f, i)
    ensures s in UsedSlots(f, i) <==> s in SlotsFor(f.nblk[i])
  {
    hide Image.PtrsOwn, Image.OwnersPoint, Image.BitsMatch, PtrAt;
    if s < SLOTS && s != NDIRECT {
      var bn := if s < NDIRECT then s else s - 1;
      assert SlotOf(bn) == s;
      assert f.P(i, SlotOf(bn)) != 0 <==> bn < f.nblk[i];
    }
  }

  lemma CoversIs(n: nat, size: nat)
    requires Covers(n, size)
    ensures n == BlocksFor(size)
  {
  }

  lemma SlotCount(f: Image, i: nat)
    requires f.Ok() && i < |f.cur| && SettledAt(f, i)
    ensures |UsedSlots(f, i)| == Need(f.cur[i].size)
  {
    hide Image.PtrsOwn, Image.OwnersPoint, Image.BitsMatch, PtrAt, Image.NoHoles, BlocksFor;
    var n := f.nblk[i];
    CoversIs(n, f.cur[i].size);
    forall s: nat ensures s in UsedSlots(f, i) <==> s in SlotsFor(n) {
      UsedSlot(f, i, s);
    }
    assert UsedSlots(f, i) == SlotsFor(n);
  }

  /** The pointers of the first n inodes that lead to a block. */
  ghost function Pointers(f: Image, n: nat): set<Ptr>
    requires n <= |f.cur|
  {
    set i: nat, s: nat | i < n && s < SLOTS && s in UsedSlots(f, i) :: Ptr(i, s)
  }

  lemma {:induction false} PairSize(i: nat, S: set<nat>, Q: set<Ptr>)
    requires forall q :: q in Q <==> q.i == i && q.s in S
    ensures |Q| == |S|
    decreases S
  {
    if s :| s in S {
      PairSize(i, S - {s}, Q - {Ptr(i, s)});
    } else {
      assert Q == {};
    }
  }

  lemma PointersMore(f: Image, i: nat)
    requires i < |f.cur|
    ensures |Pointers(f, i + 1)| == |Pointers(f, i)| + |UsedSlots(f, i)|
  {
    var S := UsedSlots(f, i);
    var Q := set s | s in S :: Ptr(i, s);
    PairSize(i, S, Q);
    assert forall s :: s in S ==> s < SLOTS;
    hide UsedSlots;
    assert Pointers(f, i + 1) == Pointers(f, i) + Q && Pointers(f, i) !! Q;
  }

  lemma {:induction false} PointerCount(f: Image, n: nat)
    requires f.Ok() && Settled(f) && n <= |f.cur|
    ensures |Pointers(f, n)| == Total(f.cur, n)
  {
    hide Image.Ok, UsedSlots, SettledAt, Need;
    if n == 0 {
      assert Pointers(f, 0) == {};
    } else {
      var i := n - 1;
      PointerCount(f, i);
      assert SettledAt(f, i);
      SlotCount(f, i);
      PointersMore(f, i);
    }
  }

  lemma {:induction false} InjectiveSize(m: map<int, Ptr>, K: set<int>, Q: set<Ptr>)
    requires K <= m.Keys && forall b, c :: b in K && c in K && m[b] == m[c] ==> b == c
    requires forall q :: q in Q <==> exists b :: b in K && m[b] == q
    ensures |K| == |Q|
    decreases K
  {
    if K != {} {
      var b := SomeMember(K);
      var q := m[b];
      assert q in Q;
      forall r ensures r in Q - {q} <==> exists c :: c in K - {b} && m[c] == r {
        if r in Q - {q} {
          var c :| c in K && m[c] == r;
          assert c in K - {b};
        }
      }
      InjectiveSize(m, K - {b}, Q - {q});
    } else {
      assert Q == {};
    }
  }

  /** The blocks that files own are as many as their sizes call for. */
  lemma OwnCount(f: Image)
    requires f.Ok() && Settled(f)
    ensures |f.own.Keys| == Total(f.cur, |f.cur|)
  {
    var Q := Pointers(f, |f.cur|);
    PointerCount(f, |f.cur|);
    forall b | b in f.own ensures f.P(f.own[b].i, f.own[b].s) == b && b != 0 {
    }
    forall q ensures q in Q <==> exists b :: b in f.own.Keys && f.own[b] == q {
      if q in Q {
        var b := f.P(q.i, q.s);
        assert b in f.own && f.own[b] == q;
      }
    }
    InjectiveSize(f.own, f.own.Keys, Q);
  }

  lemma {:induction false} TotalOther(cur: seq<Inode>, cur': seq<Inode>, i: nat, n: nat)
    requires i < |cur| == |cur'| && n <= |cur| && forall j :: 0 <= j < |cur| && j != i ==> cur'[j] == cur[j]
    ensures Total(cur', n) - Total(cur, n) == if i < n then Need(cur'[i].size) - Need(cur[i].size) else 0
  {
    hide Need;
    if n > 0 {
      TotalOther(cur, cur', i, n - 1);
    }
  }

  function Larger(a: nat, b: nat): nat {
    if a < b then b else a
  }

  /** The number of blocks the operation takes, told from the image before it. */
  function Takes(f: Image, op: Op): int
    requires op.i < |f.cur|
  {
    match op
    case WriteOp(i, off, src) =>
      var size := f.cur[i].size;
      if Refused(f.cur[i], off, |src|) then 0 else Need(Larger(size, off + |src|)) - Need(size)
    case TruncOp(i) => 0
  }

  /** The blocks in use in e that were free in f. */
  ghost function NewBlocks(f: Image, e: Image): set<int>
    requires |e.bit| == |f.bit|
  {
    set b | 0 <= b < |f.bit| && e.bit[b] && !f.bit[b]
  }

  /** What is newly in use is newly owned. */
  lemma NewOwned(f: Image, e: Image)
    requires f.Ok() && e.Ok() && e.sb == f.sb && LowFirst(f.bit, e.bit)
    ensures |NewBlocks(f, e)| == |e.own.Keys| - |f.own.Keys|
  {
    hide Image.PtrsOwn, Image.NoHoles, PtrAt;
    forall b ensures b in e.own.Keys <==> b in f.own.Keys || b in NewBlocks(f, e) {
      assert b in f.own ==> f.bit[b];
      assert b in e.own ==> e.bit[b];
    }
    assert e.own.Keys == f.own.Keys + NewBlocks(f, e);
    assert f.own.Keys !! NewBlocks(f, e);
  }

  lemma StoredTakes(f: Image, e: Image, i: nat, off: nat, src: seq<byte>)
    requires Consistent(f) && Consistent(e) && i < |f.cur| && Stored(f, e, i, off, src)
    ensures |e.bit| == |f.bit|
    ensures |NewBlocks(f, e)| == Need(Larger(f.cur[i].size, off + |src|)) - Need(f.cur[i].size)
  {
    hide Image.PtrsOwn, Image.OwnersPoint, Image.BitsMatch, Image.NoHoles, PtrAt, SettledAt, Contents, Need, BitsOf,
      DinosOf, LowFirst, NewBlocks;
    OwnCount(f);
    OwnCount(e);
    TotalOther(f.cur, e.cur, i, |f.cur|);
    assert e.cur[i].size == Larger(f.cur[i].size, off + |src|);
    NewOwned(f, e);
  }

  /** As many blocks are taken as the sizes before and after call for. */
  lemma TakenAre(f: Image, e: Image, op: Op, tx: Tx)
    requires Consistent(f) && Did(f, e, op, tx)
    ensures |e.bit| == |f.bit| && |NewBlocks(f, e)| == Takes(f, op)
  {
    hide Image.PtrsOwn, Image.OwnersPoint, Image.BitsMatch, Image.NoHoles, PtrAt, Settled, Decoded, UsesOwn, LogsFew, Need,
      Stored, Refused;
    match op
    case WriteOp(i, off, src) =>
      if Refused(f.cur[i], off, |src|) {
        assert NewBlocks(f, e) == {};
      } else {
        StoredTakes(f, e, i, off, src);
      }
    case TruncOp(i) =>
      assert NewBlocks(f, e) == {};
  }

  // ----- The log area stays apart -----

  /** The free blocks below the log. */
  ghost function FreeBelow(g: Geometry, f: Image): set<int> {
    set b | 0 <= b < g.start && b < |f.bit| && !f.bit[b]
  }

  /** There are as many free blocks below the log as the operation takes. */
  ghost predicate RoomBelow(g: Geometry, f: Image, op: Op) {
    op.i < |f.cur| && Takes(f, op) <= |FreeBelow(g, f)|
  }

  /** If a file gets a block of the log, every free block below the log is taken too. */
  lemma LogBlockLast(g: Geometry, f: Image, e: Image, b: int)
    requires f.Ok() && e.Ok() && e.sb == f.sb && LogApart(g, f) && LowFirst(f.bit, e.bit) && b in e.own && g.start <= b
    ensures FreeBelow(g, f) + {b} <= NewBlocks(f, e) && b !in FreeBelow(g, f)
  {
    hide Image.PtrsOwn, Image.NoHoles, PtrAt;
    assert b < f.sb.size && b !in f.own && e.bit[b] && !f.bit[b];
  }

  lemma NewBelow(g: Geometry, f: Image, e: Image)
    requires f.Ok() && e.Ok() && e.sb == f.sb && LogApart(g, e)
    ensures NewBlocks(f, e) <= FreeBelow(g, f)
  {
    hide Image.PtrsOwn, Image.NoHoles, PtrAt;
    forall b | b in NewBlocks(f, e) ensures b in FreeBelow(g, f) {
      assert f.bit[b] <==> b < f.sb.DataStart() || b in f.own;
      assert e.bit[b] <==> b < e.sb.DataStart() || b in e.own;
    }
  }

  /** An operation that gives a file a log block takes blocks lowest first. */
  lemma DidLowFirst(f: Image, e: Image, op: Op, tx: Tx, b: int, g: Geometry)
    requires Consistent(f) && Did(f, e, op, tx) && LogApart(g, f) && b in e.own && g.start <= b
    ensures LowFirst(f.bit, e.bit) && b < |f.bit| && !f.bit[b]
  {
    hide Image.PtrsOwn, Image.NoHoles, PtrAt, SettledAt, Decoded, UsesOwn, LogsFew, LowFirst, Contents, Apply;
    assert e.bit[b] && b < f.sb.size && b !in f.own && !f.bit[b];
  }

  /** balloc takes the lowest free block, so the log stays apart exactly if the operation takes no more
  blocks than are free below it. */
  lemma LogApartIff(g: Geometry, f: Image, e: Image, op: Op, tx: Tx)
    requires Consistent(f) && Did(f, e, op, tx) && LogApart(g, f)
    ensures LogApart(g, e) <==> RoomBelow(g, f, op)
  {
    hide Image.PtrsOwn, Image.OwnersPoint, Image.BitsMatch, Image.NoHoles, PtrAt, Settled, Decoded, UsesOwn, LogsFew,
      Takes, LowFirst, NewBlocks, FreeBelow, Apply;
    TakenAre(f, e, op, tx);
    if LogApart(g, e) {
      NewBelow(g, f, e);
      SubsetSize(NewBlocks(f, e), FreeBelow(g, f));
    } else {
      var b :| b in e.own && g.start <= b;
      DidLowFirst(f, e, op, tx, b, g);
      LogBlockLast(g, f, e, b);
      SubsetSize(FreeBelow(g, f) + {b}, NewBlocks(f, e));
    }
  }

  lemma RoomOnMount(g: Geometry, f: Image, h: Image, op: Op)
    requires h == f.(v := h.v)
    ensures RoomBelow(g, h, op) <==> RoomBelow(g, f, op)
  {
    hide Need;
  }

  /** Some block below the log is free. */
  ghost predicate Spare(g: Geometry, f: Image) {
    exists b :: 0 <= b < g.start && b < |f.bit| && !f.bit[b]
  }

  lemma NoneSpare(g: Geometry, e: Image, f: Image, b: int)
    requires e.Ok() && LowFirst(f.bit, e.bit) && b in e.own && g.start <= b < |f.bit| && !f.bit[b]
    ensures !Spare(g, e)
  {
    hide Image.PtrsOwn, Image.NoHoles, PtrAt;
    assert e.bit[b];
  }

  /** In particular, no file gets a log block while one below the log is left. */
  lemma LogStaysApart(g: Geometry, f: Image, e: Image, op: Op, tx: Tx)
    requires Consistent(f) && Did(f, e, op, tx) && LogApart(g, f)
    ensures Spare(g, e) ==> LogApart(g, e) && RoomBelow(g, f, op)
  {
    hide Image.PtrsOwn, Image.OwnersPoint, Image.BitsMatch, Image.NoHoles, PtrAt, Settled, Decoded, UsesOwn, LogsFew,
      LowFirst, RoomBelow, Apply;
    if !LogApart(g, e) {
      var b :| b in e.own && g.start <= b;
      DidLowFirst(f, e, op, tx, b, g);
      NoneSpare(g, e, f, b);
    }
    LogApartIff(g, f, e, op, tx);
  }

  /** Every sector that an operation logs is a home sector. */
  lemma LogsHome(g: Geometry, f: Image, e: Image, op: Op, tx: Tx)
    requires Consistent(f) && Did(f, e, op, tx) && LogApart(g, e)
    ensures forall k :: 0 <= k < |tx| ==> g.Home(tx[k].sector)
  {
    forall k | 0 <= k < |tx| ensures g.Home(tx[k].sector) {
      var s := tx[k].sector;
      assert e.bit[s];
      assert s < e.sb.DataStart() || s in e.own;
    }
  }

  /** What filewrite and itrunc log on a file system with one bitmap block is a transaction that the
  log takes without panic. */
  lemma OperationsFit(g: Geometry, f: Image, e: Image, op: Op, tx: Tx)
    requires Consistent(f) && Did(f, e, op, tx) && LogApart(g, e)
    requires f.sb.size <= BPB && LOGSIZE <= g.size && (op.WriteOp? ==> |op.src| <= CHUNK)
    ensures Fitting(g, tx)
  {
    LogsHome(g, f, e, op, tx);
  }

  // ----- Lives: operations, crashes, remounts -----

  /** Operations on a file system, with the home sectors' contents as mounted when each began, the
  writes it logged and the image it led to.  fs[0] is the image at the first mount. */
  datatype Life = Life(fs: seq<Image>, ds: seq<Disk>, ops: seq<Op>, txs: seq<Tx>) {
    predicate Exactly(n: nat) {
      |fs| == n + 1 && |ds| == |ops| == |txs| == n
    }

    predicate Sized(n: nat) {
      n < |fs| && n <= |ds| && n <= |ops| && n <= |txs|
    }
  }

  ghost predicate Mountable(g: Geometry, f: Image) {
    Consistent(f) && LogApart(g, f) && |f.v| == g.disksize
  }

  /** The operation was done on disk d, which agrees with f outside the log: so it does in the same mount
  and after any crash and recovery.  There was room for it below the log. */
  ghost predicate DidFrom(g: Geometry, f: Image, d: Disk, e: Image, op: Op, tx: Tx)
    requires Mountable(g, f)
  {
    && |d| == |f.v| && SameHome(g, d, f.v) && RoomBelow(g, f, op)
    && (AgreesOutsideLog(g, f, d); Did(ImageOf(d, f), e, op, tx))
  }

  lemma DidFromOk(g: Geometry, f: Image, d: Disk, e: Image, op: Op, tx: Tx)
    requires Mountable(g, f) && DidFrom(g, f, d, e, op, tx)
    ensures Mountable(g, e) && e.v == Apply(d, tx)
  {
    hide Image.PtrsOwn, Image.OwnersPoint, Image.BitsMatch, Image.NoHoles, PtrAt, BitsOf, DinosOf, UsesOwn, LogsFew,
      LowFirst, Contents, Splice, SettledAt, RoomBelow;
    AgreesOutsideLog(g, f, d);
    RoomOnMount(g, f, ImageOf(d, f), op);
    LogApartIff(g, ImageOf(d, f), e, op, tx);
  }

  lemma DidFromEffect(g: Geometry, f: Image, d: Disk, e: Image, op: Op, tx: Tx)
    requires Mountable(g, f) && DidFrom(g, f, d, e, op, tx) && Mountable(g, e)
    ensures Files(e) == Effect(Files(f), op)
  {
    hide Image.PtrsOwn, Image.OwnersPoint, Image.BitsMatch, Image.NoHoles, PtrAt, BitsOf, DinosOf, UsesOwn, LogsFew,
      LowFirst, Contents, Splice, SettledAt, RoomBelow, Effect, LogApart;
    AgreesOutsideLog(g, f, d);
    assert Files(ImageOf(d, f)) == Files(f);
    DidEffect(ImageOf(d, f), e, op, tx);
  }

  lemma {:induction false} LivesOk(g: Geometry, l: Life, n: nat)
    requires l.Sized(n) && Lives(g, l, n)
    ensures Mountable(g, l.fs[n])
    decreases n, 1
  {
    hide Mountable, DidFrom;
    if n > 0 {
      LivesOk(g, l, n - 1);
      DidFromOk(g, l.fs[n - 1], l.ds[n - 1], l.fs[n], l.ops[n - 1], l.txs[n - 1]);
    }
  }

  /** The first n operations happened. */
  ghost predicate Lives(g: Geometry, l: Life, n: nat)
    requires l.Sized(n)
    decreases n, 0
  {
    hide Mountable, DidFrom;
    if n == 0 then Mountable(g, l.fs[0])
    else
      && Lives(g, l, n - 1)
      && (LivesOk(g, l, n - 1); DidFrom(g, l.fs[n - 1], l.ds[n - 1], l.fs[n], l.ops[n - 1], l.txs[n - 1]))
  }

  lemma {:induction false} LivesFirst(g: Geometry, l: Life, n: nat)
    requires l.Sized(n) && Lives(g, l, n)
    ensures Mountable(g, l.fs[0])
  {
    hide Mountable, DidFrom;
    if n > 0 {
      LivesFirst(g, l, n - 1);
    }
  }

  /** The files are always the replay of the operations so far. */
  lemma {:induction false} LifeReplays(g: Geometry, l: Life, n: nat)
    requires l.Sized(n) && Lives(g, l, n)
    ensures Mountable(g, l.fs[0]) && Mountable(g, l.fs[n]) && Files(l.fs[n]) == Replay(Files(l.fs[0]), l.ops[..n])
  {
    hide Consistent, LogApart, DidFrom, Effect;
    LivesFirst(g, l, n);
    LivesOk(g, l, n);
    if n > 0 {
      LifeReplays(g, l, n - 1);
      DidFromEffect(g, l.fs[n - 1], l.ds[n - 1], l.fs[n], l.ops[n - 1], l.txs[n - 1]);
      assert l.ops[..n][..n - 1] == l.ops[..n - 1];
    }
  }

  lemma {:induction false} ApplyAgrees(g: Geometry, d: Disk, e: Disk, tx: Tx)
    requires |d| == |e| == g.disksize && SameHome(g, d, e)
    ensures SameHome(g, Apply(d, tx), Apply(e, tx))
  {
    if tx != [] {
      ApplyAgrees(g, d, e, tx[..|tx| - 1]);
    }
  }

  /** The images' home sectors are what the transactions make of the first mount's. */
  lemma {:induction false} LifeApplies(g: Geometry, l: Life, n: nat)
    requires l.Sized(n) && Lives(g, l, n)
    ensures |l.fs[0].v| == |l.fs[n].v| == g.disksize && SameHome(g, ApplyAll(l.fs[0].v, l.txs[..n]), l.fs[n].v)
  {
    hide Consistent, LogApart, Did, RoomBelow;
    LivesFirst(g, l, n);
    LivesOk(g, l, n);
    if n > 0 {
      LifeApplies(g, l, n - 1);
      LivesOk(g, l, n - 1);
      var f, d, tx := l.fs[n - 1], l.ds[n - 1], l.txs[n - 1];
      DidFromOk(g, f, d, l.fs[n], l.ops[n - 1], tx);
      ApplyAgrees(g, ApplyAll(l.fs[0].v, l.txs[..n - 1]), d, tx);
      assert l.txs[..n][..n - 1] == l.txs[..n - 1];
    }
  }

  // ----- What the file system does between two crashes continues a life -----

  predicate SamePrefix(l: Life, m: Life, n: nat)
    requires l.Sized(n) && m.Sized(n)
  {
    l.fs[..n + 1] == m.fs[..n + 1] && l.ds[..n] == m.ds[..n] && l.ops[..n] == m.ops[..n] && l.txs[..n] == m.txs[..n]
  }

  lemma SamePrefixAt(l: Life, m: Life, n: nat)
    requires l.Sized(n) && m.Sized(n) && SamePrefix(l, m, n)
    ensures l.fs[n] == m.fs[n]
    ensures n > 0 ==>
      && SamePrefix(l, m, n - 1) && l.ds[n - 1] == m.ds[n - 1] && l.ops[n - 1] == m.ops[n - 1]
      && l.txs[n - 1] == m.txs[n - 1]
  {
    assert l.fs[n] == l.fs[..n + 1][n] == m.fs[..n + 1][n];
    if n > 0 {
      assert l.ds[n - 1] == l.ds[..n][n - 1] && l.ops[n - 1] == l.ops[..n][n - 1] && l.txs[n - 1] == l.txs[..n][n - 1];
      assert l.fs[..n] == l.fs[..n + 1][..n] && l.ds[..n - 1] == l.ds[..n][..n - 1];
      assert l.ops[..n - 1] == l.ops[..n][..n - 1] && l.txs[..n - 1] == l.txs[..n][..n - 1];
      assert m.fs[..n] == m.fs[..n + 1][..n] && m.ds[..n - 1] == m.ds[..n][..n - 1];
      assert m.ops[..n - 1] == m.ops[..n][..n - 1] && m.txs[..n - 1] == m.txs[..n][..n - 1];
    }
  }

  lemma {:induction false} LivesPrefix(g: Geometry, l: Life, m: Life, n: nat)
    requires l.Sized(n) && m.Sized(n) && SamePrefix(l, m, n) && Lives(g, l, n)
    ensures Lives(g, m, n)
  {
    hide Mountable, DidFrom, SamePrefix;
    SamePrefixAt(l, m, n);
    if n > 0 {
      LivesPrefix(g, l, m, n - 1);
      LivesOk(g, m, n - 1);
      SamePrefixAt(l, m, n - 1);
    }
  }

  /** One more operation, on disk d. */
  function OneMore(l: Life, d: Disk, e: Image, op: Op, tx: Tx): Life {
    Life(l.fs + [e], l.ds + [d], l.ops + [op], l.txs + [tx])
  }

  lemma LivesMore(g: Geometry, l: Life, n: nat, d: Disk, e: Image, op: Op, tx: Tx)
    requires l.Exactly(n) && Lives(g, l, n)
    requires Mountable(g, l.fs[n]) && DidFrom(g, l.fs[n], d, e, op, tx)
    ensures Lives(g, OneMore(l, d, e, op, tx), n + 1)
  {
    hide Mountable, DidFrom;
    var m := OneMore(l, d, e, op, tx);
    assert SamePrefix(l, m, n);
    LivesPrefix(g, l, m, n);
  }

  /** The life l, and after it the first k operations of h on the disk d then mounted. */
  ghost function Continued(l: Life, d: Disk, h: History, k: nat): Life
    requires k < |h.fs| && k <= |h.ops| && k <= |h.txs|
  {
    if k == 0 then l
    else
      var m := Continued(l, d, h, k - 1);
      OneMore(m, if k == 1 then d else h.fs[k - 1].v, h.fs[k], h.ops[k - 1], h.txs[k - 1])
  }

  /** A consistent image is the image of its own disk. */
  lemma OwnImage(g: Geometry, f: Image)
    requires Mountable(g, f)
    ensures ImageOf(f.v, f) == f && SameHome(g, f.v, f.v)
  {
    hide Image.PtrsOwn, Image.OwnersPoint, Image.BitsMatch, Image.NoHoles, PtrAt, BitsOf, DinosOf, Contents, SettledAt;
    AgreesOutsideLog(g, f, f.v);
  }

  /** Disk d, mounted, reads as image p. */
  ghost predicate MountedAs(g: Geometry, f: Image, d: Disk, p: Image) {
    Mountable(g, f) && |d| == |f.v| && SameHome(g, d, f.v) && ImageOf(d, f) == p
  }

  lemma DidOnMount(g: Geometry, f: Image, d: Disk, p: Image, e: Image, op: Op, tx: Tx)
    requires MountedAs(g, f, d, p) && Consistent(p) && Did(p, e, op, tx) && RoomBelow(g, p, op)
    ensures DidFrom(g, f, d, e, op, tx)
  {
    hide Consistent, LogApart, Did, RoomBelow;
    AgreesOutsideLog(g, f, d);
    RoomOnMount(g, f, p, op);
  }

  ghost predicate Continues(g: Geometry, l: Life, n: nat, h: History, k: nat, m: Life)
    requires l.Exactly(n) && k < |h.fs| && k <= |h.ops| && k <= |h.txs|
  {
    && m.Exactly(n + k) && Lives(g, m, n + k) && m.ops == l.ops + h.ops[..k] && m.txs == l.txs + h.txs[..k]
    && m.fs[n + k] == if k == 0 then l.fs[n] else h.fs[k]
  }

  lemma ContinuesMore(g: Geometry, l: Life, n: nat, h: History, k: nat, m: Life, at: Disk)
    requires l.Exactly(n) && k + 1 < |h.fs| && k < |h.ops| && k < |h.txs| && Continues(g, l, n, h, k, m)
    requires DidAt(h, k) && RoomBelow(g, h.fs[k], h.ops[k]) && MountedAs(g, m.fs[n + k], at, h.fs[k])
    ensures Continues(g, l, n, h, k + 1, OneMore(m, at, h.fs[k + 1], h.ops[k], h.txs[k]))
  {
    hide Consistent, LogApart, Did, RoomBelow, SameHome, ImageOf, Lives;
    DidOnMount(g, m.fs[n + k], at, h.fs[k], h.fs[k + 1], h.ops[k], h.txs[k]);
    LivesMore(g, m, n + k, at, h.fs[k + 1], h.ops[k], h.txs[k]);
    assert h.ops[..k + 1] == h.ops[..k] + [h.ops[k]] && h.txs[..k + 1] == h.txs[..k] + [h.txs[k]];
  }

  /** Whatever filewrite does (see FileSystem.Filewrite), from a mount of a disk that agrees with the
  last image outside the log, continues the life, as long as no chunk takes more blocks than are free below the log. */
  lemma {:induction false} LifeGoesOn(g: Geometry, l: Life, n: nat, d: Disk, h: History, p: Image, e: Image, k: nat)
    requires l.Exactly(n) && Lives(g, l, n) && MountedAs(g, l.fs[n], d, p) && Performs(h, p, e) && k <= |h.ops|
    requires forall j: nat :: j < k ==> RoomBelow(g, h.fs[j], h.ops[j])
    ensures Continues(g, l, n, h, k, Continued(l, d, h, k))
    decreases k
  {
    hide Consistent, LogApart, Did, RoomBelow, SameHome, ImageOf, Lives, DidAt, Mountable;
    if k == 0 {
      assert l.ops + h.ops[..0] == l.ops && l.txs + h.txs[..0] == l.txs;
    } else {
      LifeGoesOn(g, l, n, d, h, p, e, k - 1);
      var m := Continued(l, d, h, k - 1);
      LivesOk(g, m, n + k - 1);
      if k > 1 {
        OwnImage(g, h.fs[k - 1]);
      }
      ContinuesMore(g, l, n, h, k - 1, m, if k == 1 then d else h.fs[k - 1].v);
    }
  }

  // ----- Crash consistency -----

  lemma {:induction false} ApplyNonEmpty(d: Disk, txs: seq<Tx>)
    ensures ApplyAll(d, NonEmpty(txs)) == ApplyAll(d, txs)
  {
    if txs != [] {
      var r, tx := txs[..|txs| - 1], txs[|txs| - 1];
      ApplyNonEmpty(d, r);
      if tx == [] {
        assert NonEmpty(txs) == NonEmpty(r);
      } else {
        assert NonEmpty(txs)[..|NonEmpty(txs)| - 1] == NonEmpty(r);
      }
    }
  }

  /** Crash consistency of the file system.  Take any run of the log, with crashes after any disk write
  and recoveries, and any life of file operations whose first n transactions are those that the run
  committed (operations that log nothing commit nothing).  Then what recovery makes of the disk
  satisfies every file system invariant, and the bytes of every file are the replay of exactly the
  first n operations. */
  lemma CrashConsistent(g: Geometry, d0: Disk, trace: seq<Step>, l: Life, n: nat)
    requires g.Wf() && |d0| == g.disksize && Fits(g, Header(d0[g.start]))
    requires Run(g, State(d0, Down), trace).Ran?
    requires l.Sized(n) && Lives(g, l, n) && l.fs[0].v == Recover(g, d0)
    requires Committed(trace).0 == NonEmpty(l.txs[..n])
    ensures Mountable(g, l.fs[0]) && Mountable(g, l.fs[n])
    ensures
      var d := Run(g, State(d0, Down), trace).state.disk;
      && Fits(g, Header(d[g.start])) && |d| == |l.fs[n].v|
      && var h := ImageOf(Recover(g, d), l.fs[n]);
      Consistent(h) && Files(h) == Replay(Files(l.fs[0]), l.ops[..n])
  {
    var d := Run(g, State(d0, Down), trace).state.disk;
    CrashAtomicity(g, d0, trace);
    ApplyNonEmpty(Recover(g, d0), l.txs[..n]);
    LifeApplies(g, l, n);
    LivesOk(g, l, n);
    LifeReplays(g, l, n);
    AgreesOutsideLog(g, l.fs[n], Recover(g, d));
    assert Files(ImageOf(Recover(g, d), l.fs[n])) == Files(l.fs[n]);
  }

  // ----- Block ownership, read off the image -----

  /** A bitmap bit is set iff the block is boot, super, inode or bitmap block, or exactly one inode
  pointer (direct, indirect block or indirect entry) leads to it. */
  lemma BlockOwnership(f: Image, b: nat)
    requires f.Ok() && b < f.sb.size
    ensures f.bit[b] <==> b < f.sb.DataStart() || exists i: nat, s: nat :: i < |f.cur| && s < SLOTS && f.P(i, s) == b
    ensures b != 0 ==> forall i: nat, s: nat, j: nat, t: nat ::
      i < |f.cur| && s < SLOTS && f.P(i, s) == b && j < |f.cur| && t < SLOTS && f.P(j, t) == b ==> i == j && s == t
  {
    if b in f.own {
      assert f.P(f.own[b].i, f.own[b].s) == b;
    }
    if i: nat, s: nat :| i < |f.cur| && s < SLOTS && f.P(i, s) == b && b != 0 {
      assert f.own[f.P(i, s)] == Ptr(i, s);
    }
    forall i: nat, s: nat, j: nat, t: nat |
      b != 0 && i < |f.cur| && s < SLOTS && f.P(i, s) == b && j < |f.cur| && t < SLOTS && f.P(j, t) == b
      ensures i == j && s == t
    {
      assert f.own[f.P(i, s)] == Ptr(i, s) && f.own[f.P(j, t)] == Ptr(j, t);
    }
  }
}
