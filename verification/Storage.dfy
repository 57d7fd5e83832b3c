/** The log and the file system running together: file operations as transactions on the log, and
reboots. */
module Storage {
  import opened Blocks
  import opened BufferCache
  import opened Common
  import opened CrashSafety
  import opened FileBytes
  import opened FileSystem
  import opened FsFormat
  import opened FsImage
  import opened LogProtocol
  import opened RedoLog
  import opened Transactions

  /** No transaction is open, and exactly the n operations of life f have been committed. */
  ghost predicate Ready(l: Log, f: Life, n: nat)
    reads l, l.cache
  {
    && l.Valid() && !l.busy && LOGSIZE <= l.size && f.Exactly(n) && Lives(l.G(), f, n)
    && f.fs[0].v == Recover(l.G(), l.d0) && Committed(l.trace) == (NonEmpty(f.txs), [])
  }

  lemma NonEmptyMore(txs: seq<Tx>, tx: Tx)
    ensures NonEmpty(txs + [tx]) == NonEmpty(txs) + NonEmpty([tx])
  {
    assert (txs + [tx])[..|txs|] == txs;
    assert [tx][..0] == [] && NonEmpty([]) == [];
  }

  /** One more operation is part of the life, and what it logs fits the log. */
  lemma OperationReady(g: Geometry, f: Life, n: nat, d: Disk, p: Image, e: Image, op: Op, tx: Tx)
    requires f.Exactly(n) && Lives(g, f, n) && MountedAs(g, f.fs[n], d, p) && Consistent(p) && Did(p, e, op, tx)
    requires RoomBelow(g, p, op) && |Sectors(tx)| <= 7 && LOGSIZE <= g.size
    ensures Fitting(g, tx) && Lives(g, OneMore(f, d, e, op, tx), n + 1)
    ensures Mountable(g, e) && MountedAs(g, e, e.v, e)
  {
    hide Consistent, Did, RoomBelow, Lives, LogApart, Sectors, ImageOf, SameHome;
    DidOnMount(g, f.fs[n], d, p, e, op, tx);
    LivesMore(g, f, n, d, e, op, tx);
    DidFromOk(g, f.fs[n], d, e, op, tx);
    LogsHome(g, p, e, op, tx);
    OwnImage(g, e);
  }

  /** A file operation, done on the mounted image p and logged as tx, as a transaction. */
  method Perform(l: Log, tx: Tx, ghost f: Life, ghost n: nat, ghost d: Disk, ghost p: Image, ghost e: Image, ghost op: Op)
      returns (ghost f': Life)
    requires Ready(l, f, n) && MountedAs(l.G(), f.fs[n], d, p) && Consistent(p) && Did(p, e, op, tx)
    requires RoomBelow(l.G(), p, op) && |Sectors(tx)| <= 7 && Beside(l.cache.buf, tx)
    modifies l, l.cache
    ensures f' == OneMore(f, d, e, op, tx) && Ready(l, f', n + 1) && MountedAs(l.G(), e, e.v, e)
    ensures SameInUse(old(l.cache.buf), l.cache.buf)
  {
    hide Consistent, Did, RoomBelow, Lives, MountedAs, Mountable, Pinned, Coherent, Reached, BufferCache.Linked, Beside,
      SameInUse, Sectors, Recover, Committed, Fitting;
    f' := OneMore(f, d, e, op, tx);
    OperationReady(l.G(), f, n, d, p, e, op, tx);
    NonEmptyMore(f.txs, tx);
    Transact(l, tx);
  }

  // ----- What is read -----

  /** Between transactions a process reads, of every sector not in use, what the current image holds. */
  lemma ReadyReads(l: Log, f: Life, n: nat, t: Word)
    requires Ready(l, f, n) && l.G().Home(t) && !InUse(l.cache.buf, t)
    ensures |f.fs[n].v| == l.G().disksize && View(l.cache.buf, l.cache.disk, t) == f.fs[n].v[t]
  {
    hide Mountable, DidFrom, Pinned, Coherent;
    LifeApplies(l.G(), f, n);
    assert f.txs[..n] == f.txs;
    ApplyNonEmpty(Recover(l.G(), l.d0), f.txs);
    ReadersSeeOpen(l.G(), l.d0, l.trace, l.cache.disk, l.lh, l.busy, l.cache.buf, t);
  }

  /** The file system is mounted: what fs works on is the last image, outside the log. */
  ghost predicate Running(l: Log, fs: FileSystem, f: Life, n: nat)
    reads l, l.cache, fs
  {
    f.Exactly(n) && Ready(l, f, n) && fs.Quiet() && MountedAs(l.G(), f.fs[n], fs.view, fs.Img())
  }

  /** The files of a mounted file system are the replay of all its operations, whatever crashes lie
  between them. */
  lemma RunningReplays(l: Log, fs: FileSystem, f: Life, n: nat)
    requires Running(l, fs, f, n)
    ensures Mountable(l.G(), f.fs[0]) && Files(fs.Img()) == Replay(Files(f.fs[0]), f.ops)
  {
    hide Pinned, Coherent, Reached, BufferCache.Linked, Lives, LogApart, Contents, SameHome, Replay, Image.PtrsOwn,
      Image.OwnersPoint, Image.BitsMatch, Image.NoHoles, BitsOf, DinosOf, Committed;
    LifeReplays(l.G(), f, n);
    assert f.ops[..n] == f.ops;
    AgreesOutsideLog(l.G(), f.fs[n], fs.view);
    assert Files(fs.Img()) == Files(f.fs[n]);
  }

  // ----- Reboot -----

  lemma {:induction false} CommittedReboot(trace: seq<Step>, n: nat)
    ensures Committed(trace + [Crash] + [ReadHead] + Installs(n)) == (Committed(trace).0, [])
  {
    var e := trace + [Crash] + [ReadHead] + Installs(n);
    if n == 0 {
      assert e == trace + [Crash] + [ReadHead];
      CommittedStep(trace, Crash);
      CommittedStep(trace + [Crash], ReadHead);
    } else {
      assert e[..|e| - 1] == trace + [Crash] + [ReadHead] + Installs(n - 1);
      CommittedReboot(trace, n - 1);
    }
  }

  lemma {:induction false} CommittedBoot(trace: seq<Step>, n: nat)
    ensures Committed(trace + [Crash] + [ReadHead] + Installs(n) + [Erase]) == (Committed(trace).0, [])
  {
    var e := trace + [Crash] + [ReadHead] + Installs(n) + [Erase];
    assert e[..|e| - 1] == trace + [Crash] + [ReadHead] + Installs(n);
    CommittedReboot(trace, n);
  }

  /** The recovered disk mounts as the last image of the operations committed. */
  lemma RecoveredMounts(g: Geometry, d0: Disk, trace: seq<Step>, d: Disk, f: Life, n: nat)
    requires Reached(g, d0, trace, d, Up([], false)) && f.Exactly(n) && Lives(g, f, n)
    requires f.fs[0].v == Recover(g, d0) && Committed(trace) == (NonEmpty(f.txs), [])
    ensures Mountable(g, f.fs[n]) && |d| == |f.fs[n].v|
    ensures MountedAs(g, f.fs[n], d, ImageOf(d, f.fs[n])) && Consistent(ImageOf(d, f.fs[n]))
  {
    hide DidFrom, Consistent, LogApart;
    RunKeepsInv(g, d0, trace);
    LifeApplies(g, f, n);
    LivesOk(g, f, n);
    assert f.txs[..n] == f.txs;
    ApplyNonEmpty(Recover(g, d0), f.txs);
    AgreesOutsideLog(g, f.fs[n], d);
  }

  /** A crash at any point of any run, power-on, recovery and mount.  `past` is the run; its committed
  transactions are those of f. */
  method Reboot(disk: Disk, start: Word, size: nat, sb: Superblock, ghost d0: Disk, ghost past: seq<Step>, ghost m: Memory,
      ghost f: Life, ghost n: nat)
      returns (l: Log, fs: FileSystem)
    requires Reached(Geometry(start, size, |d0|), d0, past, disk, m) && LOGSIZE <= size
    requires f.Exactly(n) && Lives(Geometry(start, size, |d0|), f, n) && sb == f.fs[n].sb
    requires f.fs[0].v == Recover(Geometry(start, size, |d0|), d0) && Committed(past).0 == NonEmpty(f.txs)
    ensures fresh(l) && fresh(l.cache) && fresh(fs) && Running(l, fs, f, n) && Busy(l.cache.buf) == {}
    ensures l.G() == Geometry(start, size, |d0|) && l.d0 == d0
  {
    hide Pinned, Coherent, Reached, BufferCache.Linked, Full, Lives, Mountable, Committed, Recover, Fits, BitsOf, DinosOf,
      Image.PtrsOwn, Image.OwnersPoint, Image.BitsMatch, Image.NoHoles, Settled, SameHome;
    ReachedShape(Geometry(start, size, |d0|), d0, past, disk, m);
    var cache := new Cache(disk);
    l := new Log(cache, start, size, d0, past, m);
    var ok := l.RecoverFromLog();
    CommittedBoot(past, |Header(disk[start])|);
    RecoveredMounts(l.G(), d0, l.trace, l.cache.disk, f, n);
    fs := new FileSystem(sb, l.cache.disk, f.fs[n].own, f.fs[n].nblk);
    assert Busy(l.cache.buf) == {};
  }

  // ----- Operations on a mounted file system -----

  /** Other processes hold no buffer. */
  ghost predicate Alone(l: Log)
    reads l.cache
  {
    Busy(l.cache.buf) == {}
  }

  lemma StillAlone(was: seq<Buf>, now: seq<Buf>)
    requires SameInUse(was, now) && Busy(was) == {}
    ensures Busy(now) == {}
  {
    forall i: nat ensures i !in Busy(now) {
      assert i < |was| ==> i !in Busy(was);
    }
  }

  /** The transaction for an operation just done on fs. */
  method Commits(l: Log, fs: FileSystem, tx: Tx, ghost p: Image, ghost op: Op, ghost f: Life, ghost n: nat)
      returns (ghost f': Life)
    requires Ready(l, f, n) && MountedAs(l.G(), f.fs[n], p.v, p) && Alone(l) && fs.Quiet() && Consistent(p)
    requires Did(p, fs.Img(), op, tx) && RoomBelow(l.G(), p, op) && |Sectors(tx)| <= 7
    modifies l, l.cache
    ensures Running(l, fs, f', n + 1) && Alone(l) && f'.ops == f.ops + [op] && f'.fs[0] == f.fs[0]
  {
    hide Consistent, Did, RoomBelow, Lives, MountedAs, Mountable, Pinned, Coherent, Reached, BufferCache.Linked, Full, Beside,
      SameInUse, Sectors, Recover, Committed, BitsOf, DinosOf, Image.Ok, Settled;
    ghost var was := l.cache.buf;
    AloneBeside(was, tx);
    f' := Perform(l, tx, f, n, p.v, p, fs.Img(), op);
    StillAlone(was, l.cache.buf);
  }

  /** One chunk of filewrite: begin_trans, writei, commit_trans. */
  method WriteOne(l: Log, fs: FileSystem, i: Word, src: seq<byte>, off: Word, ghost f: Life, ghost n: nat)
      returns (r: Option<int>, ghost f': Life)
    requires Running(l, fs, f, n) && Alone(l) && i < |fs.cur| && fs.cur[i].kind != T_DEV && |src| <= CHUNK
    requires fs.sb.size <= BPB && RoomBelow(l.G(), fs.Img(), WriteOp(i, off, src))
    modifies l, l.cache, fs
    ensures r.Some? ==> Running(l, fs, f', n + 1) && Alone(l) && f'.ops == f.ops + [WriteOp(i, off, src)]
    ensures r.Some? ==> ChunkDone(old(fs.Img()), fs.Img(), i, off, src, old(fs.tx), fs.tx, r.value) && f'.fs[0] == f.fs[0]
    ensures r.None? ==> DiskFull(fs.sb, fs.view)
  {
    hide RoomBelow, Lives, MountedAs, Pinned, Coherent, Reached, BufferCache.Linked, Full, SameInUse, Recover, Committed,
      BitsOf, DinosOf, Image.Ok, Settled, Stored, UsesOwn, Decoded;
    f' := f;
    ghost var p, was := fs.Img(), fs.tx;
    var t := |fs.tx|;
    r := fs.WriteChunk(i, src, off);
    if r.Some? {
      f' := Commits(l, fs, fs.tx[t..], p, WriteOp(i, off, src), f, n);
    }
  }

  /** itrunc as a transaction. */
  method Truncate(l: Log, fs: FileSystem, i: Word, ghost f: Life, ghost n: nat) returns (ghost f': Life)
    requires Running(l, fs, f, n) && Alone(l) && i < |fs.cur| && fs.sb.size <= BPB
    modifies l, l.cache, fs
    ensures Running(l, fs, f', n + 1) && Alone(l) && f'.ops == f.ops + [TruncOp(i)] && f'.fs[0] == f.fs[0]
  {
    hide FreeBelow, Lives, MountedAs, Pinned, Coherent, Reached, BufferCache.Linked, Full, SameInUse, Recover, Committed,
      BitsOf, DinosOf, Image.Ok, Settled, UsesOwn, Decoded, Truncated, Adds;
    ghost var p := fs.Img();
    var t := |fs.tx|;
    var ok := fs.Itrunc(i);
    f' := Commits(l, fs, fs.tx[t..], p, TruncOp(i), f, n);
  }

  // ----- filewrite -----

  /** The size of a file after filewrite of len bytes at off, which stops at a chunk that writei refuses. */
  function SizeAfter(size: nat, off: nat, len: nat): nat
    decreases len
  {
    var m := ChunkSize(len);
    if len == 0 || off > size || off + m > MAXFILE * BSIZE then size
    else SizeAfter(Larger(size, off + m), off + m, len - m)
  }

  /** The whole chunks among x bytes. */
  function WholeChunks(x: nat): nat {
    x / 1536 * 1536
  }

  lemma WholeChunksStep(x: nat)
    ensures WholeChunks(x) == if x < CHUNK then 0 else CHUNK + WholeChunks(x - CHUNK)
  {
    if x >= CHUNK {
      assert (x - CHUNK) / CHUNK == x / CHUNK - 1;
    }
  }

  /** That is the end of the data or, if it goes past the largest file, of the last whole chunk before. */
  lemma {:induction false} SizeAfterIs(size: nat, off: nat, len: nat)
    requires off <= size <= MAXFILE * BSIZE
    ensures SizeAfter(size, off, len) ==
      Larger(size, if off + len <= MAXFILE * BSIZE then off + len else off + WholeChunks(MAXFILE * BSIZE - off))
    decreases len
  {
    hide WholeChunks;
    var m := ChunkSize(len);
    WholeChunksStep(MAXFILE * BSIZE - off);
    if len > 0 && off + m <= MAXFILE * BSIZE {
      SizeAfterIs(Larger(size, off + m), off + m, len - m);
    }
  }

  lemma {:induction false} SizeGrows(size: nat, off: nat, len: nat)
    ensures size <= SizeAfter(size, off, len)
    decreases len
  {
    var m := ChunkSize(len);
    if !(len == 0 || off > size || off + m > MAXFILE * BSIZE) {
      SizeGrows(Larger(size, off + m), off + m, len - m);
    }
  }

  lemma NeedGrows(a: nat, b: nat)
    requires a <= b
    ensures Need(a) <= Need(b)
  {
  }

  /** There are as many free blocks below the log as filewrite takes. */
  ghost predicate RoomFor(g: Geometry, p: Image, i: nat, off: nat, len: nat) {
    i < |p.cur| && Need(SizeAfter(p.cur[i].size, off, len)) - Need(p.cur[i].size) <= |FreeBelow(g, p)|
  }

  lemma RoomChunk(g: Geometry, p: Image, i: nat, off: nat, len: nat, src: seq<byte>)
    requires RoomFor(g, p, i, off, len) && 0 < len && |src| == ChunkSize(len)
    ensures RoomBelow(g, p, WriteOp(i, off, src))
  {
    hide Need, FreeBelow;
    var size, m := p.cur[i].size, ChunkSize(len);
    if !Refused(p.cur[i], off, m) {
      SizeGrows(Larger(size, off + m), off + m, len - m);
      NeedGrows(Larger(size, off + m), SizeAfter(size, off, len));
    }
  }

  /** The blocks taken are no longer free. */
  lemma FreeAfter(g: Geometry, p: Image, e: Image, op: Op, tx: Tx)
    requires Consistent(p) && LogApart(g, p) && Did(p, e, op, tx) && op.WriteOp? && RoomBelow(g, p, op)
    ensures |FreeBelow(g, e)| == |FreeBelow(g, p)| - Takes(p, op)
  {
    hide Image.PtrsOwn, Image.OwnersPoint, Image.BitsMatch, Image.NoHoles, PtrAt, SettledAt, Decoded, UsesOwn, LogsFew, Takes,
      Contents, Splice, Apply;
    TakenAre(p, e, op, tx);
    LogApartIff(g, p, e, op, tx);
    NewBelow(g, p, e);
    forall b | b in FreeBelow(g, e) ensures b in FreeBelow(g, p) {
      assert !e.bit[b];
    }
    assert FreeBelow(g, p) == FreeBelow(g, e) + NewBlocks(p, e);
    assert FreeBelow(g, e) !! NewBlocks(p, e);
  }

  lemma RoomNext(g: Geometry, p: Image, e: Image, i: nat, off: nat, src: seq<byte>, tx: Tx, len: nat)
    requires Consistent(p) && LogApart(g, p) && Did(p, e, WriteOp(i, off, src), tx) && RoomFor(g, p, i, off, len)
    requires 0 < len && |src| == ChunkSize(len) && !Refused(p.cur[i], off, |src|)
    requires e.cur[i].size == Larger(p.cur[i].size, off + |src|)
    ensures RoomFor(g, e, i, off + |src|, len - |src|)
  {
    hide Need, FreeBelow, Consistent, LogApart, UsesOwn, LogsFew, Stored, NowEmpty;
    RoomChunk(g, p, i, off, len, src);
    FreeAfter(g, p, e, WriteOp(i, off, src), tx);
  }

  /** Part-way through filewrite: count bytes are written, up to file position pos, and there is room for
  the rest. */
  ghost predicate Writing(l: Log, fs: FileSystem, f: Life, n: nat, was: Image, i: nat, off: nat, data: seq<byte>, count: nat,
      pos: nat)
    reads l, l.cache, fs
  {
    && Running(l, fs, f, n) && Alone(l) && Written(was, fs.Img(), i, off, data, count) && pos == off + count
    && RoomFor(l.G(), fs.Img(), i, pos, |data| - count)
  }

  lemma ChunkWritten(was: Image, p: Image, e: Image, i: nat, off: nat, data: seq<byte>, count: nat, pos: nat, m: nat,
      t: Tx, now: Tx, r: int, g: Geometry)
    requires Written(was, p, i, off, data, count) && pos == off + count && count < |data|
    requires m == count + ChunkSize(|data| - count) && Consistent(p) && LogApart(g, p)
    requires ChunkDone(p, e, i, pos, data[count..m], t, now, r) && RoomFor(g, p, i, pos, |data| - count)
    ensures if r < 0 then r == -1 && e == p && Refused(p.cur[i], pos, ChunkSize(|data| - count))
            else
              && r == m - count && Written(was, e, i, off, data, m) && pos + r <= e.cur[i].size
              && RoomFor(g, e, i, pos + r, |data| - m)
  {
    hide Image.PtrsOwn, Image.OwnersPoint, Image.BitsMatch, Image.NoHoles, PtrAt, SettledAt, BitsOf, DinosOf, UsesOwn, LogsFew,
      Contents, LowFirst, RoomFor, LogApart;
    if r >= 0 {
      StoredNext(was, p, e, i, off, data, count, pos, m);
      assert e.cur[i].size == Larger(p.cur[i].size, pos + (m - count));
      RoomNext(g, p, e, i, pos, data[count..m], now[|t|..], |data| - count);
    }
  }

  lemma RunningApart(l: Log, fs: FileSystem, f: Life, n: nat)
    requires Running(l, fs, f, n)
    ensures Consistent(fs.Img()) && LogApart(l.G(), fs.Img())
  {
    hide Ready, Image.PtrsOwn, Image.OwnersPoint, Image.BitsMatch, Image.NoHoles, BitsOf, DinosOf, SettledAt, SameHome,
      Contents;
    AgreesOutsideLog(l.G(), f.fs[n], fs.view);
  }

  /** One turn of filewrite's loop. */
  method WriteNext(l: Log, fs: FileSystem, i: Word, data: seq<byte>, ghost off: nat, count: nat, pos: Word, ghost was: Image,
      ghost f: Life, ghost n: nat)
      returns (ok: bool, go: bool, count': nat, pos': Word, ghost f': Life)
    requires Writing(l, fs, f, n, was, i, off, data, count, pos) && count < |data| && fs.sb.size <= BPB
    requires was.cur[i].kind != T_DEV
    modifies l, l.cache, fs
    ensures ok ==> Writing(l, fs, f', n + 1, was, i, off, data, count', pos') && f'.fs[0] == f.fs[0] && (go ==> count < count')
    ensures ok && !go ==> count' < |data| && Refused(fs.cur[i], pos', ChunkSize(|data| - count'))
    ensures !ok ==> DiskFull(fs.sb, fs.view)
  {
    hide Ready, MountedAs, RoomFor, RoomBelow, Busy, BitsOf, DinosOf, Image.Ok, Settled, Stored, Did, ChunkDone, LogApart,
      Coherent, BufferCache.Linked, Full, DiskFull;
    var m := count + ChunkSize(|data| - count);
    ghost var p, t := fs.Img(), fs.tx;
    WrittenKind(was, p, i, off, data, count);
    RoomChunk(l.G(), p, i, pos, |data| - count, data[count..m]);
    RunningApart(l, fs, f, n);
    var r;
    r, f' := WriteOne(l, fs, i, data[count..m], pos, f, n);
    ok, go, count', pos' := r.Some?, true, count, pos;
    if ok {
      ChunkWritten(was, p, fs.Img(), i, off, data, count, pos, m, t, fs.tx, r.value, l.G());
      go := r.value >= 0;
      count', pos' := if go then m else count, if go then pos + r.value else pos;
    }
  }

  /** filewrite, each chunk a transaction on the log.  The result is |data|, or -1 if the file is not
  writable or a chunk was refused, or None where the source panics for want of disk blocks. */
  method WriteFile(l: Log, fs: FileSystem, i: Word, data: seq<byte>, off: Word, writable: bool, ghost f: Life, ghost n: nat)
      returns (r: Option<int>, off': Word, count: nat, ghost f': Life, ghost n': nat)
    requires Running(l, fs, f, n) && Alone(l) && i < |fs.cur| && fs.cur[i].kind != T_DEV && fs.sb.size <= BPB
    requires RoomFor(l.G(), fs.Img(), i, off, |data|)
    modifies l, l.cache, fs
    ensures r.Some? ==> Running(l, fs, f', n') && Alone(l) && f'.fs[0] == f.fs[0]
    ensures r.Some? ==> Written(old(fs.Img()), fs.Img(), i, off, data, count) && off' == off + count
    ensures r.Some? ==> r.value == if writable && count == |data| then count else -1
    ensures r.Some? && !writable ==> count == 0
    ensures r.Some? && writable && count < |data| ==> Refused(fs.cur[i], off', ChunkSize(|data| - count))
    ensures r.None? ==> DiskFull(fs.sb, fs.view)
  {
    hide Ready, MountedAs, RoomFor, Busy, BitsOf, DinosOf, Image.Ok, Settled, Stored, DiskFull, Refused;
    off', count, f', n' := off, 0, f, n;
    if !writable {
      return Some(-1), off, 0, f, n;
    }
    ghost var was := fs.Img();
    var ok, go := true, true;
    while ok && go && count < |data|
      invariant ok ==> Writing(l, fs, f', n', was, i, off, data, count, off') && f'.fs[0] == f.fs[0]
      invariant ok && !go ==> count < |data| && Refused(fs.cur[i], off', ChunkSize(|data| - count))
      invariant !ok ==> DiskFull(fs.sb, fs.view)
      decreases ok, go, |data| - count
    {
      ok, go, count, off', f' := WriteNext(l, fs, i, data, off, count, off', was, f', n');
      n' := n' + 1;
    }
    var total: int := if count == |data| then count else -1;
    r := if ok then Some(total) else None;
  }

  /** Reading a file gives a slice of what the operations made of it. */
  method ReadFile(l: Log, fs: FileSystem, i: Word, off: Word, len: Word, ghost f: Life, ghost n: nat)
      returns (r: Option<seq<byte>>)
    requires Running(l, fs, f, n) && i < |fs.cur| && fs.cur[i].kind != T_DEV
    modifies fs
    ensures Running(l, fs, f, n) && Mountable(l.G(), f.fs[0]) && i < |f.fs[0].cur|
    ensures var bytes := Replay(Files(f.fs[0]), f.ops)[i];
      && (r.None? <==> off > |bytes| || off + len >= TWO32)
      && (r.Some? ==> r.value == bytes[off..if off + len > |bytes| then |bytes| else off + len])
  {
    hide Ready, BitsOf, DinosOf, Image.PtrsOwn, Image.OwnersPoint, Image.BitsMatch, Image.NoHoles, Replay, MountedAs, Mountable,
      SettledAt;
    RunningReplays(l, fs, f, n);
    r := fs.Readi(i, off, len);
  }
}
