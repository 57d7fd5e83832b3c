/** A whole transaction on the log: begin_trans, bread - store - log_write - brelse for each block, and
commit_trans. */
module Transactions {
  import opened Blocks
  import opened BufferCache
  import opened Common
  import opened LogProtocol
  import opened RedoLog

  // ----- The log never overflows -----

  /** The in-memory header after logging tx from an empty one. */
  function HeaderAfter(tx: Tx): seq<Word> {
    if tx == [] then [] else Absorb(HeaderAfter(tx[..|tx| - 1]), tx[|tx| - 1].sector)
  }

  function Elements(s: seq<Word>): set<int> {
    set k: nat | k < |s| :: s[k] as int
  }

  lemma {:induction false} DistinctSize(s: seq<Word>)
    requires Distinct(s)
    ensures |Elements(s)| == |s|
  {
    if s != [] {
      var r := s[..|s| - 1];
      DistinctSize(r);
      forall x ensures x in Elements(s) <==> x in Elements(r) || x == s[|s| - 1] {
        if x in Elements(r) {
          var k: nat :| k < |r| && r[k] as int == x;
          assert s[k] as int == x;
        }
      }
      assert Elements(s) == Elements(r) + {s[|s| - 1] as int};
    }
  }

  lemma {:induction false} HeaderDistinct(tx: Tx)
    ensures Distinct(HeaderAfter(tx)) && Elements(HeaderAfter(tx)) == Sectors(tx)
  {
    if tx != [] {
      var r, w := tx[..|tx| - 1], tx[|tx| - 1];
      HeaderDistinct(r);
      var h, h' := HeaderAfter(r), HeaderAfter(tx);
      forall x ensures x in Elements(h') <==> x in Elements(h) || x == w.sector {
        if x in Elements(h) {
          var k: nat :| k < |h| && h[k] as int == x;
          assert h'[k] as int == x;
        }
        if x == w.sector {
          var k := IndexOf(h, w.sector);
          assert h'[k] as int == x;
        }
      }
      forall x ensures x in Sectors(tx) <==> x in Sectors(r) || x == w.sector {
        if x in Sectors(r) {
          var k: nat :| k < |r| && r[k].sector as int == x;
          assert tx[k].sector as int == x;
        }
      }
    }
  }

  /** While a small transaction runs, log_write never finds the header full: the "too big a
  transaction" panic cannot fire on a log of at least LOGSIZE sectors. */
  lemma NoOverflow(tx: Tx, k: nat, nlog: nat)
    requires |Sectors(tx)| <= 7 && k <= |tx| && LOGSIZE <= nlog
    ensures |HeaderAfter(tx[..k])| <= |Sectors(tx)| <= 7 < LOGSIZE && |HeaderAfter(tx[..k])| < nlog - 1
  {
    HeaderDistinct(tx[..k]);
    DistinctSize(HeaderAfter(tx[..k]));
    SubsetSize(Sectors(tx[..k]), Sectors(tx));
  }

  // ----- A transaction on the log -----

  function Busy(bs: seq<Buf>): (s: set<nat>)
    ensures forall i: nat :: i in s <==> i < |bs| && bs[i].busy
  {
    set i: nat | i < |bs| && bs[i].busy
  }

  /** Other processes hold buffers of other sectors only, and leave enough for the transaction. */
  ghost predicate Beside(bs: seq<Buf>, tx: Tx) {
    && |Sectors(tx)| + |Busy(bs)| + 1 < NBUF
    && forall i :: 0 <= i < |bs| && bs[i].busy ==> bs[i].dev == DISKDEV && bs[i].sector !in Sectors(tx)
  }

  lemma BesideSame(was: seq<Buf>, now: seq<Buf>, tx: Tx)
    requires SameInUse(was, now) && Beside(was, tx)
    ensures Beside(now, tx)
  {
    hide Sectors;
    assert Busy(now) == Busy(was);
  }

  /** A process that runs alone is not disturbed. */
  lemma AloneBeside(bs: seq<Buf>, tx: Tx)
    requires |Sectors(tx)| <= 7 && forall i :: 0 <= i < |bs| ==> !bs[i].busy
    ensures Beside(bs, tx)
  {
    assert Busy(bs) == {};
  }

  /** No more buffers are dirty than sectors are logged. */
  lemma {:induction false} FewDirty(bs: seq<Buf>, d: Disk, lh: seq<Word>, D: set<nat>)
    requires Coherent(bs, d) && forall i :: i in D ==> i < NBUF && bs[i].dirty && bs[i].sector in lh
    ensures |D| <= |lh|
    decreases D
  {
    if i :| i in D {
      var k :| 0 <= k < |lh| && lh[k] == bs[i].sector;
      var rest := lh[..k] + lh[k + 1..];
      forall j | j in D - {i} ensures bs[j].sector in rest {
        var m :| 0 <= m < |lh| && lh[m] == bs[j].sector;
        assert m != k;
        assert lh[m] in rest by {
          assert m < k ==> rest[m] == lh[m];
          assert m > k ==> rest[m - 1] == lh[m];
        }
      }
      FewDirty(bs, d, rest, D - {i});
    }
  }

  ghost function Dirty(bs: seq<Buf>, d: Disk, g: Geometry, lh: seq<Word>): (D: set<nat>)
    requires g.Wf() && |d| == g.disksize && |lh| < g.size && Coherent(bs, d) && Pinned(bs, d, g, lh)
    ensures |bs| == NBUF && |D| <= |lh| && forall i: nat :: i in D <==> i < |bs| && bs[i].dirty
  {
    var D := set i: nat | i < |bs| && bs[i].dirty;
    FewDirty(bs, d, lh, D);
    D
  }

  lemma CleanSet(bs: seq<Buf>, C: set<nat>)
    requires forall i :: i in C ==> i < |bs| && bs[i].Clean()
    ensures (|C| > 0 ==> !NoneClean(bs)) && (|C| > 1 ==> TwoClean(bs))
  {
    if |C| > 0 {
      var i :| i in C;
      if |C| > 1 {
        assert |C - {i}| == |C| - 1;
        var j :| j in C - {i};
        assert bs[i].Clean() && bs[j].Clean() && i != j;
        assert i < j || j < i;
      }
    }
  }

  lemma Remain(all: set<nat>, D: set<nat>, held: set<nat>)
    requires D <= all
    ensures |all - D - held| >= |all| - |D| - |held|
  {
    assert all == (all - D) + D;
    SubsetSize(all - D, (all - D - held) + held);
  }

  lemma CleanRest(bs: seq<Buf>, D: set<nat>, held: set<nat>)
    requires forall i: nat :: i in D <==> i < |bs| && bs[i].dirty
    requires forall i :: 0 <= i < |bs| && bs[i].busy ==> i in held
    ensures |D| + |held| < |bs| ==> !NoneClean(bs)
    ensures |D| + |held| + 1 < |bs| ==> TwoClean(bs)
  {
    hide TwoClean, NoneClean;
    var all := Between(0, |bs|);
    Remain(all, D, held);
    CleanSet(bs, all - D - held);
  }

  /** Buffers left for bget: all but those that hold a logged sector or are held by a process.  With
  seven sectors logged there is one even for a process that holds two buffers already, and one for a
  slot on top of the one read, so "no buffers" cannot strike a chunk of filewrite. */
  lemma CleanLeft(bs: seq<Buf>, d: Disk, g: Geometry, lh: seq<Word>, held: set<nat>)
    requires g.Wf() && |d| == g.disksize && |lh| < g.size && Coherent(bs, d) && Pinned(bs, d, g, lh)
    requires forall i :: 0 <= i < |bs| && bs[i].busy ==> i in held
    ensures |lh| + |held| < NBUF ==> !NoneClean(bs)
    ensures |lh| + |held| + 1 < NBUF ==> TwoClean(bs)
  {
    hide Coherent, Pinned, TwoClean, NoneClean;
    CleanRest(bs, Dirty(bs, d, g, lh), held);
  }

  lemma BesideClean(bs: seq<Buf>, d: Disk, g: Geometry, lh: seq<Word>, tx: Tx)
    requires g.Wf() && |d| == g.disksize && |lh| < g.size && Coherent(bs, d) && Pinned(bs, d, g, lh) && Beside(bs, tx)
    requires |lh| <= |Sectors(tx)|
    ensures TwoClean(bs) && !NoneClean(bs) && forall s: Word :: s in Sectors(tx) ==> !InUse(bs, s)
  {
    hide Coherent, Pinned, TwoClean, NoneClean, Sectors;
    CleanLeft(bs, d, g, lh, Busy(bs));
  }

  lemma {:induction false} CommittedInstalls(trace: seq<Step>, n: nat)
    ensures var c := Committed(trace); Committed(trace + [WriteHead] + Installs(n)) == (c.0 + [c.1], [])
  {
    var e := trace + [WriteHead] + Installs(n);
    if n == 0 {
      assert e == trace + [WriteHead] && e[..|e| - 1] == trace;
    } else {
      assert e[..|e| - 1] == trace + [WriteHead] + Installs(n - 1);
      CommittedInstalls(trace, n - 1);
    }
  }

  lemma {:induction false} CommitsOne(trace: seq<Step>, n: nat)
    ensures var c := Committed(trace); Committed(trace + [WriteHead] + Installs(n) + [Erase]) == (c.0 + [c.1], [])
  {
    var e := trace + [WriteHead] + Installs(n) + [Erase];
    assert e[..|e| - 1] == trace + [WriteHead] + Installs(n);
    CommittedInstalls(trace, n);
  }

  lemma CommittedStep(trace: seq<Step>, s: Step)
    ensures var c := Committed(trace);
      Committed(trace + [s]) ==
      match s
      case LogWrite(w) => (c.0, c.1 + [w])
      case WriteHead => (c.0 + [c.1], [])
      case Crash => (c.0, [])
      case _ => c
  {
    assert (trace + [s])[..|trace|] == trace;
  }

  /** Between transactions nothing is logged. */
  lemma NothingOpen(g: Geometry, d0: Disk, trace: seq<Step>, d: Disk, lh: seq<Word>)
    requires Reached(g, d0, trace, d, Up(lh, false))
    ensures lh == [] && Committed(trace).1 == []
  {
    RunKeepsInv(g, d0, trace);
  }

  lemma InSectors(tx: Tx, k: nat)
    requires k < |tx|
    ensures tx[k].sector in Sectors(tx)
  {
  }

  method LogsOne(l: Log, tx: Tx, k: nat)
    requires l.Valid() && l.busy && k < |tx| && l.lh == HeaderAfter(tx[..k]) && Beside(l.cache.buf, tx)
    requires Fitting(l.G(), tx)
    modifies l, l.cache
    ensures l.Valid() && l.busy && l.lh == HeaderAfter(tx[..k + 1]) && SameInUse(old(l.cache.buf), l.cache.buf)
    ensures Committed(l.trace) == (Committed(old(l.trace)).0, Committed(old(l.trace)).1 + [tx[k]])
  {
    hide Pinned, Reached, Linked, Full, Fits, Sectors, InUse, TwoClean, Beside, SameInUse;
    ReachedShape(l.G(), l.d0, l.trace, l.cache.disk, l.mem);
    NoOverflow(tx, k, l.size);
    BesideClean(l.cache.buf, l.cache.disk, l.G(), l.lh, tx);
    InSectors(tx, k);
    CommittedStep(l.trace, LogWrite(tx[k]));
    assert tx[..k + 1][..k] == tx[..k] && tx[..k + 1][k] == tx[k];
    var r := l.Update(tx[k].sector, tx[k].data);
  }

  lemma HeaderEmpty(tx: Tx)
    ensures HeaderAfter(tx) == [] <==> tx == []
  {
  }

  /** The updates of a transaction. */
  method Logs(l: Log, tx: Tx)
    requires l.Valid() && l.busy && l.lh == [] && Beside(l.cache.buf, tx) && Fitting(l.G(), tx)
    requires Committed(l.trace).1 == []
    modifies l, l.cache
    ensures l.Valid() && l.busy && l.lh == HeaderAfter(tx) && SameInUse(old(l.cache.buf), l.cache.buf)
    ensures Committed(l.trace) == (Committed(old(l.trace)).0, tx)
  {
    hide Pinned, Coherent, Reached, Linked, Full, Fits, Committed, HeaderAfter, SameInUse, Beside;
    assert HeaderAfter(tx[..0]) == [] by {
      HeaderEmpty(tx[..0]);
    }
    SameInUseItself(l.cache.buf);
    var k := 0;
    while k < |tx|
      invariant 0 <= k <= |tx| && l.Valid() && l.busy && l.lh == HeaderAfter(tx[..k])
      invariant SameInUse(old(l.cache.buf), l.cache.buf) && Beside(l.cache.buf, tx)
      invariant Committed(l.trace) == (Committed(old(l.trace)).0, tx[..k])
    {
      ghost var was := l.cache.buf;
      LogsOne(l, tx, k);
      BesideSame(was, l.cache.buf, tx);
      SameInUseStep(old(l.cache.buf), was, l.cache.buf);
      assert tx[..k + 1] == tx[..k] + [tx[k]];
      k := k + 1;
    }
    assert tx[..k] == tx;
  }

  lemma HeaderSectors(tx: Tx)
    ensures forall k :: 0 <= k < |HeaderAfter(tx)| ==> HeaderAfter(tx)[k] in Sectors(tx)
  {
    HeaderDistinct(tx);
    assert forall k: nat :: k < |HeaderAfter(tx)| ==> HeaderAfter(tx)[k] as int in Elements(HeaderAfter(tx));
  }

  method CommitsAll(l: Log, tx: Tx)
    requires l.Valid() && l.busy && l.lh == HeaderAfter(tx) && Beside(l.cache.buf, tx) && |Sectors(tx)| <= 7
    requires Committed(l.trace).1 == tx && LOGSIZE <= l.size
    modifies l, l.cache
    ensures l.Valid() && !l.busy && SameInUse(old(l.cache.buf), l.cache.buf)
    ensures Committed(l.trace) == (Committed(old(l.trace)).0 + (if tx == [] then [] else [tx]), [])
  {
    hide Pinned, Reached, Linked, Full, Fits, Sectors, InUse, TwoClean, Beside, SameInUse;
    ReachedShape(l.G(), l.d0, l.trace, l.cache.disk, l.mem);
    NoOverflow(tx, |tx|, l.size);
    assert tx[..|tx|] == tx;
    BesideClean(l.cache.buf, l.cache.disk, l.G(), l.lh, tx);
    HeaderSectors(tx);
    HeaderEmpty(tx);
    assert Committed(l.trace).0 + [] == Committed(l.trace).0;
    CommitsOne(l.trace, |l.lh|);
    CommittedStep(l.trace, CommitEmpty);
    var r := l.CommitTrans();
  }

  /** begin_trans, the updates of tx, commit_trans, while other processes may hold buffers of other
  sectors: nothing sleeps or panics, and tx as a whole is committed. */
  method Transact(l: Log, tx: Tx)
    requires l.Valid() && !l.busy && Beside(l.cache.buf, tx) && Fitting(l.G(), tx)
    modifies l, l.cache
    ensures l.Valid() && !l.busy && SameInUse(old(l.cache.buf), l.cache.buf)
    ensures Committed(l.trace) == (Committed(old(l.trace)).0 + NonEmpty([tx]), [])
  {
    hide Coherent, Pinned, Reached, Linked, Full, Fits, SameInUse, Beside, Committed;
    ghost var was := l.cache.buf;
    NothingOpen(l.G(), l.d0, l.trace, l.cache.disk, l.lh);
    CommittedStep(l.trace, Begin);
    var ok := l.BeginTrans();
    Logs(l, tx);
    ghost var mid := l.cache.buf;
    BesideSame(was, mid, tx);
    CommitsAll(l, tx);
    SameInUseStep(was, mid, l.cache.buf);
    assert NonEmpty([tx]) == if tx == [] then [] else [tx];
  }
}
