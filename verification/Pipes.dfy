/** A pipe: a 512-byte ring with 32-bit wrapping counters, and the processes asleep on it. */
module Pipes {
  import opened Blocks
  import opened Common

  const PIPESIZE := 512

  lemma ModPlus(r: nat, m: nat)
    ensures (PIPESIZE * m + r) % PIPESIZE == r % PIPESIZE
  {
  }

  /** The slot of byte k is found from the wrapped counter, because PIPESIZE divides 2^32. */
  lemma SlotOfCounter(k: nat)
    ensures k % TWO32 % PIPESIZE == k % PIPESIZE
  {
    var q, r := k / TWO32, k % TWO32;
    assert k == PIPESIZE * (0x80_0000 * q) + r;
    ModPlus(r, 0x80_0000 * q);
  }

  // ----- The ring -----

  /** A pipe's ring and counters, with all bytes stored in it so far and all delivered from it. */
  datatype Ring = Ring(data: seq<byte>, nread: Word, nwrite: Word, stored: seq<byte>, delivered: seq<byte>) {
    /** The delivered bytes are a prefix of the stored ones, the bytes in between are in their slots,
    and there are at most PIPESIZE of them. */
    ghost predicate Ok() {
      && |data| == PIPESIZE && |delivered| <= |stored| <= |delivered| + PIPESIZE && stored[..|delivered|] == delivered
      && nread == |delivered| % TWO32 && nwrite == |stored| % TWO32
      && forall k :: |delivered| <= k < |stored| ==> InSlot(k)
    }

    predicate InSlot(k: int)
      requires |data| == PIPESIZE && 0 <= k < |stored|
    {
      data[k % PIPESIZE] == stored[k]
    }

    predicate Full() {
      nwrite == (nread + PIPESIZE) % TWO32
    }

    predicate Empty() {
      nread == nwrite
    }

    /** One byte stored in the next slot to write. */
    function Put(b: byte): Ring
      requires |data| == PIPESIZE
    {
      Ring(data[nwrite % PIPESIZE := b], nread, (nwrite + 1) % TWO32, stored + [b], delivered)
    }

    /** One byte taken from the next slot to read. */
    function Take(): Ring
      requires |data| == PIPESIZE
    {
      Ring(data, (nread + 1) % TWO32, nwrite, stored, delivered + [data[nread % PIPESIZE]])
    }
  }

  /** The wrapped difference of the counters is the number of bytes in the pipe, at most PIPESIZE. */
  lemma BytesInside(r: Ring)
    requires r.Ok()
    ensures (r.nwrite - r.nread) % TWO32 == |r.stored| - |r.delivered| <= 512
  {
  }

  lemma NextCounter(n: nat)
    ensures (n % TWO32 + 1) % TWO32 == (n + 1) % TWO32
  {
  }

  /** The wrapped counters differ by less than a full turn, so equal counters mean an empty pipe. */
  lemma EmptyIs(r: Ring)
    requires r.Ok()
    ensures r.Empty() <==> |r.stored| == |r.delivered|
  {
    BytesInside(r);
  }

  lemma FullIs(r: Ring)
    requires r.Ok()
    ensures r.Full() <==> |r.stored| == |r.delivered| + 512
  {
    BytesInside(r);
  }

  lemma SlotsDiffer(j: nat, k: nat)
    requires j < k < j + PIPESIZE
    ensures j % PIPESIZE != k % PIPESIZE
  {
  }

  lemma PutOk(r: Ring, b: byte)
    requires r.Ok() && !r.Full()
    ensures r.Put(b).Ok()
  {
    FullIs(r);
    var g := r.Put(b);
    var n := |r.stored|;
    SlotOfCounter(n);
    NextCounter(n);
    assert g.stored[..|g.delivered|] == r.stored[..|r.delivered|];
    forall k | |g.delivered| <= k < |g.stored| ensures g.InSlot(k) {
      if k < n {
        assert r.InSlot(k);
        SlotsDiffer(k, n);
      }
    }
  }

  lemma TakeOk(r: Ring)
    requires r.Ok() && !r.Empty()
    ensures r.Take().Ok() && r.Take().delivered == r.delivered + [r.stored[|r.delivered|]]
  {
    EmptyIs(r);
    hide r.Empty;
    var g := r.Take();
    var n := |r.delivered|;
    SlotOfCounter(n);
    NextCounter(n);
    assert r.InSlot(n);
    assert r.stored[..n + 1] == r.stored[..n] + [r.stored[n]];
    forall k | |g.delivered| <= k < |g.stored| ensures g.InSlot(k) {
      assert r.InSlot(k);
    }
  }

  // ----- Operations -----

  /** How a stretch of pipewrite or piperead under the lock ends: with the call's result, an error, or
  the process going to sleep. */
  datatype Outcome = Done | Failed | Slept

  /** A reader asleep means an empty pipe with the write end open; a writer asleep means a full pipe
  with the read end open. */
  ghost predicate Sleepers(r: Ring, readopen: bool, writeopen: bool, readers: set<nat>, writers: set<nat>) {
    && (readers != {} ==> r.Empty() && writeopen)
    && (writers != {} ==> r.Full() && readopen)
  }

  lemma NotBothAsleep(r: Ring, readopen: bool, writeopen: bool, readers: set<nat>, writers: set<nat>)
    requires r.Ok() && Sleepers(r, readopen, writeopen, readers, writers)
    ensures readers == {} || writers == {}
  {
    FullIs(r);
    EmptyIs(r);
  }

  /** g is h with the bytes stored after all others. */
  ghost predicate Filled(h: Ring, g: Ring, bytes: seq<byte>) {
    h.Ok() && g.Ok() && g.stored == h.stored + bytes && g.delivered == h.delivered && (bytes == [] ==> g == h)
  }

  /** g is h with the bytes delivered: they are the oldest ones still in the pipe. */
  ghost predicate Drained(h: Ring, g: Ring, bytes: seq<byte>) {
    h.Ok() && g.Ok() && g.stored == h.stored && g.delivered == h.delivered + bytes && (bytes == [] ==> g == h)
  }

  /** First in, first out: what is delivered are the bytes stored longest ago. */
  lemma DrainedInOrder(h: Ring, g: Ring, bytes: seq<byte>)
    requires Drained(h, g, bytes)
    ensures |g.delivered| <= |h.stored| && bytes == h.stored[|h.delivered|..|g.delivered|]
  {
    var n := |h.delivered|;
    assert bytes == g.delivered[n..] == g.stored[..|g.delivered|][n..];
  }

  lemma FilledMore(h: Ring, g: Ring, addr: seq<byte>, i: nat, j: nat)
    requires i <= j < |addr| && Filled(h, g, addr[i..j]) && !g.Full()
    ensures Filled(h, g.Put(addr[j]), addr[i..j + 1])
  {
    PutOk(g, addr[j]);
    assert addr[i..j + 1] == addr[i..j] + [addr[j]];
  }

  /** The bytes that still fit. */
  function Room(r: Ring): int {
    PIPESIZE - (|r.stored| - |r.delivered|)
  }

  /** Storing needs room, and afterwards the pipe is not empty. */
  lemma FilledSleepers(h: Ring, g: Ring, bytes: seq<byte>)
    requires Filled(h, g, bytes)
    ensures bytes != [] ==> !h.Full() && !g.Empty()
    ensures g.Full() <==> |bytes| == Room(h)
    ensures |bytes| <= Room(h)
  {
    FullIs(h);
    FullIs(g);
    EmptyIs(g);
  }

  /** A call of pipewrite for n bytes will return early after storing some, without waking the readers:
  there is room for some bytes but not for all, and the writer is killed or has no reader to wait for. */
  ghost predicate Strands(r: Ring, readopen: bool, readers: set<nat>, n: int, killed: bool) {
    (!readopen || killed) && readers != {} && 0 < Room(r) < n
  }

  class KernelPipe {
    var data: seq<byte>
    var nread: Word
    var nwrite: Word
    var readopen: bool
    var writeopen: bool
    ghost var stored: seq<byte>
    ghost var delivered: seq<byte>
    /** The processes asleep on &nread and on &nwrite. */
    ghost var readers: set<nat>
    ghost var writers: set<nat>

    ghost function R(): Ring
      reads this
    {
      Ring(data, nread, nwrite, stored, delivered)
    }

    ghost predicate Valid()
      reads this
    {
      R().Ok()
    }

    ghost predicate Awake()
      reads this
    {
      Sleepers(R(), readopen, writeopen, readers, writers)
    }

    /** pipealloc. */
    constructor (memory: seq<byte>)
      requires |memory| == PIPESIZE
      ensures Valid() && Awake() && readopen && writeopen && stored == [] && delivered == [] && readers == {}
      ensures writers == {}
    {
      data, nread, nwrite, readopen, writeopen := memory, 0, 0, true, true;
      stored, delivered, readers, writers := [], [], {}, {};
    }

    /** One byte goes into the ring. */
    method Store(b: byte)
      requires Valid() && !R().Full()
      modifies `data, `nwrite, `stored
      ensures R() == old(R()).Put(b)
    {
      data := data[nwrite % PIPESIZE := b];
      nwrite := (nwrite + 1) % TWO32;
      stored := stored + [b];
    }

    /** The copying loop of pipewrite: it stops at the end of addr or when the pipe is full. */
    method Fill(addr: seq<byte>, i: nat) returns (j: nat)
      requires Valid() && i <= |addr|
      modifies `data, `nwrite, `stored
      ensures i <= j <= |addr| && Filled(old(R()), R(), addr[i..j]) && (j < |addr| ==> R().Full())
    {
      ghost var h := R();
      j := i;
      assert addr[i..i] == [] && h.stored + [] == h.stored;
      while j < |addr| && nwrite != (nread + PIPESIZE) % TWO32
        invariant i <= j <= |addr| && Filled(h, R(), addr[i..j])
      {
        FilledMore(h, R(), addr, i, j);
        Store(addr[j]);
        j := j + 1;
      }
    }

    /** pipewrite by process me, from taking the lock until letting it go: addr[i..] is what is left to
    write, and killed is me's flag when it is tested.  Sleepers stay where they should be exactly
    unless the call is one that strands a reader. */
    method Write(me: nat, addr: seq<byte>, i: nat, killed: bool) returns (out: Outcome, j: nat)
      requires Valid() && i <= |addr|
      modifies this
      ensures i <= j <= |addr| && Filled(old(R()), R(), addr[i..j])
      ensures readopen == old(readopen) && writeopen == old(writeopen)
      ensures out.Done? <==> j == |addr|
      ensures out.Failed? ==> R().Full() && (!readopen || killed) && readers == old(readers) && writers == old(writers)
      ensures out.Slept? ==> R().Full() && readopen && !killed && readers == {} && writers == old(writers) + {me}
      ensures out.Done? ==> readers == {} && writers == old(writers)
      ensures old(Awake()) ==> (Awake() <==> !Strands(old(R()), old(readopen), old(readers), |addr| - i, killed))
    {
      j := Fill(addr, i);
      FilledSleepers(old(R()), R(), addr[i..j]);
      if j < |addr| {
        if !readopen || killed {
          out := Failed;
        } else {
          readers := {};
          writers := writers + {me};
          out := Slept;
        }
      } else {
        readers := {};
        out := Done;
      }
    }

    /** The copying loop of piperead. */
    method Drain(n: int) returns (bytes: seq<byte>)
      requires Valid()
      modifies `nread, `delivered
      ensures Drained(old(R()), R(), bytes) && |bytes| <= (if n < 0 then 0 else n)
      ensures |bytes| < n ==> R().Empty()
    {
      ghost var h := R();
      bytes := [];
      while |bytes| < n && nread != nwrite
        invariant Drained(h, R(), bytes) && |bytes| <= (if n < 0 then 0 else n)
        decreases n - |bytes|
      {
        ghost var g := R();
        TakeOk(g);
        var b := data[nread % PIPESIZE];
        nread := (nread + 1) % TWO32;
        delivered := delivered + [b];
        bytes := bytes + [b];
        assert R() == g.Take();
      }
    }

    /** piperead by process me, from taking the lock until letting it go. */
    method Read(me: nat, n: int, killed: bool) returns (out: Outcome, bytes: seq<byte>)
      requires Valid()
      modifies this
      ensures Drained(old(R()), R(), bytes) && |bytes| <= (if n < 0 then 0 else n)
      ensures readopen == old(readopen) && writeopen == old(writeopen)
      ensures old(R()).Empty() && writeopen <==> !out.Done?
      ensures out.Failed? ==> killed && bytes == [] && readers == old(readers) && writers == old(writers)
      ensures out.Slept? ==> !killed && bytes == [] && readers == old(readers) + {me} && writers == old(writers)
      ensures out.Done? ==> (|bytes| < n ==> R().Empty()) && readers == old(readers) && writers == {}
      ensures old(Awake()) ==> Awake()
    {
      bytes := [];
      if nread == nwrite && writeopen {
        if killed {
          out := Failed;
        } else {
          readers := readers + {me};
          out := Slept;
        }
      } else {
        bytes := Drain(n);
        writers := {};
        out := Done;
      }
    }

    /** kill takes a process out of its sleep. */
    ghost method Rouse(p: nat)
      requires Valid()
      modifies `readers, `writers
      ensures R() == old(R()) && (old(Awake()) ==> Awake())
      ensures readers == old(readers) - {p} && writers == old(writers) - {p}
    {
      readers, writers := readers - {p}, writers - {p};
    }

    /** pipeclose. */
    method Close(writable: bool)
      requires Valid()
      modifies `readopen, `writeopen, `readers, `writers
      ensures R() == old(R()) && (old(Awake()) ==> Awake())
      ensures if writable then !writeopen && readopen == old(readopen) && readers == {} && writers == old(writers)
              else !readopen && writeopen == old(writeopen) && writers == {} && readers == old(readers)
    {
      if writable {
        writeopen := false;
        readers := {};
      } else {
        readopen := false;
        writers := {};
      }
    }
  }

  /** A reader sleeps on an empty pipe; a writer that has been killed stores one byte more than fits.
  The reader stays asleep, although the pipe is full. */
  method KilledWriterStrandsReader(memory: seq<byte>) returns (p: KernelPipe, out: Outcome)
    requires |memory| == PIPESIZE
    ensures p.Valid() && out.Failed? && p.readers == {1} && p.R().Full() && !p.Awake()
  {
    p := new KernelPipe(memory);
    EmptyIs(p.R());
    var slept, none := p.Read(1, 1, false);
    var j;
    out, j := p.Write(2, seq(PIPESIZE + 1, i => 0), 0, true);
  }
}
