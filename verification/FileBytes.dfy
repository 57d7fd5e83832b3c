/** File contents as bytes: the blocks of a file laid end to end. */
module FileBytes {
  import opened Blocks

  function Flatten(ds: seq<Block>): (s: seq<byte>)
    ensures |s| == BSIZE * |ds|
  {
    if ds == [] then [] else Flatten(ds[..|ds| - 1]) + ds[|ds| - 1]
  }

  lemma {:induction false} FlattenAt(ds: seq<Block>, k: nat)
    requires k < BSIZE * |ds|
    ensures Flatten(ds)[k] == ds[k / BSIZE][k % BSIZE]
  {
    if k < BSIZE * (|ds| - 1) {
      FlattenAt(ds[..|ds| - 1], k);
    }
  }

  lemma FlattenSlice(ds: seq<Block>, pos: nat, bn: nat, at: nat, m: nat, end: nat)
    requires bn < |ds| && end == pos + m && at + m <= BSIZE && pos == BSIZE * bn + at
    ensures end <= |Flatten(ds)| && Flatten(ds)[pos..end] == ds[bn][at..at + m]
  {
    var got, want := Flatten(ds)[pos..end], ds[bn][at..at + m];
    forall k | 0 <= k < m ensures got[k] == want[k] {
      FlattenAt(ds, pos + k);
    }
  }

  /** n blocks are just enough for `size` bytes: n is size / BSIZE rounded up. */
  predicate Covers(n: nat, size: nat) {
    size <= BSIZE * n < size + BSIZE
  }

  /** How many blocks hold size bytes. */
  function BlocksFor(size: nat): nat {
    (size + BSIZE - 1) / BSIZE
  }

  /** The size mkfs gives the root directory at the end. */
  function RootSize(off: nat): nat {
    (off / BSIZE + 1) * BSIZE
  }

  /** The root directory's blocks cover the size mkfs rounds up to iff its real size is not a multiple
  of the block size; otherwise its last block is a hole. */
  lemma RootHasNoHole(off: nat)
    ensures Covers(BlocksFor(off), RootSize(off)) <==> off % BSIZE != 0
  {
    var q, r := off / BSIZE, off % BSIZE;
    assert off == BSIZE * q + r;
    assert BlocksFor(off) == if r == 0 then q else q + 1;
  }

  /** A root directory of 32 entries of 16 bytes fills its one block, and gets the size of two. */
  lemma FullRootHasHole()
    ensures BlocksFor(32 * 16) == 1 && RootSize(32 * 16) == 2 * BSIZE && !Covers(BlocksFor(32 * 16), RootSize(32 * 16))
  {
  }

  /** Bytes [at, at + |c|) of the block replaced. */
  function Patch(b: Block, at: nat, c: seq<byte>): Block
    requires at + |c| <= BSIZE
  {
    b[..at] + c + b[at + |c|..]
  }

  /** `b` is `a` with `data` stored at `off`; if that makes it longer, the gap is zero bytes. */
  ghost predicate Overlaid(a: seq<byte>, b: seq<byte>, off: nat, data: seq<byte>) {
    && |a| <= |b| && off + |data| <= |b|
    && forall k {:trigger b[k]} :: 0 <= k < |b| ==>
         b[k] == if off <= k < off + |data| then data[k - off] else if k < |a| then a[k] else 0
  }

  lemma OverlaidTrans(a: seq<byte>, b: seq<byte>, c: seq<byte>, off: nat, d1: seq<byte>, pos: nat, d2: seq<byte>)
    requires Overlaid(a, b, off, d1) && pos == off + |d1| && Overlaid(b, c, pos, d2)
    ensures Overlaid(a, c, off, d1 + d2)
  {
  }

  /** `ds` with a zero block appended if bn is one past its end. */
  function Padded(ds: seq<Block>, bn: nat): seq<Block>
  {
    if bn < |ds| then ds else ds + [ZeroBytes(BSIZE)]
  }

  /** Patching block bn from `at` on stores the bytes at BSIZE * bn + at in the file. */
  lemma PatchOverlays(ds: seq<Block>, pos: nat, bn: nat, at: nat, c: seq<byte>)
    requires bn <= |ds| && at + |c| <= BSIZE && pos == BSIZE * bn + at
    ensures
      var e := Padded(ds, bn);
      Overlaid(Flatten(ds), Flatten(e[bn := Patch(e[bn], at, c)]), pos, c)
  {
    var e := Padded(ds, bn);
    var g := e[bn := Patch(e[bn], at, c)];
    forall k | 0 <= k < |Flatten(g)|
      ensures Flatten(g)[k] == if pos <= k < pos + |c| then c[k - pos] else if k < |Flatten(ds)| then Flatten(ds)[k] else 0
    {
      FlattenAt(g, k);
      if k < |Flatten(ds)| {
        FlattenAt(ds, k);
      }
    }
  }

  /** What writing `data` at `off` makes of file contents s. */
  function Splice(s: seq<byte>, off: nat, data: seq<byte>): seq<byte>
    requires off <= |s|
  {
    s[..off] + data + (if off + |data| < |s| then s[off + |data|..] else [])
  }

  /** Byte by byte: the data where it was written, the old contents elsewhere. */
  lemma SpliceAt(s: seq<byte>, off: nat, data: seq<byte>, k: nat)
    requires off <= |s|
    ensures |Splice(s, off, data)| == if |s| < off + |data| then off + |data| else |s|
    ensures k < |Splice(s, off, data)| ==> Splice(s, off, data)[k] == if off <= k < off + |data| then data[k - off] else s[k]
  {
  }

  /** Cut to the larger of the old size and the end of the write, the overlay is the splice. */
  lemma OverlaidIsSplice(a: seq<byte>, b: seq<byte>, off: nat, data: seq<byte>, size: nat)
    requires Overlaid(a, b, off, data) && off <= size <= |a|
    ensures
      var size' := if off + |data| > size then off + |data| else size;
      size' <= |b| && b[..size'] == Splice(a[..size], off, data)
  {
  }

  /** Consecutive writes add up to one. */
  lemma SpliceTwice(s: seq<byte>, off: nat, d1: seq<byte>, pos: nat, d2: seq<byte>)
    requires off <= |s| && pos == off + |d1|
    ensures pos <= |Splice(s, off, d1)|
    ensures Splice(Splice(s, off, d1), pos, d2) == Splice(s, off, d1 + d2)
  {
    var a, b := Splice(Splice(s, off, d1), pos, d2), Splice(s, off, d1 + d2);
    assert |a| == |b|;
    forall k | 0 <= k < |b| ensures a[k] == b[k] {}
  }
}
