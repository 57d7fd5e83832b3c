/** The block allocator, block map and file contents of fs.c, over the logical view of the disk that
the buffer cache gives (see RedoLog.ReadersSeeOpen).  Every modified block goes to the log; `tx`
is the open transaction. */
module FileSystem {
  import opened Blocks
  import opened Common
  import opened FileBytes
  import opened FsFormat
  import opened FsImage
  import opened LogProtocol

  // ----- Decoding -----

  function BitsOf(sb: Superblock, v: seq<Block>): (bits: seq<bool>)
    requires sb.Wf() && sb.size <= |v|
    ensures |bits| == sb.size && forall b :: 0 <= b < sb.size ==> bits[b] == BitAt(v[sb.BBlock(b)], b % BPB)
  {
    seq(sb.size, b requires 0 <= b < sb.size => BitAt(v[sb.BBlock(b)], b % BPB))
  }

  function DinosOf(sb: Superblock, v: seq<Block>): (ds: seq<Inode>)
    requires sb.Wf() && sb.size <= |v|
    ensures |ds| == sb.ninodes && forall i :: 0 <= i < sb.ninodes ==> ds[i] == GetInode(v[sb.IBlock(i)], i % IPB)
  {
    seq(sb.ninodes, i requires 0 <= i < sb.ninodes => GetInode(v[sb.IBlock(i)], i % IPB))
  }

  /** Inode blocks come before bitmap blocks, and those before data blocks. */
  lemma Layout(sb: Superblock)
    requires sb.Wf()
    ensures forall i: nat :: i < sb.ninodes ==> 2 <= sb.IBlock(i) < sb.ninodes / IPB + 3
    ensures forall b: nat :: b < sb.size ==> sb.ninodes / IPB + 3 <= sb.BBlock(b) < sb.DataStart()
  {
  }

  /** Only writes to bitmap blocks change the decoded bitmap. */
  lemma BitsFrame(sb: Superblock, v: seq<Block>, s: nat, x: Block)
    requires sb.Wf() && sb.size <= |v| && s < |v| && (s < sb.ninodes / IPB + 3 || sb.DataStart() <= s)
    ensures BitsOf(sb, v[s := x]) == BitsOf(sb, v)
  {
    Layout(sb);
    forall b: nat | b < sb.size ensures BitsOf(sb, v[s := x])[b] == BitsOf(sb, v)[b] {
      assert sb.BBlock(b) != s;
    }
  }

  /** Only writes to inode blocks change the decoded inodes. */
  lemma DinosFrame(sb: Superblock, v: seq<Block>, s: nat, x: Block)
    requires sb.Wf() && sb.size <= |v| && sb.ninodes / IPB + 3 <= s < |v|
    ensures DinosOf(sb, v[s := x]) == DinosOf(sb, v)
  {
    Layout(sb);
    forall i: nat | i < sb.ninodes ensures DinosOf(sb, v[s := x])[i] == DinosOf(sb, v)[i] {
      assert sb.IBlock(i) != s;
    }
  }

  lemma BitmapWrite(sb: Superblock, v: seq<Block>, b: nat, used: bool)
    requires sb.Wf() && sb.size <= |v| && b < sb.size
    ensures var v' := v[sb.BBlock(b) := SetBitAt(v[sb.BBlock(b)], b % BPB, used)];
      && BitsOf(sb, v') == BitsOf(sb, v)[b := used] && DinosOf(sb, v') == DinosOf(sb, v) && SameData(sb, v, v')
  {
    Layout(sb);
    var s := sb.BBlock(b);
    var v' := v[s := SetBitAt(v[s], b % BPB, used)];
    forall c: nat | c < sb.size ensures BitsOf(sb, v')[c] == BitsOf(sb, v)[b := used][c] {
      if sb.BBlock(c) == s {
        BitRoundTrip(v[s], b % BPB, used, c % BPB);
      }
    }
    DinosFrame(sb, v, s, v'[s]);
  }

  lemma InodeWrite(sb: Superblock, v: seq<Block>, i: nat, ino: Inode)
    requires sb.Wf() && sb.size <= |v| && i < sb.ninodes
    ensures var v' := v[sb.IBlock(i) := PutInode(v[sb.IBlock(i)], i % IPB, ino)];
      && BitsOf(sb, v') == BitsOf(sb, v) && DinosOf(sb, v') == DinosOf(sb, v)[i := ino] && SameData(sb, v, v')
  {
    Layout(sb);
    var s := sb.IBlock(i);
    var v' := v[s := PutInode(v[s], i % IPB, ino)];
    forall j: nat | j < sb.ninodes ensures DinosOf(sb, v')[j] == DinosOf(sb, v)[i := ino][j] {
      if sb.IBlock(j) == s {
        InodeRoundTrip(v[s], i % IPB, ino, j % IPB);
      }
    }
    BitsFrame(sb, v, s, v'[s]);
  }

  lemma DataBlockWrite(sb: Superblock, v: seq<Block>, b: nat, x: Block)
    requires sb.Wf() && sb.size <= |v| && sb.DataStart() <= b < sb.size
    ensures BitsOf(sb, v[b := x]) == BitsOf(sb, v) && DinosOf(sb, v[b := x]) == DinosOf(sb, v)
  {
    BitsFrame(sb, v, b, x);
    DinosFrame(sb, v, b, x);
  }

  lemma SameDataTrans(sb: Superblock, a: seq<Block>, b: seq<Block>, c: seq<Block>)
    requires SameData(sb, a, b) && SameData(sb, b, c)
    ensures SameData(sb, a, c)
  {
  }

  lemma BitPosition(b: nat, bi: nat)
    requires b % BPB == 0 && bi < BPB
    ensures (b + bi) / BPB == b / BPB && (b + bi) % BPB == bi
  {
  }

  /** The view after balloc has taken block b: its bit set, then the block zeroed. */
  function Taken(sb: Superblock, v: seq<Block>, b: nat): seq<Block>
    requires sb.Wf() && b < sb.size <= |v|
  {
    v[sb.BBlock(b) := SetBitAt(v[sb.BBlock(b)], b % BPB, true)][b := ZERO_BLOCK]
  }

  lemma TakenDecodes(sb: Superblock, v: seq<Block>, b: nat)
    requires sb.Wf() && sb.DataStart() <= b < sb.size <= |v|
    ensures var v' := Taken(sb, v, b);
      && BitsOf(sb, v') == BitsOf(sb, v)[b := true] && DinosOf(sb, v') == DinosOf(sb, v)
      && SameData(sb, v[b := ZERO_BLOCK], v')
  {
    BitmapWrite(sb, v, b, true);
    DataBlockWrite(sb, v[sb.BBlock(b) := SetBitAt(v[sb.BBlock(b)], b % BPB, true)], b, ZERO_BLOCK);
  }

  /** Block b is the one balloc finds. */
  predicate LowestFree(bits: seq<bool>, b: nat) {
    b < |bits| && !bits[b] && forall k :: 0 <= k < b ==> bits[k]
  }

  predicate SetBelow(bits: seq<bool>, n: nat) {
    forall k :: 0 <= k < n && k < |bits| ==> bits[k]
  }

  /** Blocks were only taken, each with no free block left below it. */
  predicate LowFirst(was: seq<bool>, now: seq<bool>) {
    && |was| == |now| && (forall b :: 0 <= b < |was| && was[b] ==> now[b])
    && forall b, k :: 0 <= k < b < |was| && now[b] && !was[b] ==> now[k]
  }

  lemma LowFirstTrans(a: seq<bool>, b: seq<bool>, c: seq<bool>)
    requires LowFirst(a, b) && LowFirst(b, c)
    ensures LowFirst(a, c)
  {
    forall x, k | 0 <= k < x < |a| && c[x] && !a[x] ensures c[k] {
      assert b[x] ==> b[k];
    }
  }

  /** Every sector of S is marked in use. */
  ghost predicate InBitmap(bits: seq<bool>, S: set<int>) {
    forall x :: x in S ==> 0 <= x < |bits| && bits[x]
  }

  lemma MappedInBitmap(f: Image, i: nat, s: nat, b: Word)
    requires f.Ok() && i < |f.cur| && s < SLOTS && f.P(i, s) == b != 0
    ensures InBitmap(f.bit, {b as int})
  {
    assert b in f.own;
  }

  lemma InBitmapLater(was: seq<bool>, now: seq<bool>, S: set<int>)
    requires InBitmap(was, S) && LowFirst(was, now)
    ensures InBitmap(now, S)
  {
  }

  /** The indirect block of an inode, if it has one. */
  function RootSet(ino: Inode): set<int> {
    if ino.addrs[NDIRECT] == 0 then {} else {ino.addrs[NDIRECT] as int}
  }

  /** What bmap may do to the image: inode i may have gained one block, zeroed; its other fields,
  every other inode, every inode on disk and every other file's data are unchanged. */
  ghost predicate Grown(f: Image, g: Image, i: nat)
    requires f.Ok() && i < |f.cur|
  {
    && g.Ok() && g.sb == f.sb && |g.v| == |f.v| && |g.cur| == |f.cur|
    && f.nblk[i] <= g.nblk[i] <= f.nblk[i] + 1 && g.nblk == f.nblk[i := g.nblk[i]]
    && g.cur == f.cur[i := f.cur[i].(addrs := g.cur[i].addrs)] && g.dino == f.dino
    && RootSet(f.cur[i]) <= RootSet(g.cur[i]) && LowFirst(f.bit, g.bit)
    && forall j: nat :: j < |f.cur| ==>
      g.Data(j) == if j == i && g.nblk[i] > f.nblk[i] then f.Data(i) + [ZERO_BLOCK] else f.Data(j)
  }

  /** The indirect block exists exactly when it is needed. */
  predicate RootFits(f: Image, i: nat)
    requires i < |f.cur| && i < |f.nblk|
  {
    f.P(i, NDIRECT) != 0 <==> f.nblk[i] > NDIRECT
  }

  ghost predicate Decoded(f: Image) {
    f.Shape() && f == Image(f.sb, BitsOf(f.sb, f.v), DinosOf(f.sb, f.v), f.v, f.cur, f.own, f.nblk)
  }

  lemma GrowEntryFields(f: Image, i: nat, b: Word, v: seq<Block>)
    requires f.Shape() && i < |f.cur| && b < f.sb.size
    ensures var g := GrowEntry(f, i, b, v);
      g.sb == f.sb && g.v == v && g.cur == f.cur && g.nblk == f.nblk[i := f.nblk[i] + 1]
  {
  }

  lemma GrowAddrFields(f: Image, i: nat, s: nat, b: Word, v: seq<Block>)
    requires f.Shape() && i < |f.cur| && s <= NDIRECT && b < f.sb.size
    ensures var g := GrowAddr(f, i, s, b, v);
      && g.sb == f.sb && g.v == v && g.cur == f.cur[i := f.cur[i].(addrs := f.cur[i].addrs[s := b])]
      && g.nblk == if s == NDIRECT then f.nblk else f.nblk[i := f.nblk[i] + 1]
  {
  }

  lemma ImageDecoded(sb: Superblock, v: seq<Block>, cur: seq<Inode>, own: map<int, Ptr>, nblk: seq<nat>)
    requires sb.Wf() && sb.size <= |v|
    requires Image(sb, BitsOf(sb, v), DinosOf(sb, v), v, cur, own, nblk).Ok()
    ensures Decoded(Image(sb, BitsOf(sb, v), DinosOf(sb, v), v, cur, own, nblk))
    ensures forall k :: 0 <= k < sb.DataStart() ==> BitsOf(sb, v)[k]
  {
  }

  ghost function Bitmaps(sb: Superblock): set<int> {
    set b: nat | b < sb.size :: sb.BBlock(b)
  }

  /** Sectors a write to the file may log besides its data blocks: bitmap and indirect block. */
  ghost function Overhead(sb: Superblock, ino: Inode): set<int> {
    Bitmaps(sb) + RootSet(ino)
  }

  /** The sectors that mapping and writing one block of a file may log. */
  ghost function MapSectors(sb: Superblock, ino: Inode, b: Word): set<int> {
    Overhead(sb, ino) + {b as int}
  }

  lemma EntrySectors(sb: Superblock, ino: Inode, b: Word, root: Word)
    requires ino.addrs[NDIRECT] == root != 0
    ensures Bitmaps(sb) + {b as int} + {root as int} <= MapSectors(sb, ino, b)
  {
  }

  lemma DecodedIs(g: Image, sb: Superblock, v: seq<Block>, cur: seq<Inode>, own: map<int, Ptr>, nblk: seq<nat>)
    requires Decoded(g) && g.sb == sb && g.v == v && g.cur == cur && g.own == own && g.nblk == nblk
    ensures g == Image(sb, BitsOf(sb, v), DinosOf(sb, v), v, cur, own, nblk)
  {
  }

  lemma TookLowest(bits: seq<bool>, b: nat)
    requires LowestFree(bits, b)
    ensures LowFirst(bits, bits[b := true])
  {
  }

  /** Storing the freshly taken block b in address s of inode i. */
  lemma WithAddrOk(f: Image, i: nat, s: nat, b: Word, v: seq<Block>)
    requires f.Ok() && Decoded(f) && i < |f.cur| && f.sb.DataStart() <= b && LowestFree(f.bit, b) && s <= NDIRECT
    requires if s == NDIRECT then f.P(i, NDIRECT) == 0 && f.nblk[i] <= NDIRECT else s == f.nblk[i]
    requires v == Taken(f.sb, f.v, b)
    ensures var g := GrowAddr(f, i, s, b, v);
      g.Ok() && Decoded(g) && Grown(f, g, i)
  {
    hide Image.PtrsOwn, Image.OwnersPoint, Image.BitsMatch, Image.NoHoles, Linked, LowFirst, BitsOf, DinosOf, Taken;
    TakenDecodes(f.sb, f.v, b);
    GrowAddrOk(f, i, s, b, v);
    TookLowest(f.bit, b);
  }

  function EntryStored(sb: Superblock, v: seq<Block>, root: nat, j: nat, b: Word): seq<Block>
    requires sb.Wf() && b < sb.size <= |v| && root < |v| && j < NINDIRECT
  {
    Taken(sb, v, b)[root := SetWord(v[root], j, b)]
  }

  lemma EntryDecodes(sb: Superblock, v: seq<Block>, root: nat, j: nat, b: Word)
    requires sb.Wf() && sb.DataStart() <= b < sb.size <= |v| && sb.DataStart() <= root < sb.size && j < NINDIRECT
    ensures var v' := EntryStored(sb, v, root, j, b);
      && BitsOf(sb, v') == BitsOf(sb, v)[b := true] && DinosOf(sb, v') == DinosOf(sb, v)
      && SameData(sb, v[b := ZERO_BLOCK][root := SetWord(v[root], j, b)], v')
  {
    TakenDecodes(sb, v, b);
    DataBlockWrite(sb, Taken(sb, v, b), root, SetWord(v[root], j, b));
  }

  lemma RootIsData(f: Image, i: nat, root: Word)
    requires f.Ok() && i < |f.cur| && f.P(i, NDIRECT) == root != 0
    ensures f.sb.DataStart() <= root < f.sb.size
  {
    assert root in f.own;
  }

  lemma LinkedAt(f: Image, g: Image, i: nat, s: nat, b: nat)
    requires |f.cur| == |g.cur| && Linked(f, g, i, s, b) && i < |f.cur| && s < SLOTS
    ensures g.P(i, s) == b
  {
  }

  /** Storing it in the next indirect entry. */
  lemma WithEntryOk(f: Image, i: nat, b: Word, root: Word, j: nat, v: seq<Block>)
    requires f.Ok() && Decoded(f) && i < |f.cur| && f.sb.DataStart() <= b && LowestFree(f.bit, b)
    requires f.nblk[i] == NDIRECT + j && j < NINDIRECT && f.P(i, NDIRECT) == root != 0
    requires root < |f.v| && v == EntryStored(f.sb, f.v, root, j, b)
    ensures var g := GrowEntry(f, i, b, v);
      g.Ok() && Decoded(g) && Grown(f, g, i) && g.P(i, SlotOf(NDIRECT + j)) == b
  {
    hide Image.OwnersPoint, Image.BitsMatch, Image.NoHoles, Image.PtrsOwn, Linked, LowFirst, BitsOf, DinosOf, EntryStored,
      PtrAt;
    RootIsData(f, i, root);
    EntryDecodes(f.sb, f.v, root, j, b);
    GrowEntryOk(f, i, b, v);
    LinkedAt(f, GrowEntry(f, i, b, v), i, NDIRECT + j + 1, b);
    TookLowest(f.bit, b);
  }

  lemma RootAddr(f: Image, i: nat)
    requires i < |f.cur|
    ensures f.P(i, NDIRECT) == f.cur[i].addrs[NDIRECT]
  {
  }

  /** Where bmap finds a direct block's address. */
  lemma DirectAddr(f: Image, i: nat, bn: nat)
    requires f.Ok() && i < |f.cur| && bn < NDIRECT
    ensures f.P(i, SlotOf(bn)) == f.cur[i].addrs[bn] && (f.cur[i].addrs[bn] != 0 <==> bn < f.nblk[i])
  {
    assert f.P(i, SlotOf(bn)) != 0 <==> bn < f.nblk[i];
  }

  /** Where it finds one through the indirect block. */
  lemma IndirectAddr(f: Image, i: nat, j: nat)
    requires f.Ok() && i < |f.cur| && j < NINDIRECT
    ensures var root := f.cur[i].addrs[NDIRECT];
      && f.P(i, NDIRECT) == root < |f.v|
      && ((root != 0 && GetWord(f.v[root], j) != 0) <==> NDIRECT + j < f.nblk[i])
      && (NDIRECT + j < f.nblk[i] ==> f.P(i, SlotOf(NDIRECT + j)) == GetWord(f.v[root], j))
  {
    var root := f.cur[i].addrs[NDIRECT];
    assert f.P(i, NDIRECT) == root && (root != 0 ==> root in f.own);
    assert f.P(i, SlotOf(NDIRECT + j)) != 0 <==> NDIRECT + j < f.nblk[i];
  }

  /** File block bn of inode i is now mapped, to disk block b. */
  ghost predicate Mapped(f: Image, g: Image, i: nat, bn: nat, b: Word)
    requires f.Ok() && i < |f.cur| && bn < MAXFILE
  {
    && Grown(f, g, i) && g.nblk[i] == (if bn < f.nblk[i] then f.nblk[i] else bn + 1)
    && bn < g.nblk[i] && RootFits(g, i) && g.P(i, SlotOf(bn)) == b
    && (bn < f.nblk[i] ==> g.cur == f.cur)
  }

  lemma MappedAlready(f: Image, i: nat, bn: nat)
    requires f.Ok() && i < |f.cur| && RootFits(f, i) && bn < f.nblk[i]
    ensures bn < MAXFILE && Mapped(f, f, i, bn, f.P(i, SlotOf(bn)))
  {
    hide Image.PtrsOwn, Image.OwnersPoint, Image.BitsMatch;
    assert LowFirst(f.bit, f.bit);
    assert forall j: nat :: j < |f.cur| ==> f.Data(j) == f.Data(j);
  }

  lemma GrownTrans(f: Image, m: Image, g: Image, i: nat)
    requires f.Ok() && i < |f.cur| && Grown(f, m, i) && Grown(m, g, i) && m.nblk == f.nblk
    ensures Grown(f, g, i)
  {
    LowFirstTrans(f.bit, m.bit, g.bit);
    assert g.cur == f.cur[i := f.cur[i].(addrs := g.cur[i].addrs)];
  }

  /** A file that had m blocks has n after len bytes were stored at off: no more than needed. */
  predicate Reach(m: nat, off: nat, len: nat, n: nat) {
    if len == 0 || off + len <= BSIZE * m then n == m else Covers(n, off + len)
  }

  /** File i may have grown; nothing outside it differs. */
  ghost predicate Extended(f: Image, g: Image, i: nat)
    requires f.Ok() && i < |f.cur|
  {
    && g.Ok() && g.sb == f.sb && |g.cur| == |f.cur| && f.nblk[i] <= g.nblk[i]
    && g.nblk == f.nblk[i := g.nblk[i]]
    && g.cur == f.cur[i := f.cur[i].(addrs := g.cur[i].addrs)] && g.dino == f.dino
    && (g.nblk[i] == f.nblk[i] ==> g.cur == f.cur) && RootSet(f.cur[i]) <= RootSet(g.cur[i]) && LowFirst(f.bit, g.bit)
    && forall j: nat :: j < |f.cur| && j != i ==> g.Data(j) == f.Data(j)
  }

  /** `data` has been stored at `off` in file i, mapping blocks as needed, and nothing else: every
  other file, inode and on-disk inode is as it was.  The size field is not yet updated. */
  ghost predicate Wrote(f: Image, g: Image, i: nat, off: nat, data: seq<byte>)
    requires f.Ok() && i < |f.cur|
  {
    Extended(f, g, i) && Reach(f.nblk[i], off, |data|, g.nblk[i]) && Overlaid(Flatten(f.Data(i)), Flatten(g.Data(i)), off, data)
  }

  lemma ExtendedTrans(f: Image, g: Image, h: Image, i: nat)
    requires f.Ok() && i < |f.cur| && Extended(f, g, i) && Extended(g, h, i)
    ensures Extended(f, h, i)
  {
    LowFirstTrans(f.bit, g.bit, h.bit);
    assert h.cur == f.cur[i := f.cur[i].(addrs := h.cur[i].addrs)];
    assert h.nblk == f.nblk[i := h.nblk[i]];
  }

  lemma WroteNothing(f: Image, i: nat, off: nat)
    requires f.Ok() && i < |f.cur| && off <= BSIZE * f.nblk[i]
    ensures Wrote(f, f, i, off, [])
  {
  }

  lemma WroteTrans(f: Image, g: Image, h: Image, i: nat, off: nat, d1: seq<byte>, pos: nat, d2: seq<byte>)
    requires f.Ok() && i < |f.cur| && Wrote(f, g, i, off, d1) && pos == off + |d1| && Wrote(g, h, i, pos, d2)
    ensures Wrote(f, h, i, off, d1 + d2)
  {
    ExtendedTrans(f, g, h, i);
    OverlaidTrans(Flatten(f.Data(i)), Flatten(g.Data(i)), Flatten(h.Data(i)), off, d1, pos, d2);
    assert |d1 + d2| == |d1| + |d2|;
  }

  /** Block bn of file i has been patched; nothing else differs. */
  ghost predicate Patched(m: Image, h: Image, i: nat, bn: nat, at: nat, c: seq<byte>)
    requires at + |c| <= BSIZE
  {
    && m.Ok() && h.Ok() && i < |m.cur| && bn < m.nblk[i] && h == m.(v := h.v)
    && forall j: nat :: j < |m.cur| ==>
      h.Data(j) == if j == i then m.Data(i)[bn := Patch(m.Data(i)[bn], at, c)] else m.Data(j)
  }

  /** One pass of writei's loop: map the block, patch it. */
  lemma WroteChunk(f: Image, m: Image, h: Image, i: nat, pos: nat, bn: nat, b: Word, at: nat, c: seq<byte>)
    requires pos == BSIZE * bn + at
    requires f.Ok() && i < |f.cur| && 0 < |c| && at + |c| <= BSIZE && bn <= f.nblk[i]
    requires bn < MAXFILE && Mapped(f, m, i, bn, b) && Patched(m, h, i, bn, at, c)
    ensures Wrote(f, h, i, pos, c)
  {
    assert m.Data(i) == Padded(f.Data(i), bn);
    PatchOverlays(f.Data(i), pos, bn, at, c);
  }

  /** The transaction has grown, by writes to sectors of S only. */
  ghost predicate Adds(was: Tx, now: Tx, S: set<int>) {
    |was| <= |now| && now[..|was|] == was && forall k :: |was| <= k < |now| ==> now[k].sector in S
  }

  lemma AddsTaken(sb: Superblock, was: Tx, b: Word, x: Block)
    requires sb.Wf() && b < sb.size && sb.BBlock(b) < TWO32
    ensures Adds(was, was + [Write(sb.BBlock(b), x), Write(b, ZERO_BLOCK)], Bitmaps(sb) + {b})
  {
    assert sb.BBlock(b) in Bitmaps(sb);
  }

  lemma AddsAgain(was: Tx, mid: Tx, S: set<int>, w: Write)
    requires Adds(was, mid, S) && w.sector in S
    ensures Adds(was, mid + [w], S)
  {
  }

  lemma AddsOne(was: Tx, mid: Tx, S: set<int>, w: Write)
    requires Adds(was, mid, S)
    ensures Adds(was, mid + [w], S + {w.sector as int})
  {
  }

  lemma AddsBitmap(sb: Superblock, was: Tx, mid: Tx, b: Word, x: Block)
    requires sb.Wf() && b < sb.size && sb.BBlock(b) < TWO32 && Adds(was, mid, Bitmaps(sb))
    ensures Adds(was, mid + [Write(sb.BBlock(b), x)], Bitmaps(sb))
  {
    assert sb.BBlock(b) in Bitmaps(sb);
  }

  lemma AddsMono(a: Tx, b: Tx, S: set<int>, T: set<int>)
    requires Adds(a, b, S) && S <= T
    ensures Adds(a, b, T)
  {
  }

  lemma AddsTrans(a: Tx, b: Tx, c: Tx, S: set<int>, T: set<int>)
    requires Adds(a, b, S) && Adds(b, c, T)
    ensures Adds(a, c, S + T)
  {
  }

  /** The transaction has grown by writes to sectors of `base` and of S. */
  ghost predicate Tracked(was: Tx, now: Tx, base: set<int>, S: set<int>) {
    Adds(was, now, base + S)
  }

  lemma TrackedNone(t: Tx, base: set<int>)
    ensures Tracked(t, t, base, {})
  {
  }

  lemma TrackedStep(a: Tx, b: Tx, c: Tx, base: set<int>, base': set<int>, S: set<int>, addr: int)
    requires Tracked(a, b, base, S) && Adds(b, c, base' + {addr}) && base <= base'
    ensures Tracked(a, c, base', S + {addr}) && |S + {addr}| <= |S| + 1
  {
    AddsTrans(a, b, c, base + S, base' + {addr});
    AddsMono(a, c, base + S + (base' + {addr}), base' + (S + {addr}));
  }

  /** No block is free: where balloc panics. */
  ghost predicate DiskFull(sb: Superblock, v: Disk) {
    sb.Wf() && sb.size <= |v| && forall k :: 0 <= k < sb.size ==> BitsOf(sb, v)[k]
  }

  /** Everything readers see is on disk or in the log. */
  ghost predicate Journaled(base: Disk, tx: Tx, view: seq<Block>) {
    view == Apply(base, tx)
  }

  // ----- What one transaction does -----

  datatype Op = WriteOp(i: nat, off: nat, src: seq<byte>) | TruncOp(i: nat)

  /** Inode i has just the blocks its size needs, and memory and disk agree about it. */
  ghost predicate SettledAt(f: Image, i: nat)
    requires f.Shape() && i < |f.cur|
  {
    Covers(f.nblk[i], f.cur[i].size) && RootFits(f, i) && f.dino[i] == f.cur[i]
  }

  ghost predicate Settled(f: Image)
  {
    f.Shape() && forall i: nat :: i < |f.cur| ==> SettledAt(f, i)
  }

  /** Every file system invariant, of an image read from the disk. */
  ghost predicate Consistent(f: Image) {
    f.Ok() && Settled(f) && Decoded(f)
  }

  /** Every sector logged belongs to the metadata or to a file. */
  ghost predicate UsesOwn(f: Image, tx: Tx) {
    forall k :: 0 <= k < |tx| ==> tx[k].sector < |f.bit| && f.bit[tx[k].sector]
  }

  /** The most filewrite hands to writei at once: half the log blocks, less those for the inode, the
  indirect block and the bitmap. */
  const CHUNK: nat := (LOGSIZE - 1 - 1 - 2) / 2 * 512

  /** With a single bitmap block, a chunk of filewrite and a truncation stay small. */
  ghost predicate LogsFew(sb: Superblock, op: Op, tx: Tx) {
    sb.size <= BPB && (op.WriteOp? ==> |op.src| <= CHUNK) ==> |Sectors(tx)| <= 7
  }

  /** The bytes of file i. */
  ghost function Contents(f: Image, i: nat): (s: seq<byte>)
    requires f.Ok() && i < |f.cur| && SettledAt(f, i)
    ensures |s| == f.cur[i].size
  {
    Flatten(f.Data(i))[..f.cur[i].size]
  }

  /** File i is empty, the others are as they were, and no block was taken. */
  ghost predicate NowEmpty(f: Image, g: Image, i: nat)
    requires f.Ok() && Settled(f) && g.Ok() && Settled(g) && |g.cur| == |f.cur|
  {
    && (forall j: nat :: j < |f.cur| ==> Contents(g, j) == if j == i then [] else Contents(f, j))
    && |g.bit| == |f.bit| && forall b :: 0 <= b < |f.bit| && g.bit[b] ==> f.bit[b]
  }

  /** When writei returns -1. */
  predicate Refused(ino: Inode, off: nat, n: nat) {
    off > ino.size || off + n > MAXFILE * BSIZE
  }

  ghost predicate RestSame(f: Image, g: Image, i: nat)
    requires f.Ok() && Settled(f) && i < |f.cur|
  {
    && g.Ok() && Settled(g) && g.sb == f.sb && |g.cur| == |f.cur| && LowFirst(f.bit, g.bit)
    && g.cur == f.cur[i := f.cur[i].(size := g.cur[i].size, addrs := g.cur[i].addrs)]
    && forall j: nat :: j < |f.cur| && j != i ==> Contents(g, j) == Contents(f, j)
  }

  /** File i's bytes from `off` on have been replaced, or extended, by `src`; nothing else differs. */
  ghost predicate Stored(f: Image, g: Image, i: nat, off: nat, src: seq<byte>)
    requires f.Ok() && Settled(f) && i < |f.cur|
  {
    && RestSame(f, g, i) && SettledAt(f, i) && SettledAt(g, i) && off <= f.cur[i].size
    && Contents(g, i) == Splice(Contents(f, i), off, src)
  }

  /** The operation, logged as tx, takes f to g: a write replaces or extends exactly that slice of that
  file, unless refused; a truncation empties that file. */
  ghost predicate Did(f: Image, g: Image, op: Op, tx: Tx)
    requires Consistent(f)
  {
    && op.i < |f.cur| && Consistent(g) && g.sb == f.sb && |g.cur| == |f.cur|
    && g.v == Apply(f.v, tx) && UsesOwn(g, tx) && LogsFew(f.sb, op, tx)
    && match op
       case WriteOp(i, off, src) =>
         if Refused(f.cur[i], off, |src|) then g == f && tx == [] else Stored(f, g, i, off, src)
       case TruncOp(i) => NowEmpty(f, g, i)
  }

  lemma ApplyJoin(d: Disk, a: Tx, b: Tx)
    ensures Apply(d, a + b) == Apply(Apply(d, a), b)
  {
    if b == [] {
      assert a + b == a;
    } else {
      var c := b[..|b| - 1];
      ApplyJoin(d, a, c);
      assert (a + b)[..|a + b| - 1] == a + c;
    }
  }

  lemma JournalStep(base: Disk, t: Tx, v: Disk, now: Tx, w: Disk)
    requires Journaled(base, t, v) && Journaled(base, now, w) && t <= now
    ensures w == Apply(v, now[|t|..])
  {
    assert now == t + now[|t|..];
    ApplyJoin(base, t, now[|t|..]);
  }

  lemma AddsUsed(g: Image, was: Tx, now: Tx, S: set<int>)
    requires Adds(was, now, S) && InBitmap(g.bit, S)
    ensures was <= now && UsesOwn(g, now[|was|..])
  {
    forall k | 0 <= k < |now[|was|..]| ensures now[|was|..][k].sector in S {
      assert now[|was|..][k] == now[|was| + k];
    }
  }

  /** The sectors that a write may log are in use. */
  lemma WriteSectorsUsed(g: Image, i: nat, S: set<int>)
    requires g.Ok() && i < |g.cur| && InBitmap(g.bit, S)
    ensures InBitmap(g.bit, Overhead(g.sb, g.cur[i]) + S + {g.sb.IBlock(i)})
  {
    Layout(g.sb);
    assert g.P(i, NDIRECT) == g.cur[i].addrs[NDIRECT];
    forall x | x in RootSet(g.cur[i]) ensures 0 <= x < |g.bit| && g.bit[x] {
      assert x in g.own;
    }
  }

  lemma AddsExtends(was: Tx, now: Tx, S: set<int>)
    requires Adds(was, now, S)
    ensures was <= now
  {
  }

  lemma Refuses(f: Image, i: nat, off: nat, src: seq<byte>, tx: Tx)
    requires Consistent(f) && i < |f.cur| && Refused(f.cur[i], off, |src|)
    ensures tx[|tx|..] == [] && Did(f, f, WriteOp(i, off, src), [])
  {
    hide Image.PtrsOwn, Image.OwnersPoint, Image.BitsMatch, Image.NoHoles, SettledAt;
    assert Sectors([]) == {};
  }

  lemma SectorsWithin(was: Tx, now: Tx, S: set<int>)
    requires Adds(was, now, S)
    ensures Sectors(now[|was|..]) <= S
  {
    assert now[..|was|] == was && now == was + now[|was|..];
  }

  /** At most seven distinct sectors have been logged. */
  ghost predicate SmallTx(was: Tx, now: Tx) {
    was <= now && |Sectors(now[|was|..])| <= 7
  }

  lemma OneBitmap(sb: Superblock)
    requires sb.Wf() && sb.size <= BPB
    ensures |Bitmaps(sb)| <= 1
  {
    forall x | x in Bitmaps(sb) ensures x == sb.BBlock(0) {
      if b: nat :| b < sb.size && x == sb.BBlock(b) {
        assert sb.size == BPB ==> b < BPB;
      }
    }
    SubsetSize(Bitmaps(sb), {sb.BBlock(0)});
  }

  /** After n blocks have taken tot of the total bytes, all blocks but the first and last are full. */
  predicate FewBlocks(n: nat, tot: nat, total: nat) {
    if tot == 0 then n == 0
    else if tot < total then n > 0 ==> BSIZE * (n - 1) < tot
    else n > 1 ==> BSIZE * (n - 2) < tot
  }

  /** Bitmap, indirect block, inode block and at most four data blocks. */
  lemma ChunkFits(was: Tx, now: Tx, sb: Superblock, ino: Inode, S: set<int>, ib: int, n: nat)
    requires sb.Wf() && sb.size <= BPB && n <= CHUNK && FewBlocks(|S|, n, n)
    requires Adds(was, now, Overhead(sb, ino) + S + {ib})
    ensures SmallTx(was, now)
  {
    OneBitmap(sb);
    var all := Overhead(sb, ino) + S + {ib};
    assert |Overhead(sb, ino)| <= |Bitmaps(sb)| + |RootSet(ino)|;
    assert |all| <= |Overhead(sb, ino)| + |S| + 1;
    assert |S| <= 4;
    SectorsWithin(was, now, all);
    SubsetSize(Sectors(now[|was|..]), all);
  }

  lemma WriteDone(f: Image, g: Image, i: nat, off: nat, src: seq<byte>, was: Tx, now: Tx, S: set<int>)
    requires Consistent(f) && Decoded(g) && i < |f.cur| && !Refused(f.cur[i], off, |src|) && Stored(f, g, i, off, src)
    requires was <= now && g.v == Apply(f.v, now[|was|..]) && InBitmap(g.bit, S)
    requires Adds(was, now, Overhead(g.sb, g.cur[i]) + S + {g.sb.IBlock(i)}) && FewBlocks(|S|, |src|, |src|)
    ensures Did(f, g, WriteOp(i, off, src), now[|was|..])
  {
    hide Image.PtrsOwn, Image.OwnersPoint, Image.BitsMatch, Image.NoHoles, Contents, LowFirst, SettledAt, Splice, PtrAt,
      Adds, UsesOwn, Overhead, InBitmap;
    WriteSectorsUsed(g, i, S);
    AddsUsed(g, was, now, Overhead(g.sb, g.cur[i]) + S + {g.sb.IBlock(i)});
    if g.sb.size <= BPB && |src| <= CHUNK {
      ChunkFits(was, now, g.sb, g.cur[i], S, g.sb.IBlock(i), |src|);
    }
  }

  lemma TruncatedIs(f: Image, i: nat, sb: Superblock, v: seq<Block>, cur: seq<Inode>)
    requires f.Shape() && i < |f.cur| && sb == f.sb && sb.size <= |v|
    requires cur == f.cur[i := Emptied(f.cur[i])] && BitsOf(sb, v) == Freed(f, i, SLOTS)
    requires DinosOf(sb, v) == f.dino[i := Emptied(f.cur[i])]
    ensures var g := Truncated(f, i, v);
      g == Image(sb, BitsOf(sb, v), DinosOf(sb, v), v, cur, g.own, g.nblk)
  {
  }

  lemma TruncSettled(f: Image, i: nat, v: seq<Block>)
    requires f.Ok() && Settled(f) && i < |f.cur| && SameData(f.sb, f.v, v)
    ensures var g := Truncated(f, i, v);
      && g.Ok() && Settled(g)
      && forall j: nat :: j < |f.cur| ==> Contents(g, j) == if j == i then [] else Contents(f, j)
  {
    TruncatedOk(f, i, v);
    var g := Truncated(f, i, v);
    forall j: nat | j < |f.cur| ensures SettledAt(g, j) {
      assert SettledAt(f, j);
      assert g.P(j, NDIRECT) == g.cur[j].addrs[NDIRECT] && f.P(j, NDIRECT) == f.cur[j].addrs[NDIRECT];
    }
    forall j: nat | j < |f.cur| ensures Contents(g, j) == if j == i then [] else Contents(f, j) {
      if j != i {
        TruncatedContents(f, i, v, j);
      }
    }
  }

  lemma TruncTakesNone(f: Image, i: nat, v: seq<Block>)
    requires f.Ok() && Settled(f) && i < |f.cur| && SameData(f.sb, f.v, v)
    ensures var g := Truncated(f, i, v); g.Ok() && Settled(g) && g.sb == f.sb && |g.cur| == |f.cur| && NowEmpty(f, g, i)
  {
    hide Image.PtrsOwn, Image.OwnersPoint, Image.BitsMatch, Image.NoHoles, SettledAt, PtrAt, Contents;
    TruncSettled(f, i, v);
  }

  lemma TruncSectors(g: Image, i: nat)
    requires g.Ok() && i < |g.cur|
    ensures InBitmap(g.bit, Bitmaps(g.sb) + {g.sb.IBlock(i)})
    ensures g.sb.size <= BPB ==> |Bitmaps(g.sb) + {g.sb.IBlock(i)}| <= 7
  {
    Layout(g.sb);
    if g.sb.size <= BPB {
      OneBitmap(g.sb);
    }
  }

  lemma TruncDone(f: Image, g: Image, i: nat, was: Tx, now: Tx)
    requires Consistent(f) && Consistent(g) && i < |f.cur| && was <= now && g.v == Apply(f.v, now[|was|..])
    requires |g.cur| == |f.cur| && g.sb == f.sb && NowEmpty(f, g, i)
    requires Adds(was, now, Bitmaps(g.sb) + {g.sb.IBlock(i)})
    ensures Did(f, g, TruncOp(i), now[|was|..])
  {
    hide Image.PtrsOwn, Image.OwnersPoint, Image.BitsMatch, Image.NoHoles, SettledAt, PtrAt, Adds, UsesOwn, Contents,
      InBitmap, BitsOf, DinosOf, NowEmpty, Sectors, Bitmaps;
    var S := Bitmaps(g.sb) + {g.sb.IBlock(i)};
    TruncSectors(g, i);
    AddsUsed(g, was, now, S);
    SectorsWithin(was, now, S);
    SubsetSize(Sectors(now[|was|..]), S);
  }

  /** A history of operations: the image before the first and after each. */
  datatype History = History(fs: seq<Image>, ops: seq<Op>, txs: seq<Tx>)

  ghost predicate DidAt(h: History, k: nat)
    requires k < |h.ops| && k + 1 < |h.fs| && k < |h.txs|
  {
    Consistent(h.fs[k]) && Did(h.fs[k], h.fs[k + 1], h.ops[k], h.txs[k])
  }

  /** The operations, one after another, take f to g. */
  ghost predicate Performs(h: History, f: Image, g: Image) {
    && |h.fs| == |h.ops| + 1 == |h.txs| + 1 && h.fs[0] == f && h.fs[|h.ops|] == g && Consistent(f)
    && forall k: nat :: k < |h.ops| ==> DidAt(h, k)
  }

  ghost function Extend(h: History, g: Image, op: Op, tx: Tx): History {
    History(h.fs + [g], h.ops + [op], h.txs + [tx])
  }

  lemma PerformsMore(h: History, f: Image, m: Image, g: Image, op: Op, tx: Tx)
    requires Performs(h, f, m) && Consistent(m) && Did(m, g, op, tx)
    ensures Performs(Extend(h, g, op, tx), f, g)
  {
    hide Consistent, Did;
    var e := Extend(h, g, op, tx);
    forall k: nat | k < |e.ops| ensures DidAt(e, k) {
      if k < |h.ops| {
        assert DidAt(h, k);
      }
    }
  }

  function Concat(txs: seq<Tx>): Tx {
    if txs == [] then [] else Concat(txs[..|txs| - 1]) + txs[|txs| - 1]
  }

  ghost predicate AllSmall(txs: seq<Tx>) {
    forall k :: 0 <= k < |txs| ==> |Sectors(txs[k])| <= 7
  }

  /** The run's log grew by the transactions txs; with a single bitmap block each is small enough
  for the log. */
  ghost predicate LoggedAs(was: Tx, now: Tx, txs: seq<Tx>, sb: Superblock) {
    now == was + Concat(txs) && (sb.size <= BPB ==> AllSmall(txs))
  }

  function ChunkSize(left: nat): nat {
    if left > CHUNK then CHUNK else left
  }

  /** The first n bytes of data are in the file, from off on, and nothing else has changed. */
  ghost predicate Written(f: Image, g: Image, i: nat, off: nat, data: seq<byte>, n: nat) {
    && f.Ok() && Settled(f) && g.Ok() && Settled(g) && i < |f.cur| == |g.cur| && n <= |data|
    && if n == 0 then g == f else Stored(f, g, i, off, data[..n])
  }

  /** filewrite's loop: n bytes written at file positions off .. pos; if it stops early, that is
  because writei would refuse the next chunk. */
  ghost predicate Chunking(f: Image, g: Image, i: nat, off: nat, data: seq<byte>, n: nat, pos: nat, go: bool,
                           was: Tx, now: Tx, h: History) {
    && Written(f, g, i, off, data, n) && pos == off + n && Performs(h, f, g) && LoggedAs(was, now, h.txs, g.sb)
    && (!go ==> n < |data| && Refused(g.cur[i], pos, ChunkSize(|data| - n)))
  }

  /** What one call of writei for a chunk may do. */
  ghost predicate ChunkDone(g: Image, h: Image, i: nat, pos: nat, src: seq<byte>, t: Tx, now: Tx, r: int)
    requires g.Ok() && Settled(g) && i < |g.cur|
  {
    && (r == -1 <==> Refused(g.cur[i], pos, |src|)) && t <= now && h.sb == g.sb
    && Consistent(g) && Did(g, h, WriteOp(i, pos, src), now[|t|..]) && |src| <= CHUNK
    && if r == -1 then h == g && now == t
       else r == |src| && h.Ok() && Settled(h) && |h.cur| == |g.cur| && Stored(g, h, i, pos, src)
  }

  /** Two writes, the second where the first ended, are one. */
  lemma StoredTwice(f: Image, g: Image, h: Image, i: nat, off: nat, d1: seq<byte>, pos: nat, d2: seq<byte>)
    requires f.Ok() && Settled(f) && i < |f.cur| && g.Ok() && Settled(g) && Stored(f, g, i, off, d1)
    requires i < |g.cur| && Stored(g, h, i, pos, d2) && pos == off + |d1|
    ensures Stored(f, h, i, off, d1 + d2)
  {
    hide Image.PtrsOwn, Image.OwnersPoint, Image.BitsMatch, Image.NoHoles, Contents, LowFirst, SettledAt, Splice, PtrAt;
    SpliceTwice(Contents(f, i), off, d1, pos, d2);
    LowFirstTrans(f.bit, g.bit, h.bit);
    assert h.cur == f.cur[i := f.cur[i].(size := h.cur[i].size, addrs := h.cur[i].addrs)];
  }

  lemma SliceJoin(s: seq<byte>, a: nat, b: nat)
    requires a <= b <= |s|
    ensures s[..a] + s[a..b] == s[..b]
  {
  }

  lemma StoredNext(f: Image, g: Image, h: Image, i: nat, off: nat, data: seq<byte>, n: nat, pos: nat, m: nat)
    requires Written(f, g, i, off, data, n) && n < m <= |data| && pos == off + n && h.Ok() && Settled(h)
    requires Stored(g, h, i, pos, data[n..m])
    ensures Written(f, h, i, off, data, m) && pos + (m - n) <= h.cur[i].size
  {
    hide Image.PtrsOwn, Image.OwnersPoint, Image.BitsMatch, Image.NoHoles, Contents, LowFirst, SettledAt, PtrAt;
    SliceJoin(data, n, m);
    if n > 0 {
      StoredTwice(f, g, h, i, off, data[..n], pos, data[n..m]);
    } else {
      assert data[n..m] == data[..m];
    }
  }

  /** One more transaction: the part of the run's log that was added. */
  lemma AddTx(was: Tx, mid: Tx, now: Tx, txs: seq<Tx>, txs': seq<Tx>, sb: Superblock)
    requires LoggedAs(was, mid, txs, sb) && mid <= now && txs' == txs + [now[|mid|..]]
    requires sb.size <= BPB && mid != now ==> SmallTx(mid, now)
    ensures LoggedAs(was, now, txs', sb)
  {
    assert txs'[..|txs|] == txs;
    assert now == mid + now[|mid|..];
    if mid == now {
      assert now[|mid|..] == [] && Sectors([]) == {};
    }
  }

  lemma ChunkNext(f: Image, g: Image, e: Image, i: nat, off: nat, data: seq<byte>, n: nat, pos: nat,
                  was: Tx, t: Tx, now: Tx, h: History, m: nat, r: int)
    requires Chunking(f, g, i, off, data, n, pos, true, was, t, h) && n < |data| && m == n + ChunkSize(|data| - n)
    requires ChunkDone(g, e, i, pos, data[n..m], t, now, r)
    ensures t <= now && (r == -1 || (0 <= r == m - n && pos + r <= e.cur[i].size))
    ensures Chunking(f, e, i, off, data, if r >= 0 then m else n, if r >= 0 then pos + r else pos, r >= 0, was, now,
                     Extend(h, e, WriteOp(i, pos, data[n..m]), now[|t|..]))
  {
    hide Image.PtrsOwn, Image.OwnersPoint, Image.BitsMatch, Image.NoHoles, SettledAt, Stored, BitsOf, DinosOf, PtrAt,
      LoggedAs, Performs, UsesOwn, Sectors;
    var tx := now[|t|..];
    AddTx(was, t, now, h.txs, h.txs + [tx], g.sb);
    PerformsMore(h, f, g, e, WriteOp(i, pos, data[n..m]), tx);
    if r >= 0 {
      StoredNext(f, g, e, i, off, data, n, pos, m);
    }
  }

  lemma WrittenKind(f: Image, g: Image, i: nat, off: nat, data: seq<byte>, n: nat)
    requires Written(f, g, i, off, data, n)
    ensures g.cur[i].kind == f.cur[i].kind
  {
  }

  /** Part-way through itrunc: the first n pointers of inode i are freed, nothing else has changed. */
  ghost predicate Freeing(f: Image, i: nat, n: nat, view: seq<Block>, t: Tx, tx: Tx, sb: Superblock) {
    && sb == f.sb && sb.Wf() && sb.size <= |view| && SameData(sb, f.v, view)
    && BitsOf(sb, view) == Freed(f, i, n) && DinosOf(sb, view) == f.dino && Adds(t, tx, Bitmaps(sb))
  }

  /** The first s direct addresses are zero, the rest of the inode is as it was. */
  predicate DirectCleared(was: Inode, now: Inode, s: nat) {
    now == was.(addrs := now.addrs) && forall k :: 0 <= k <= NDIRECT ==>
      now.addrs[k] == if k < s then 0 else was.addrs[k]
  }

  predicate DirectClearedAt(was: seq<Inode>, now: seq<Inode>, i: nat, s: nat) {
    i < |was| == |now| && now == was[i := now[i]] && DirectCleared(was[i], now[i], s)
  }

  lemma ClearNext(was: seq<Inode>, now: seq<Inode>, i: nat, s: nat, s': nat)
    requires DirectClearedAt(was, now, i, s) && s < NDIRECT && s' == s + 1
    ensures now[i].addrs[s] == was[i].addrs[s] && Ranked(s) == s
    ensures DirectClearedAt(was, now[i := now[i].(addrs := now[i].addrs[s := 0])], i, s')
  {
  }

  lemma ClearedIs(was: seq<Inode>, now: seq<Inode>, i: nat)
    requires DirectClearedAt(was, now, i, NDIRECT)
    ensures now[i := now[i].(size := 0, addrs := now[i].addrs[NDIRECT := 0])] == was[i := Emptied(was[i])]
  {
    assert now[i].addrs[NDIRECT := 0] == Emptied(was[i]).addrs;
  }

  lemma FreedNone(f: Image, i: nat)
    requires f.Ok()
    ensures Freed(f, i, 0) == f.bit
  {
  }

  lemma EntryAt(f: Image, i: nat, n: nat, j: nat)
    requires f.Ok() && i < |f.cur| && f.P(i, NDIRECT) != 0 && NDIRECT <= n < MAXFILE && j == n - NDIRECT
    ensures f.P(i, NDIRECT) < |f.v| && Ranked(n) < SLOTS && f.P(i, Ranked(n)) == GetWord(f.v[f.P(i, NDIRECT)], j)
  {
    assert f.P(i, NDIRECT) == f.cur[i].addrs[NDIRECT];
  }

  lemma TakeSlice(s: seq<byte>, n: nat, a: nat, b: nat)
    requires a <= b <= n <= |s|
    ensures s[..n][a..b] == s[a..b]
  {
  }

  /** The bytes [pos, end) of a file, all in block bn, are where its pointer says. */
  lemma ReadSlice(f: Image, i: nat, pos: nat, bn: nat, at: nat, m: nat, end: nat)
    requires f.Ok() && i < |f.cur| && SettledAt(f, i) && end <= f.cur[i].size
    requires pos == BSIZE * bn + at && end == pos + m && at + m <= BSIZE && 0 < m
    ensures bn < f.nblk[i] && 0 < f.P(i, SlotOf(bn)) < |f.v|
    ensures f.v[f.P(i, SlotOf(bn))][at..at + m] == Contents(f, i)[pos..end]
  {
    assert bn < f.nblk[i];
    DataWriteAll(f, i, bn, ZERO_BLOCK);
    FlattenSlice(f.Data(i), pos, bn, at, m, end);
    TakeSlice(Flatten(f.Data(i)), f.cur[i].size, pos, end);
  }

  predicate RootFitsAt(f: Image, i: nat) {
    i < |f.cur| && i < |f.nblk| && RootFits(f, i)
  }

  /** The state of writei's loop after tot bytes: exactly those are stored, in few blocks.  Between
  passes the position is at the start of block q. */
  ghost predicate Progress(f: Image, g: Image, i: nat, off: nat, src: seq<byte>, tot: nat, S: set<int>, q: nat) {
    && f.Ok() && i < |f.cur| && tot <= |src| && off <= BSIZE * f.nblk[i]
    && Wrote(f, g, i, off, src[..tot]) && RootFitsAt(g, i)
    && (off + tot == BSIZE * q || tot == 0 || tot == |src|) && FewBlocks(|S|, tot, |src|) && InBitmap(g.bit, S)
  }

  lemma ProgressFacts(f: Image, g: Image, i: nat, off: nat, src: seq<byte>, tot: nat, S: set<int>, q: nat)
    requires Progress(f, g, i, off, src, tot, S, q)
    ensures f.Ok() && i < |f.cur| == |g.cur| == |g.nblk| && tot <= |src| && RootFits(g, i) && InBitmap(g.bit, S)
    ensures Wrote(f, g, i, off, src[..tot]) && off + tot <= BSIZE * g.nblk[i]
  {
  }

  lemma ProgressEnd(f: Image, g: Image, i: nat, off: nat, src: seq<byte>, tot: nat, S: set<int>, q: nat)
    requires Progress(f, g, i, off, src, tot, S, q) && tot == |src|
    ensures f.Ok() && i < |f.cur| == |g.cur| == |g.nblk| && RootFits(g, i) && Wrote(f, g, i, off, src)
    ensures FewBlocks(|S|, |src|, |src|) && InBitmap(g.bit, S)
  {
    assert src[..tot] == src;
  }

  lemma ProgressStart(f: Image, i: nat, off: nat, src: seq<byte>)
    requires f.Ok() && i < |f.cur| && SettledAt(f, i) && off <= f.cur[i].size
    ensures Progress(f, f, i, off, src, 0, {}, 0)
  {
    WroteNothing(f, i, off);
    assert src[..0] == [];
  }

  lemma FewStep(n: nat, n': nat, off: nat, tot: nat, tot': nat, total: nat, q: nat, bn: nat, at: nat)
    requires FewBlocks(n, tot, total) && n' <= n + 1 && tot < total && (off + tot == BSIZE * q || tot == 0)
    requires off + tot == BSIZE * bn + at && at < BSIZE
    requires tot' == if total - tot < BSIZE - at then total else tot + BSIZE - at
    ensures FewBlocks(n', tot', total) && (off + tot' == BSIZE * (bn + 1) || tot' == total)
  {
    if tot != 0 {
      assert BSIZE * (q - bn) == at;
    }
  }

  lemma ProgressStep(f: Image, g: Image, h: Image, i: nat, off: nat, src: seq<byte>, tot: nat, S: set<int>, q: nat,
                     bn: nat, at: nat, S': set<int>, tot': nat)
    requires Progress(f, g, i, off, src, tot, S, q) && tot < tot' <= |src| && |S'| <= |S| + 1
    requires off + tot == BSIZE * bn + at && at < BSIZE
    requires tot' == if |src| - tot < BSIZE - at then |src| else tot + BSIZE - at
    requires RootFitsAt(h, i) && Wrote(f, h, i, off, src[..tot] + src[tot..tot']) && InBitmap(h.bit, S')
    ensures Progress(f, h, i, off, src, tot', S', bn + 1)
  {
    SliceJoin(src, tot, tot');
    FewStep(|S|, |S'|, off, tot, tot', |src|, q, bn, at);
  }

  /** The unsigned test off + n < off detects exactly the sums that do not fit. */
  lemma Wraps(off: Word, n: Word)
    ensures (off + n) % TWO32 < off <==> off + n >= TWO32
  {
  }

  lemma SlicesJoin(s: seq<byte>, a: nat, b: nat, c: nat)
    requires a <= b <= c <= |s|
    ensures s[a..b] + s[b..c] == s[a..c]
  {
  }

  const T_DEV: Half := 3

  /** The image g with inode i's size set to `size` and the inode copied to disk. */
  ghost function Resized(g: Image, i: nat, size: Word, v: seq<Block>): Image
    requires i < |g.cur| == |g.dino|
  {
    var ino := g.cur[i].(size := size);
    g.(cur := g.cur[i := ino], dino := g.dino[i := ino], v := v)
  }

  lemma InsideContents(f: Image, g: Image, i: nat, off: nat, src: seq<byte>, j: nat)
    requires f.Ok() && Settled(f) && i < |f.cur| && off <= f.cur[i].size && Wrote(f, g, i, off, src)
    requires off + |src| <= f.cur[i].size || |src| == 0
    requires j < |f.cur| && SettledAt(f, j) && SettledAt(g, j) && g.cur == f.cur
    ensures Contents(g, j) == if j == i then Splice(Contents(f, i), off, src) else Contents(f, j)
  {
    hide Image.PtrsOwn, Image.OwnersPoint, Image.BitsMatch, Image.NoHoles, LowFirst, PtrAt, RootFits, SlotOf, Flatten,
      Overlaid, Splice;
    assert SettledAt(f, i);
    OverlaidIsSplice(Flatten(f.Data(i)), Flatten(g.Data(i)), off, src, f.cur[i].size);
  }

  lemma InsideSettled(f: Image, g: Image, i: nat, off: nat, src: seq<byte>, j: nat)
    requires f.Ok() && Settled(f) && i < |f.cur| && off <= f.cur[i].size && Wrote(f, g, i, off, src)
    requires off + |src| <= f.cur[i].size || |src| == 0
    requires j < |f.cur|
    ensures g.cur == f.cur && g.nblk == f.nblk && SettledAt(g, j)
  {
    hide Image.PtrsOwn, Image.OwnersPoint, Image.BitsMatch, Image.NoHoles, LowFirst, Flatten, Overlaid, GetWord;
    assert SettledAt(f, i) && SettledAt(f, j);
    assert g.P(j, NDIRECT) == g.cur[j].addrs[NDIRECT] && f.P(j, NDIRECT) == f.cur[j].addrs[NDIRECT];
  }

  /** A write that ends within the file changes no metadata. */
  lemma WroteInside(f: Image, g: Image, i: nat, off: nat, src: seq<byte>)
    requires f.Ok() && Settled(f) && i < |f.cur| && off <= f.cur[i].size && Wrote(f, g, i, off, src)
    requires off + |src| <= f.cur[i].size || |src| == 0
    ensures g.cur == f.cur && Stored(f, g, i, off, src)
  {
    hide Image.PtrsOwn, Image.OwnersPoint, Image.BitsMatch, Image.NoHoles, LowFirst, PtrAt, RootFits, SlotOf, Flatten,
      Overlaid, Splice, Contents, Covers, Reach;
    assert SettledAt(f, i);
    forall j: nat | j < |g.cur| ensures SettledAt(g, j) {
      InsideSettled(f, g, i, off, src, j);
    }
    forall j: nat | j < |g.cur|
      ensures Contents(g, j) == if j == i then Splice(Contents(f, i), off, src) else Contents(f, j)
    {
      assert SettledAt(f, j) && SettledAt(g, j);
      InsideSettled(f, g, i, off, src, j);
      InsideContents(f, g, i, off, src, j);
    }
    InsideSettled(f, g, i, off, src, i);
  }

  /** A write past the end extends the file to just where it ends. */
  lemma PastSettled(f: Image, g: Image, h: Image, i: nat, off: nat, src: seq<byte>, end: Word, j: nat)
    requires f.Ok() && Settled(f) && i < |f.cur| && off <= f.cur[i].size && Wrote(f, g, i, off, src) && RootFits(g, i)
    requires f.cur[i].size < end == off + |src| && |src| > 0
    requires h == Resized(g, i, end, h.v) && SameData(g.sb, g.v, h.v) && h.Ok() && j < |h.cur|
    requires h.P(j, NDIRECT) == g.P(j, NDIRECT)
    ensures SettledAt(h, j)
  {
    assert SettledAt(f, j) && SettledAt(f, i);
    assert g.P(j, NDIRECT) == g.cur[j].addrs[NDIRECT] && f.P(j, NDIRECT) == f.cur[j].addrs[NDIRECT];
  }

  lemma PastContents(f: Image, g: Image, h: Image, i: nat, off: nat, src: seq<byte>, end: Word, j: nat)
    requires f.Ok() && Settled(f) && i < |f.cur| && off <= f.cur[i].size && Wrote(f, g, i, off, src)
    requires f.cur[i].size < end == off + |src| && |src| > 0
    requires h == Resized(g, i, end, h.v) && h.Ok() && j < |h.cur| && SettledAt(h, j) && h.Data(j) == g.Data(j)
    requires SettledAt(f, j)
    ensures Contents(h, j) == if j == i then Splice(Contents(f, i), off, src) else Contents(f, j)
  {
    hide Image.PtrsOwn, Image.OwnersPoint, Image.BitsMatch, Image.NoHoles, LowFirst, PtrAt, RootFits, SlotOf, Flatten,
      Overlaid, Splice;
    assert SettledAt(f, i);
    OverlaidIsSplice(Flatten(f.Data(i)), Flatten(g.Data(i)), off, src, f.cur[i].size);
  }

  lemma WrotePast(f: Image, g: Image, h: Image, i: nat, off: nat, src: seq<byte>, end: Word)
    requires f.Ok() && Settled(f) && i < |f.cur| && off <= f.cur[i].size && Wrote(f, g, i, off, src) && RootFits(g, i)
    requires f.cur[i].size < end == off + |src| && |src| > 0
    requires h == Resized(g, i, end, h.v) && SameData(g.sb, g.v, h.v)
    ensures h.cur[i].size == end && Stored(f, h, i, off, src)
  {
    hide Image.PtrsOwn, Image.OwnersPoint, Image.BitsMatch, Image.NoHoles, LowFirst, PtrAt, RootFits, SlotOf, Flatten,
      Overlaid, Splice, Contents, Covers;
    assert SettledAt(f, i);
    InodeFields(g, i, h.cur[i], h.v, h.dino);
    forall j: nat | j < |h.cur| ensures SettledAt(h, j) {
      PastSettled(f, g, h, i, off, src, end, j);
    }
    forall j: nat | j < |h.cur|
      ensures Contents(h, j) == if j == i then Splice(Contents(f, i), off, src) else Contents(f, j)
    {
      assert SettledAt(f, j) && SettledAt(h, j);
      PastContents(f, g, h, i, off, src, end, j);
    }
  }

  /** The file block that holds position off, the position within it, and how much of what is left to
  copy lies in it. */
  method BlockAt(off: nat, left: nat, ghost n: nat) returns (bn: nat, at: nat, m: nat)
    requires off <= BSIZE * n
    ensures off == BSIZE * bn + at && at < BSIZE
    ensures m == if left < BSIZE - at then left else BSIZE - at
    ensures bn <= n
  {
    bn, at := off / BSIZE, off % BSIZE;
    m := if left < BSIZE - at then left else BSIZE - at;
  }

  // ----- Where a file's bytes are on the disk -----

  /** The disk block of file block bn: one of the twelve addresses of the inode, or a word of the block that
  the thirteenth names. */
  function AddressOf(f: Image, i: nat, bn: nat): Word
    requires i < |f.cur| && bn < 140
  {
    if bn < 12 then f.cur[i].addrs[bn]
    else if f.cur[i].addrs[12] >= |f.v| then 0
    else GetWord(f.v[f.cur[i].addrs[12]], bn - 12)
  }

  /** Byte k of a file is byte k % 512 of the disk block of its block k / 512. */
  lemma ByteAddress(f: Image, i: nat, k: nat)
    requires f.Ok() && i < |f.cur| && SettledAt(f, i) && k < f.cur[i].size
    ensures k / 512 < 140 && f.sb.DataStart() <= AddressOf(f, i, k / 512) < |f.v|
    ensures Contents(f, i)[k] == f.v[AddressOf(f, i, k / 512)][k % 512]
  {
    var bn := k / 512;
    assert bn < f.nblk[i];
    FlattenAt(f.Data(i), k);
    hide Flatten;
    var b := f.P(i, SlotOf(bn));
    assert b != 0 && b in f.own;
    assert f.P(i, NDIRECT) == f.cur[i].addrs[NDIRECT];
    if bn >= 12 {
      assert f.P(i, NDIRECT) != 0 && f.P(i, NDIRECT) in f.own;
    }
    assert f.Data(i)[bn] == f.v[b];
  }

  // ----- The file system in place -----

  class FileSystem {
    const sb: Superblock
    ghost const base: seq<Block>       // the disk when mounted
    var view: seq<Block>
    var cur: seq<Inode>
    var tx: seq<Write>                 // everything handed to log_write since then
    ghost var own: map<int, Ptr>
    ghost var nblk: seq<nat>

    /** Mount a disk whose image is consistent, every inode as it is on disk. */
    constructor (sb: Superblock, disk: Disk, ghost own: map<int, Ptr>, ghost nblk: seq<nat>)
      requires sb.Wf() && sb.size <= |disk|
      requires var f := Image(sb, BitsOf(sb, disk), DinosOf(sb, disk), disk, DinosOf(sb, disk), own, nblk); f.Ok() && Settled(f)
      ensures Quiet() && this.sb == sb && base == view == disk && cur == DinosOf(sb, disk) && tx == []
      ensures this.own == own && this.nblk == nblk
    {
      this.sb, base, view, cur := sb, disk, disk, DinosOf(sb, disk);
      tx, this.own, this.nblk := [], own, nblk;
    }

    ghost predicate Shaped()
      reads this
    {
      sb.Wf() && sb.size <= |view| && Journaled(base, tx, view)
    }

    ghost function Img(): Image
      requires Shaped()
      reads this
    {
      Image(sb, BitsOf(sb, view), DinosOf(sb, view), view, cur, own, nblk)
    }

    ghost predicate Valid()
      reads this
    {
      Shaped() && Img().Ok()
    }

    /** log_write: readers see the block at once; it reaches the disk when the transaction commits. */
    method LogBlock(s: Word, x: Block)
      requires s < |view| && Journaled(base, tx, view)
      modifies this`view, this`tx
      ensures view == old(view)[s := x] && tx == old(tx) + [Write(s, x)] && Journaled(base, tx, view)
    {
      ApplyLast(base, tx, Write(s, x));
      view := view[s := x];
      tx := tx + [Write(s, x)];
    }

    /** balloc's scan: the lowest-numbered block whose bit is clear. */
    method FirstFree() returns (r: Option<Word>)
      requires Shaped()
      ensures r.None? ==> forall k :: 0 <= k < sb.size ==> BitsOf(sb, view)[k]
      ensures r.Some? ==> LowestFree(BitsOf(sb, view), r.value)
    {
      hide BitAt;
      ghost var bits := BitsOf(sb, view);
      var b := 0;
      while b < sb.size
        invariant 0 <= b && b % BPB == 0 && SetBelow(bits, b)
      {
        Layout(sb);
        var bp := view[sb.BBlock(b)];
        var bi := 0;
        while bi < BPB && b + bi < sb.size
          invariant 0 <= bi <= BPB && SetBelow(bits, b + bi)
        {
          BitPosition(b, bi);
          assert bits[b + bi] == BitAt(bp, bi);
          if !BitAt(bp, bi) {
            return Some(b + bi);
          }
          bi := bi + 1;
        }
        b := b + BPB;
      }
      return None;
    }

    /** Allocate the lowest-numbered free block, zeroed.  None where the source panics.  The block
    lies below the log, in the last nlog blocks, exactly when a free block below the log exists. */
    method Balloc() returns (r: Option<Word>)
      requires Shaped() && forall k :: 0 <= k < sb.DataStart() ==> BitsOf(sb, view)[k]
      modifies this`view, this`tx
      ensures Journaled(base, tx, view) && |view| == |old(view)|
      ensures r.None? ==> view == old(view) && tx == old(tx) && DiskFull(sb, view)
      ensures r.Some? ==>
        && sb.DataStart() <= r.value && LowestFree(BitsOf(sb, old(view)), r.value)
        && view == Taken(sb, old(view), r.value)
        && tx == old(tx) + [Write(sb.BBlock(r.value), view[sb.BBlock(r.value)]), Write(r.value, ZERO_BLOCK)]
      ensures r.Some? ==>
        (r.value < sb.size - sb.nlog <==> exists k :: 0 <= k < sb.size - sb.nlog && !BitsOf(sb, old(view))[k])
    {
      r := FirstFree();
      if r.Some? {
        var b := r.value;
        Layout(sb);
        LogBlock(sb.BBlock(b), SetBitAt(view[sb.BBlock(b)], b % BPB, true));
        LogBlock(b, ZERO_BLOCK);
      }
    }

    /** Free a block.  Returns false where the source panics: the block was already free. */
    method Bfree(b: Word) returns (ok: bool)
      requires Shaped() && b < sb.size
      modifies this`view, this`tx
      ensures ok == BitsOf(sb, old(view))[b] && Journaled(base, tx, view)
      ensures !ok ==> view == old(view) && tx == old(tx)
      ensures ok ==> |view| == |old(view)| && BitsOf(sb, view) == BitsOf(sb, old(view))[b := false]
      ensures ok ==> DinosOf(sb, view) == DinosOf(sb, old(view)) && SameData(sb, old(view), view)
      ensures ok ==> tx == old(tx) + [Write(sb.BBlock(b), view[sb.BBlock(b)])]
    {
      Layout(sb);
      var bp := view[sb.BBlock(b)];
      var bi := b % BPB;
      if !BitAt(bp, bi) {
        return false;
      }
      BitmapWrite(sb, view, b, false);
      LogBlock(sb.BBlock(b), SetBitAt(bp, bi, false));
      return true;
    }

    /** Copy an in-memory inode to its inode block. */
    method Iupdate(i: Word)
      requires Shaped() && i < sb.ninodes == |cur|
      modifies this`view, this`tx
      ensures Shaped() && |view| == |old(view)| && BitsOf(sb, view) == BitsOf(sb, old(view))
      ensures SameData(sb, old(view), view)
      ensures DinosOf(sb, view) == DinosOf(sb, old(view))[i := cur[i]]
      ensures tx == old(tx) + [Write(sb.IBlock(i), view[sb.IBlock(i)])]
    {
      Layout(sb);
      InodeWrite(sb, view, i, cur[i]);
      LogBlock(sb.IBlock(i), PutInode(view[sb.IBlock(i)], i % IPB, cur[i]));
    }

    /** Address s of an inode gets a newly allocated block. */
    method AllocAddr(i: Word, s: nat) returns (r: Option<Word>)
      requires Valid() && i < |cur| && s <= NDIRECT
      requires if s == NDIRECT then cur[i].addrs[s] == 0 && nblk[i] <= NDIRECT else s == nblk[i]
      modifies this
      ensures r.Some? ==> Valid() && cur[i].addrs[s] == r.value != 0
      ensures r.Some? ==>
        Grown(old(Img()), Img(), i) && nblk[i] == if s == NDIRECT then old(nblk[i]) else old(nblk[i]) + 1
      ensures r.Some? ==> Adds(old(tx), tx, Bitmaps(sb) + {r.value})
      ensures r.Some? ==> forall t :: 0 <= t <= NDIRECT && t != s ==> cur[i].addrs[t] == old(cur[i].addrs[t])
      ensures r.None? ==> DiskFull(sb, view)
    {
      hide Image.PtrsOwn, Image.OwnersPoint, Image.BitsMatch, Image.NoHoles, Grown, LowestFree, Adds, Decoded, BitsOf,
        DinosOf, Taken, PtrAt, GrowAddr, Bitmaps, Journaled, DiskFull;
      ghost var f := Img();
      ImageDecoded(sb, view, cur, own, nblk);
      r := Balloc();
      if r.Some? {
        var b := r.value;
        AddsTaken(sb, old(tx), b, view[sb.BBlock(b)]);
        RootAddr(f, i);
        WithAddrOk(f, i, s, b, view);
        cur := cur[i := cur[i].(addrs := cur[i].addrs[s := b])];
        ghost var g := GrowAddr(f, i, s, b, view);
        own, nblk := g.own, g.nblk;
        GrowAddrFields(f, i, s, b, view);
        DecodedIs(g, sb, view, cur, own, nblk);
      }
    }

    /** Entry j of an indirect block gets a newly allocated block, and the indirect block is logged. */
    method StoreEntry(root: Word, j: nat) returns (r: Option<Word>)
      requires Shaped() && (forall k :: 0 <= k < sb.DataStart() ==> BitsOf(sb, view)[k])
      requires root < |view| && j < NINDIRECT
      modifies this`view, this`tx
      ensures Journaled(base, tx, view)
      ensures r.Some? ==>
        && sb.DataStart() <= r.value && LowestFree(BitsOf(sb, old(view)), r.value)
        && view == EntryStored(sb, old(view), root, j, r.value)
        && Adds(old(tx), tx, Bitmaps(sb) + {r.value as int} + {root as int})
      ensures r.None? ==> DiskFull(sb, view)
    {
      var bp := view[root];
      r := Balloc();
      if r.Some? {
        var b := r.value;
        AddsTaken(sb, old(tx), b, view[sb.BBlock(b)]);
        AddsOne(old(tx), tx, Bitmaps(sb) + {b}, Write(root, SetWord(bp, j, b)));
        LogBlock(root, SetWord(bp, j, b));
      }
    }

    /** The next indirect entry of inode i gets a block. */
    method AllocEntry(i: Word, j: nat) returns (r: Option<Word>)
      requires Valid() && i < |cur| && cur[i].addrs[NDIRECT] != 0 && j < NINDIRECT && nblk[i] == NDIRECT + j
      modifies this
      ensures r.Some? ==> Valid() && Img().P(i, SlotOf(NDIRECT + j)) == r.value
      ensures r.Some? ==> Grown(old(Img()), Img(), i) && nblk[i] == old(nblk[i]) + 1
      ensures r.Some? ==> cur == old(cur) && Adds(old(tx), tx, MapSectors(sb, cur[i], r.value))
      ensures r.None? ==> DiskFull(sb, view)
    {
      hide Image.PtrsOwn, Image.OwnersPoint, Image.BitsMatch, Image.NoHoles, Grown, LowestFree, Adds, Decoded, BitsOf,
        DinosOf, EntryStored, PtrAt, GrowEntry, MapSectors;
      ghost var f := Img();
      ImageDecoded(sb, view, cur, own, nblk);
      IndirectAddr(f, i, j);
      var root := cur[i].addrs[NDIRECT];
      r := StoreEntry(root, j);
      if r.Some? {
        WithEntryOk(f, i, r.value, root, j, view);
        EntrySectors(sb, cur[i], r.value, root);
        AddsMono(old(tx), tx, Bitmaps(sb) + {r.value as int} + {root as int}, MapSectors(sb, cur[i], r.value));
        ghost var g := GrowEntry(f, i, r.value, view);
        own, nblk := g.own, g.nblk;
        GrowEntryFields(f, i, r.value, view);
        DecodedIs(g, sb, view, cur, own, nblk);
      }
    }

    /** bmap for a block reached through the indirect block, allocating that first if need be. */
    method BmapIndirect(i: Word, j: nat) returns (r: Option<Word>)
      requires Valid() && i < |cur| && RootFits(Img(), i) && j < NINDIRECT && nblk[i] == NDIRECT + j
      modifies this
      ensures r.Some? ==> Valid() && RootFits(Img(), i) && Grown(old(Img()), Img(), i) && nblk[i] == NDIRECT + j + 1
      ensures r.Some? ==> r.value == Img().P(i, SlotOf(NDIRECT + j))
      ensures r.Some? ==> Adds(old(tx), tx, MapSectors(sb, cur[i], r.value))
      ensures r.None? ==> DiskFull(sb, view)
    {
      hide Image.PtrsOwn, Image.OwnersPoint, Image.BitsMatch, Image.NoHoles, LowFirst, Adds, BitsOf, DinosOf,
        GetWord;
      ghost var f := Img();
      assert f.P(i, NDIRECT) == cur[i].addrs[NDIRECT];
      if cur[i].addrs[NDIRECT] == 0 {
        r := AllocAddr(i, NDIRECT);
        if r.None? {
          return;
        }
        ghost var m, t := Img(), tx;
        r := AllocEntry(i, j);
        if r.Some? {
          GrownTrans(f, m, Img(), i);
          ghost var S := MapSectors(sb, cur[i], r.value);
          AddsMono(old(tx), t, Bitmaps(sb) + {cur[i].addrs[NDIRECT]}, S);
          AddsTrans(old(tx), t, tx, S, S);
          assert S + S == S;
        }
      } else {
        r := AllocEntry(i, j);
      }
      assert r.Some? ==> Img().P(i, NDIRECT) == cur[i].addrs[NDIRECT];
    }

    /** The disk block of file block bn, allocating it (zeroed) if bn is the first unmapped one.
    None where the source panics: file too big, or no block left. */
    method Bmap(i: Word, bn: nat) returns (r: Option<Word>)
      requires Valid() && i < |cur| && RootFits(Img(), i) && bn <= nblk[i]
      modifies this
      ensures bn < old(nblk[i]) ==> r.Some? && Shaped() && Img() == old(Img()) && tx == old(tx)
      ensures r.Some? ==> bn < MAXFILE && Valid() && Mapped(old(Img()), Img(), i, bn, r.value)
      ensures r.Some? ==> Adds(old(tx), tx, MapSectors(sb, cur[i], r.value))
      ensures r.None? ==> bn >= MAXFILE || DiskFull(sb, view)
    {
      hide Image.PtrsOwn, Image.OwnersPoint, Image.BitsMatch, Image.NoHoles, LowFirst, BitsOf, DinosOf, GetWord, Bitmaps,
        Grown, RootSet;
      ghost var f := Img();
      if bn < nblk[i] {
        MappedAlready(f, i, bn);
      }
      if bn < NDIRECT {
        DirectAddr(f, i, bn);
        if cur[i].addrs[bn] != 0 {
          return Some(cur[i].addrs[bn]);
        }
        r := AllocAddr(i, bn);
        assert r.Some? ==> Img().P(i, NDIRECT) == cur[i].addrs[NDIRECT] && Img().P(i, SlotOf(bn)) == cur[i].addrs[bn];
      } else if bn - NDIRECT < NINDIRECT {
        var j := bn - NDIRECT;
        IndirectAddr(f, i, j);
        var root := cur[i].addrs[NDIRECT];
        if root != 0 && GetWord(view[root], j) != 0 {
          return Some(GetWord(view[root], j));
        }
        r := BmapIndirect(i, j);
      } else {
        r := None;
      }
    }

    /** Patch a mapped block of a file and log it. */
    method PatchBlock(i: Word, bn: nat, b: Word, at: nat, c: seq<byte>)
      requires Valid() && i < |cur| && bn < nblk[i] && b == Img().P(i, SlotOf(bn)) && at + |c| <= BSIZE
      modifies this`view, this`tx
      ensures Valid() && Patched(old(Img()), Img(), i, bn, at, c)
      ensures Img().P(i, SlotOf(bn)) == b && b < |view| && tx == old(tx) + [Write(b, view[b])]
    {
      ghost var m := Img();
      ghost var y := m.Data(i)[bn];
      DataWriteAll(m, i, bn, Patch(y, at, c));
      var x := Patch(view[b], at, c);
      DataBlockWrite(sb, view, b, x);
      LogBlock(b, x);
      assert Img() == m.(v := m.v[b := x]);
    }

    /** One pass of writei's loop: store c at byte `at` of file block bn. */
    method WriteBlock(i: Word, ghost pos: nat, bn: nat, at: nat, c: seq<byte>) returns (ok: bool, ghost addr: Word)
      requires Valid() && i < |cur| && RootFits(Img(), i) && 0 < |c| && at + |c| <= BSIZE && bn <= nblk[i]
      requires pos == BSIZE * bn + at
      modifies this
      ensures ok ==> |cur| == |old(cur)| && Valid() && RootFits(Img(), i) && Wrote(old(Img()), Img(), i, pos, c)
      ensures ok ==> Adds(old(tx), tx, MapSectors(sb, cur[i], addr)) && InBitmap(Img().bit, {addr as int})
      ensures !ok ==> bn >= MAXFILE || DiskFull(sb, view)
    {
      ghost var f := Img();
      var r := Bmap(i, bn);
      if r.None? {
        return false, 0;
      }
      ghost var m, t := Img(), tx;
      MappedInBitmap(m, i, SlotOf(bn), r.value);
      PatchBlock(i, bn, r.value, at, c);
      WroteChunk(f, m, Img(), i, pos, bn, r.value, at, c);
      AddsAgain(old(tx), t, MapSectors(sb, cur[i], r.value), Write(r.value, view[r.value]));
      return true, r.value;
    }

    /** The same, seen from where the write as a whole started. */
    method WriteNext(ghost f: Image, ghost t: Tx, i: Word, ghost off: nat, ghost done: seq<byte>, ghost S: set<int>,
                     bn: nat, at: nat, c: seq<byte>)
      returns (ok: bool, ghost S': set<int>)
      requires f.Ok() && i < |f.cur| == |cur| && Valid() && RootFits(Img(), i) && Wrote(f, Img(), i, off, done)
      requires 0 < |c| && at + |c| <= BSIZE && bn <= nblk[i] && off + |done| == BSIZE * bn + at
      requires Tracked(t, tx, Overhead(sb, cur[i]), S) && InBitmap(Img().bit, S)
      modifies this
      ensures ok ==> |cur| == |old(cur)| && Valid() && RootFits(Img(), i) && Wrote(f, Img(), i, off, done + c)
      ensures ok ==> Tracked(t, tx, Overhead(sb, cur[i]), S') && |S'| <= |S| + 1 && InBitmap(Img().bit, S')
      ensures !ok ==> bn >= MAXFILE || DiskFull(sb, view)
    {
      hide Image.PtrsOwn, Image.OwnersPoint, Image.BitsMatch, Image.NoHoles, LowFirst, BitsOf, DinosOf, Overlaid, Adds,
        Flatten, Reach, Bitmaps;
      ghost var g, t1, pos := Img(), tx, off + |done|;
      ghost var b;
      ok, b := WriteBlock(i, pos, bn, at, c);
      S' := S + {b as int};
      if ok {
        WroteTrans(f, g, Img(), i, off, done, pos, c);
        InBitmapLater(g.bit, Img().bit, S);
        TrackedStep(t, t1, tx, Overhead(sb, g.cur[i]), Overhead(sb, cur[i]), S, b);
      }
    }

    /** Every inode is settled: its block map ends where its size does, and memory and disk agree. */
    ghost predicate Quiet()
      reads this
    {
      Valid() && Settled(Img())
    }

    /** writei's loop: store all of `src` at `off`.  S is the set of data blocks logged; a write of
    n bytes touches fewer than n / BSIZE + 2 of them. */
    method WriteAll(i: Word, src: seq<byte>, off: nat) returns (ok: bool, ghost S: set<int>)
      requires Quiet() && i < |cur| && off <= cur[i].size && off + |src| <= MAXFILE * BSIZE
      modifies this
      ensures ok ==> |cur| == |old(cur)| && Valid() && RootFits(Img(), i) && Wrote(old(Img()), Img(), i, off, src)
      ensures ok ==> Tracked(old(tx), tx, Overhead(sb, cur[i]), S)
      ensures ok ==> FewBlocks(|S|, |src|, |src|) && InBitmap(Img().bit, S)
      ensures !ok ==> DiskFull(sb, view)
    {
      hide Image.PtrsOwn, Image.OwnersPoint, Image.BitsMatch, Image.NoHoles, Progress, Wrote, BitsOf, DinosOf, Tracked,
        Overhead, FewBlocks, InBitmap;
      ghost var f := Img();
      var tot := 0;
      S := {};
      ghost var q := 0;
      assert SettledAt(f, i);
      ProgressStart(f, i, off, src);
      TrackedNone(tx, Overhead(sb, cur[i]));
      while tot < |src|
        invariant 0 <= tot <= |src| && Valid() && Progress(f, Img(), i, off, src, tot, S, q)
        invariant i < |cur| && Tracked(old(tx), tx, Overhead(sb, cur[i]), S)
      {
        ok, tot, S, q := WriteStep(f, old(tx), i, src, off, tot, S, q);
        if !ok {
          return;
        }
      }
      ProgressEnd(f, Img(), i, off, src, tot, S, q);
      ok := true;
    }

    /** One pass of that loop. */
    method WriteStep(ghost f: Image, ghost t: Tx, i: Word, src: seq<byte>, off: nat, tot: nat, ghost S: set<int>,
        ghost q: nat)
      returns (ok: bool, tot': nat, ghost S': set<int>, ghost q': nat)
      requires Valid() && Progress(f, Img(), i, off, src, tot, S, q) && tot < |src| && i < |cur|
      requires Tracked(t, tx, Overhead(sb, cur[i]), S)
      modifies this
      ensures tot < tot' <= |src|
      ensures ok ==> Valid() && Progress(f, Img(), i, off, src, tot', S', q')
      ensures ok ==> i < |cur| && Tracked(t, tx, Overhead(sb, cur[i]), S')
      ensures !ok ==> off + |src| > MAXFILE * BSIZE || DiskFull(sb, view)
    {
      hide Image.PtrsOwn, Image.OwnersPoint, Image.BitsMatch, Image.NoHoles, Progress, Wrote, BitsOf, DinosOf, Tracked,
        Overhead, FewBlocks, InBitmap, RootFits;
      ghost var g := Img();
      ProgressFacts(f, g, i, off, src, tot, S, q);
      var bn, at, m := BlockAt(off + tot, |src| - tot, nblk[i]);
      tot' := tot + m;
      q' := bn + 1;
      ok, S' := WriteNext(f, t, i, off, src[..tot], S, bn, at, src[tot..tot']);
      if ok {
        ProgressStep(f, g, Img(), i, off, src, tot, S, q, bn, at, S', tot');
      }
    }

    /** Give an inode its new size and copy it to its inode block. */
    method SetSize(i: Word, size: Word)
      requires Valid() && i < |cur|
      modifies this`view, this`cur, this`tx
      ensures Shaped() && |cur| == |old(cur)| && SameData(sb, old(view), view)
      ensures Img() == Resized(old(Img()), i, size, view)
      ensures Adds(old(tx), tx, {sb.IBlock(i)}) && RootSet(cur[i]) == RootSet(old(cur[i]))
    {
      cur := cur[i := cur[i].(size := size)];
      Iupdate(i);
    }

    /** writei once the range has been accepted.  Returns false where the source panics. */
    method WriteRange(i: Word, src: seq<byte>, off: nat) returns (ok: bool, ghost S: set<int>)
      requires Quiet() && i < |cur| && off <= cur[i].size && off + |src| <= MAXFILE * BSIZE
      modifies this
      ensures ok ==> Valid() && |cur| == |old(cur)| && Stored(old(Img()), Img(), i, off, src)
      ensures ok ==> Adds(old(tx), tx, Overhead(sb, cur[i]) + S + {sb.IBlock(i)}) && FewBlocks(|S|, |src|, |src|)
      ensures ok ==> InBitmap(Img().bit, S)
      ensures !ok ==> DiskFull(sb, view)
    {
      ghost var f := Img();
      assert SettledAt(f, i);
      var size := cur[i].size;
      ok, S := WriteAll(i, src, off);
      if ok {
        ghost var g, t, base := Img(), tx, Overhead(sb, cur[i]) + S;
        var end := off + |src|;
        if |src| > 0 && end > size {
          SetSize(i, end);
          WrotePast(f, g, Img(), i, off, src, end);
          AddsTrans(old(tx), t, tx, base, {sb.IBlock(i)});
        } else {
          WroteInside(f, g, i, off, src);
          AddsMono(old(tx), tx, base, base + {sb.IBlock(i)});
        }
      }
    }

    /** Write to a file.  The result is the number of bytes written, -1 if refused, or None where the
    source panics for want of disk blocks. */
    method Writei(i: Word, src: seq<byte>, off: Word) returns (r: Option<int>)
      requires Quiet() && i < |cur| && cur[i].kind != T_DEV && |src| < TWO32
      modifies this
      ensures r == Some(-1) <==> off > old(cur[i].size) || off + |src| > 140 * 512
      ensures r == Some(-1) ==> Shaped() && Img() == old(Img()) && tx == old(tx)
      ensures r.Some? && r.value != -1 ==>
        r.value == |src| && Quiet() && |cur| == |old(cur)| && Stored(old(Img()), Img(), i, off, src)
      ensures Consistent(old(Img()))
      ensures r.Some? ==> old(tx) <= tx && Did(old(Img()), Img(), WriteOp(i, off, src), tx[|old(tx)|..])
      ensures r.None? ==> DiskFull(sb, view)
    {
      hide Image.PtrsOwn, Image.OwnersPoint, Image.BitsMatch, Image.NoHoles, Settled, Contents, LowFirst, PtrAt, BitsOf,
        DinosOf, Adds, UsesOwn, LogsFew, FewBlocks, InBitmap, Overhead;
      var n := |src|;
      Wraps(off, n);
      ghost var f := Img();
      ImageDecoded(sb, view, cur, own, nblk);
      if off > cur[i].size || (off + n) % TWO32 < off {
        Refuses(f, i, off, src, tx);
        return Some(-1);
      }
      if off + n > MAXFILE * BSIZE {
        Refuses(f, i, off, src, tx);
        return Some(-1);
      }
      ghost var v := view;
      var ok, S := WriteRange(i, src, off);
      if ok {
        ImageDecoded(sb, view, cur, own, nblk);
        AddsExtends(old(tx), tx, Overhead(sb, cur[i]) + S + {sb.IBlock(i)});
        JournalStep(base, old(tx), v, tx, view);
        WriteDone(f, Img(), i, off, src, old(tx), tx, S);
      }
      return if ok then Some(n) else None;
    }

    /** One pass of readi's loop: the bytes of one block, which bmap finds already mapped. */
    method ReadStep(i: Word, pos: nat, left: nat) returns (c: seq<byte>, pos': nat)
      requires Quiet() && i < |cur| && 0 < left && pos + left <= cur[i].size
      modifies this
      ensures Shaped() && Img() == old(Img()) && tx == old(tx)
      ensures pos < pos' <= pos + left && c == Contents(Img(), i)[pos..pos']
    {
      ghost var f := Img();
      assert SettledAt(f, i);
      var bn, at, m := BlockAt(pos, left, nblk[i]);
      pos' := pos + m;
      ReadSlice(f, i, pos, bn, at, m, pos');
      var r := Bmap(i, bn);
      c := view[r.value][at..at + m];
    }

    /** Read from a file: the part of the range that lies in it, or None (-1) if refused.  Although
    readi calls bmap, it allocates nothing and logs nothing. */
    method Readi(i: Word, off: Word, n: Word) returns (r: Option<seq<byte>>)
      requires Quiet() && i < |cur| && cur[i].kind != T_DEV
      modifies this
      ensures Shaped() && Img() == old(Img()) && tx == old(tx)
      ensures r.None? <==> off > cur[i].size || off + n >= TWO32
      ensures r.Some? ==> r.value == Contents(Img(), i)[off..if off + n > cur[i].size then cur[i].size else off + n]
    {
      hide Image.PtrsOwn, Image.OwnersPoint, Image.BitsMatch, Image.NoHoles, BitsOf, DinosOf, Contents, PtrAt;
      Wraps(off, n);
      if off > cur[i].size || (off + n) % TWO32 < off {
        return None;
      }
      var end := if off + n > cur[i].size then cur[i].size else off + n;
      ghost var f := Img();
      assert SettledAt(f, i);
      ghost var all := Contents(f, i);
      var pos, dst := off as nat, [];
      while pos < end
        invariant off <= pos <= end <= |all| && Shaped() && Img() == f && tx == old(tx)
        invariant dst == all[off..pos]
      {
        var c, p := ReadStep(i, pos, end - pos);
        SlicesJoin(all, off, pos, p);
        dst, pos := dst + c, p;
      }
      return Some(dst);
    }

    /** Free the block unless the address is zero; the panic for freeing a free block cannot happen. */
    method FreeSlot(ghost f: Image, ghost t: Tx, ghost i: nat, ghost n: nat, addr: Word, ghost n': nat)
        returns (ok: bool)
      requires f.Ok() && i < |f.cur| && n < SLOTS && n' == n + 1 && Ranked(n) < SLOTS && addr == f.P(i, Ranked(n))
      requires Shaped() && Freeing(f, i, n, view, t, tx, sb)
      modifies this`view, this`tx
      ensures ok && Shaped() && Freeing(f, i, n', view, t, tx, sb)
    {
      FreeNext(f, i, n, n');
      ok := true;
      if addr != 0 {
        ghost var t1 := tx;
        ok := Bfree(addr);
        AddsBitmap(sb, t, t1, addr, view[sb.BBlock(addr)]);
      }
    }

    /** itrunc's first loop: the direct blocks. */
    method FreeDirect(ghost f: Image, i: Word) returns (ok: bool)
      requires Valid() && f == Img() && i < |cur|
      modifies this`view, this`tx, this`cur
      ensures ok && Shaped() && Freeing(f, i, NDIRECT, view, old(tx), tx, sb)
      ensures DirectClearedAt(f.cur, cur, i, NDIRECT)
    {
      var s := 0;
      ok := true;
      FreedNone(f, i);
      while s < NDIRECT
        invariant 0 <= s <= NDIRECT && ok && Shaped() && Freeing(f, i, s, view, old(tx), tx, sb)
        invariant DirectClearedAt(f.cur, cur, i, s)
      {
        var s' := s + 1;
        ClearNext(f.cur, cur, i, s, s');
        ok := FreeSlot(f, old(tx), i, s, cur[i].addrs[s], s');
        cur := cur[i := cur[i].(addrs := cur[i].addrs[s := 0])];
        s := s';
      }
    }

    /** itrunc's second loop: the blocks named in the indirect block. */
    method FreeEntries(ghost f: Image, ghost t: Tx, i: Word, root: Word) returns (ok: bool)
      requires f.Ok() && i < |f.cur| && root == f.P(i, NDIRECT) != 0 && Shaped()
      requires Freeing(f, i, NDIRECT, view, t, tx, sb)
      modifies this`view, this`tx
      ensures ok && Shaped() && Freeing(f, i, MAXFILE, view, t, tx, sb)
    {
      ok := true;
      assert root == f.cur[i].addrs[NDIRECT] && root in f.own;
      var bp := view[root];
      var n: nat := NDIRECT;
      while n < MAXFILE
        invariant NDIRECT <= n <= MAXFILE && ok && Shaped() && Freeing(f, i, n, view, t, tx, sb)
      {
        var j, n' := n - NDIRECT, n + 1;
        EntryAt(f, i, n, j);
        ok := FreeSlot(f, t, i, n, GetWord(bp, j), n');
        n := n';
      }
    }

    /** The indirect part of itrunc. */
    method FreeIndirect(ghost f: Image, ghost t: Tx, i: Word, root: Word) returns (ok: bool)
      requires f.Ok() && i < |f.cur| && root == f.P(i, NDIRECT) && Shaped() && Freeing(f, i, NDIRECT, view, t, tx, sb)
      modifies this`view, this`tx
      ensures ok && Shaped() && Freeing(f, i, SLOTS, view, t, tx, sb)
    {
      if root != 0 {
        ok := FreeEntries(f, t, i, root);
        ok := FreeSlot(f, t, i, MAXFILE, root, SLOTS);
      } else {
        FreedDirect(f, i);
        ok := true;
      }
    }

    /** The end of itrunc: addrs and size cleared, iupdate. */
    method ClearInode(ghost f: Image, ghost t: Tx, i: Word)
      requires f.Ok() && i < |f.cur| && Shaped() && Freeing(f, i, SLOTS, view, t, tx, sb)
      requires DirectClearedAt(f.cur, cur, i, NDIRECT)
      modifies this`view, this`tx, this`cur
      ensures Shaped() && cur == f.cur[i := Emptied(f.cur[i])] && SameData(sb, f.v, view)
      ensures BitsOf(sb, view) == Freed(f, i, SLOTS) && DinosOf(sb, view) == f.dino[i := Emptied(f.cur[i])]
      ensures Adds(t, tx, Bitmaps(sb) + {sb.IBlock(i)})
    {
      hide Image.PtrsOwn, Image.OwnersPoint, Image.BitsMatch, Image.NoHoles, DirectCleared, BitsOf, DinosOf, Adds, Bitmaps,
        SameData, Freed;
      ghost var t1, v := tx, view;
      ClearedIs(f.cur, cur, i);
      cur := cur[i := cur[i].(size := 0, addrs := cur[i].addrs[NDIRECT := 0])];
      Iupdate(i);
      SameDataTrans(sb, f.v, v, view);
      AddsTrans(t, t1, tx, Bitmaps(sb), {sb.IBlock(i)});
    }

    /** itrunc's work on blocks and inode. */
    method FreeBlocks(ghost f: Image, i: Word) returns (ok: bool)
      requires Valid() && f == Img() && i < |cur|
      modifies this`view, this`tx, this`cur
      ensures ok && Shaped() && cur == f.cur[i := Emptied(f.cur[i])] && SameData(sb, f.v, view)
      ensures BitsOf(sb, view) == Freed(f, i, SLOTS) && DinosOf(sb, view) == f.dino[i := Emptied(f.cur[i])]
      ensures Adds(old(tx), tx, Bitmaps(sb) + {sb.IBlock(i)})
    {
      ok := FreeDirect(f, i);
      assert f.P(i, NDIRECT) == cur[i].addrs[NDIRECT];
      ok := FreeIndirect(f, old(tx), i, cur[i].addrs[NDIRECT]);
      ClearInode(f, old(tx), i);
    }

    /** Discard a file's contents.  bfree's panic cannot happen. */
    method Itrunc(i: Word) returns (ok: bool)
      requires Quiet() && i < |cur|
      modifies this
      ensures ok && Quiet() && Img() == Truncated(old(Img()), i, view)
      ensures forall j: nat :: j < |cur| ==> Contents(Img(), j) == if j == i then [] else Contents(old(Img()), j)
      ensures Adds(old(tx), tx, Bitmaps(sb) + {sb.IBlock(i)})
      ensures Consistent(old(Img())) && old(tx) <= tx && Did(old(Img()), Img(), TruncOp(i), tx[|old(tx)|..])
    {
      hide Image.PtrsOwn, Image.OwnersPoint, Image.BitsMatch, Image.NoHoles, SettledAt, PtrAt, BitsOf, DinosOf, Adds,
        UsesOwn, LogsFew, Truncated, SameData, Contents, Emptied, Freed;
      ghost var f := Img();
      ImageDecoded(sb, view, cur, own, nblk);
      ok := FreeBlocks(f, i);
      ghost var g := Truncated(f, i, view);
      own, nblk := g.own, g.nblk;
      TruncSettled(f, i, view);
      TruncatedIs(f, i, sb, view, cur);
      ImageDecoded(sb, view, cur, own, nblk);
      AddsExtends(old(tx), tx, Bitmaps(sb) + {sb.IBlock(i)});
      JournalStep(base, old(tx), f.v, tx, view);
      TruncTakesNone(f, i, view);
      TruncDone(f, g, i, old(tx), tx);
    }

    /** One chunk of filewrite: a transaction of its own, of at most CHUNK bytes. */
    method WriteChunk(i: Word, src: seq<byte>, off: Word) returns (r: Option<int>)
      requires Quiet() && i < |cur| && cur[i].kind != T_DEV && |src| <= CHUNK
      modifies this
      ensures r.Some? ==> Shaped() && ChunkDone(old(Img()), Img(), i, off, src, old(tx), tx, r.value)
      ensures r.None? ==> !Refused(old(cur[i]), off, |src|) && DiskFull(sb, view)
    {
      hide Image.PtrsOwn, Image.OwnersPoint, Image.BitsMatch, Image.NoHoles, SettledAt, PtrAt, BitsOf, DinosOf, Contents,
        Sectors, UsesOwn, LowFirst;
      r := Writei(i, src, off);
    }

    /** One pass of filewrite's loop, from data[n..] at file position pos: not ok where the source
    panics, go false if writei refused. */
    method NextChunk(ghost f: Image, ghost was: Tx, i: Word, data: seq<byte>, ghost off: nat, n: nat, pos: Word,
        ghost h: History)
      returns (ok: bool, go: bool, m: nat, pos': Word, ghost h': History)
      requires Shaped() && Chunking(f, Img(), i, off, data, n, pos, true, was, tx, h) && f.cur[i].kind != T_DEV
      requires n < |data|
      modifies this
      ensures ok ==> Shaped() && Chunking(f, Img(), i, off, data, m, pos', go, was, tx, h') && (go ==> n < m)
      ensures !ok ==> DiskFull(sb, view)
    {
      hide Image.PtrsOwn, Image.OwnersPoint, Image.BitsMatch, Image.NoHoles, SettledAt, Journaled, LoggedAs, Stored,
        BitsOf, DinosOf, PtrAt, Did, Performs, ChunkDone;
      m := n + ChunkSize(|data| - n);
      WrittenKind(f, Img(), i, off, data, n);
      ghost var g, t := Img(), tx;
      var c := WriteChunk(i, data[n..m], pos);
      ok := c.Some?;
      go, pos', h' := true, pos, h;
      if ok {
        ChunkNext(f, g, Img(), i, off, data, n, pos, was, t, tx, h, m, c.value);
        h' := Extend(h, Img(), WriteOp(i, pos, data[n..m]), tx[|t|..]);
        go := c.value >= 0;
        m := if go then m else n;
        pos' := if go then pos + c.value else pos;
      }
    }

    /** filewrite's loop: chunk after chunk, each a transaction, until done or refused.  n bytes were
    written, by the transactions of h; false where the source panics. */
    method WriteChunks(i: Word, data: seq<byte>, off: Word) returns (ok: bool, n: nat, pos: Word, ghost h: History)
      requires Quiet() && i < |cur| && cur[i].kind != T_DEV
      modifies this
      ensures ok ==> Shaped() && Chunking(old(Img()), Img(), i, off, data, n, pos, n == |data|, old(tx), tx, h)
      ensures !ok ==> DiskFull(sb, view)
    {
      hide Image.PtrsOwn, Image.OwnersPoint, Image.BitsMatch, Image.NoHoles, SettledAt, Journaled, Stored, BitsOf, DinosOf,
        PtrAt, Did;
      ghost var f := Img();
      ImageDecoded(sb, view, cur, own, nblk);
      ok, n, pos, h := true, 0, off, History([f], [], []);
      var go := true;
      while ok && go && n < |data|
        invariant ok ==> Shaped() && Chunking(f, Img(), i, off, data, n, pos, go, old(tx), tx, h)
        invariant !ok ==> DiskFull(sb, view)
        decreases ok, go, |data| - n
      {
        ok, go, n, pos, h := NextChunk(f, old(tx), i, data, off, n, pos, h);
      }
    }

    /** Write to an open file at its offset.  The result is |data|, or -1 if the file is not writable
    or a chunk was refused (the chunks before it stay written), or None where the source panics. */
    method Filewrite(i: Word, data: seq<byte>, off: Word, writable: bool)
      returns (r: Option<int>, off': Word, n: nat, ghost h: History)
      requires Quiet() && i < |cur| && cur[i].kind != T_DEV
      modifies this
      ensures r.Some? ==> Shaped() && Written(old(Img()), Img(), i, off, data, n) && off' == off + n
      ensures r.Some? ==> r.value == if writable && n == |data| then n else -1
      ensures r.Some? && !writable ==> n == 0
      ensures r.Some? && writable && n < |data| ==> Refused(cur[i], off', ChunkSize(|data| - n))
      ensures r.Some? ==> Performs(h, old(Img()), Img()) && LoggedAs(old(tx), tx, h.txs, sb)
      ensures r.None? ==> DiskFull(sb, view)
    {
      hide Image.PtrsOwn, Image.OwnersPoint, Image.BitsMatch, Image.NoHoles, SettledAt, Journaled, Stored, BitsOf, DinosOf,
        PtrAt, Did;
      if !writable {
        ImageDecoded(sb, view, cur, own, nblk);
        return Some(-1), off, 0, History([Img()], [], []);
      }
      var ok;
      ok, n, off', h := WriteChunks(i, data, off);
      var count: int := if n == |data| then n else -1;
      r := if ok then Some(count) else None;
    }
  }

  // ----- A disk as mkfs leaves it -----

  /** With the bitmap mkfs writes for n used blocks, block n is the lowest free one. */
  lemma MkfsLowest(sb: Superblock, v: seq<Block>, n: nat)
    requires sb.Wf() && sb.size <= |v| && n < sb.size < BPB && v[sb.ninodes / 8 + 3] == FirstBits(n)
    ensures LowestFree(BitsOf(sb, v), n)
  {
    hide BitAt, FirstBits;
    forall b: nat | b < sb.size ensures BitsOf(sb, v)[b] <==> b < n {
      assert b / BPB == 0 && b % BPB == b;
      FirstBitsAre(n, b);
    }
  }

  /** balloc on such a disk takes the first block that mkfs left free. */
  method BallocAfterMkfs(fs: FileSystem, n: nat) returns (r: Option<Word>)
    requires fs.Shaped() && fs.sb.DataStart() <= n < fs.sb.size < BPB && fs.view[fs.sb.ninodes / 8 + 3] == FirstBits(n)
    modifies fs
    ensures r == Some(n)
  {
    hide FirstBits, BitsOf;
    ghost var bits := BitsOf(fs.sb, fs.view);
    MkfsLowest(fs.sb, fs.view, n);
    r := fs.Balloc();
  }

  // ----- A file system whose only free blocks are in its log -----

  /** Boot, super, inode and bitmap block, and then the log. */
  const ONLY_LOG := Superblock(14, 0, 1, 10)

  lemma {:induction false} ZeroBitOf(k: nat)
    ensures !BitOf(0, k)
  {
    if k > 0 {
      ZeroBitOf(k - 1);
    }
  }

  lemma ZeroBit(k: nat)
    requires k < BPB
    ensures !BitAt(ZERO_BLOCK, k)
  {
    ZeroBitOf(k % 8);
  }

  function OnlyLogBitmap(): (b: Block)
    ensures forall k: nat :: k < BPB ==> (BitAt(b, k) <==> k < 4)
  {
    var b1 := SetBitAt(ZERO_BLOCK, 0, true);
    var b2 := SetBitAt(b1, 1, true);
    var b3 := SetBitAt(b2, 2, true);
    assert forall k: nat :: k < BPB ==> (BitAt(SetBitAt(b3, 3, true), k) <==> k < 4) by {
      forall k: nat | k < BPB ensures BitAt(SetBitAt(b3, 3, true), k) <==> k < 4 {
        ZeroBit(k);
        BitRoundTrip(ZERO_BLOCK, 0, true, k);
        BitRoundTrip(b1, 1, true, k);
        BitRoundTrip(b2, 2, true, k);
        BitRoundTrip(b3, 3, true, k);
      }
    }
    SetBitAt(b3, 3, true)
  }

  lemma {:induction false} ZeroGetWords(at: nat, n: nat)
    requires at + n <= WORDS
    ensures forall k :: 0 <= k < n ==> GetWords(ZERO_BLOCK, at, n)[k] == 0
  {
    if n > 0 {
      ZeroGetWords(at, n - 1);
      ZeroWords(at + n - 1);
    }
  }

  function OnlyLogDisk(): (d: Disk)
    ensures |d| == 14 && d[3] == OnlyLogBitmap() && d[2] == ZERO_BLOCK
  {
    [ZERO_BLOCK, ZERO_BLOCK, ZERO_BLOCK, OnlyLogBitmap(), ZERO_BLOCK, ZERO_BLOCK, ZERO_BLOCK,
     ZERO_BLOCK, ZERO_BLOCK, ZERO_BLOCK, ZERO_BLOCK, ZERO_BLOCK, ZERO_BLOCK, ZERO_BLOCK]
  }

  lemma OnlyLogDecodes()
    ensures ONLY_LOG.Wf() && ONLY_LOG.DataStart() == 4 == ONLY_LOG.size - ONLY_LOG.nlog
    ensures forall b :: 0 <= b < 14 ==> (BitsOf(ONLY_LOG, OnlyLogDisk())[b] <==> b < 4)
    ensures var ino := DinosOf(ONLY_LOG, OnlyLogDisk())[0];
      ino.size == 0 && forall s :: 0 <= s <= NDIRECT ==> ino.addrs[s] == 0
  {
    ZeroGetWords(0, RECORD);
  }

  lemma OnlyLogOk()
    ensures ONLY_LOG.Wf()
    ensures var d := OnlyLogDisk();
      var f := Image(ONLY_LOG, BitsOf(ONLY_LOG, d), DinosOf(ONLY_LOG, d), d, DinosOf(ONLY_LOG, d), map[], [0]);
      f.Ok() && Settled(f)
  {
    OnlyLogDecodes();
    var d := OnlyLogDisk();
    var f := Image(ONLY_LOG, BitsOf(ONLY_LOG, d), DinosOf(ONLY_LOG, d), d, DinosOf(ONLY_LOG, d), map[], [0]);
    forall i: nat, s: nat | i < |f.cur| && s < SLOTS ensures f.P(i, s) == 0 {
    }
  }

  /** balloc hands out, and zeroes, the log's header block. */
  method LogBlockHandedOut() returns (r: Option<Word>)
    ensures r == Some(ONLY_LOG.size - ONLY_LOG.nlog)
  {
    OnlyLogOk();
    OnlyLogDecodes();
    var fs := new FileSystem(ONLY_LOG, OnlyLogDisk(), map[], [0]);
    ghost var bits := BitsOf(ONLY_LOG, fs.view);
    assert bits[0] && bits[1] && bits[2] && bits[3] && !bits[4];
    r := fs.Balloc();
    assert r.Some? ==> LowestFree(bits, r.value);
  }
}
