/** A file system image with its inodes, and the invariant that ties them together: which block
is owned by which inode pointer, which bitmap bits are set, which file blocks are mapped. */
module FsImage {
  import opened Blocks
  import opened FsFormat

  /** Pointer slots of an inode: 0..11 direct, 12 the indirect block, 13.. the indirect entries. */
  const SLOTS: nat := MAXFILE + 1

  datatype Ptr = Ptr(i: nat, s: nat)

  /** The slot that maps file block bn. */
  function SlotOf(bn: nat): nat {
    if bn < NDIRECT then bn else bn + 1
  }

  function PtrAt(v: seq<Block>, ino: Inode, s: nat): Word
    requires s < SLOTS
  {
    if s <= NDIRECT then ino.addrs[s]
    else
      var root := ino.addrs[NDIRECT];
      if root == 0 || root >= |v| then 0 else GetWord(v[root], s - NDIRECT - 1)
  }

  /** `bit` and `dino` are the decoded bitmap and inode blocks of `v`; `cur` the inodes as the
  kernel currently has them in memory.  `own` and `nblk` witness the invariant: the pointer that
  owns each allocated data block, and how many blocks each inode has mapped. */
  datatype Image = Image(
    sb: Superblock, bit: seq<bool>, dino: seq<Inode>, v: seq<Block>, cur: seq<Inode>,
    own: map<int, Ptr>, nblk: seq<nat>)
  {
    function P(i: nat, s: nat): Word
      requires i < |cur| && s < SLOTS
    {
      PtrAt(v, cur[i], s)
    }

    predicate Shape() {
      && sb.Wf() && sb.size <= |v| && |bit| == sb.size
      && |cur| == |dino| == |nblk| == sb.ninodes
    }

    /** Every nonzero pointer is its target's only owner. */
    ghost predicate PtrsOwn() {
      forall i: nat, s: nat :: i < |cur| && s < SLOTS && P(i, s) != 0 ==> P(i, s) in own && own[P(i, s)] == Ptr(i, s)
    }

    /** Every owned block is a data block that its owner does point to. */
    ghost predicate OwnersPoint() {
      forall b :: b in own ==>
        sb.DataStart() <= b < sb.size && own[b].i < |cur| && own[b].s < SLOTS && P(own[b].i, own[b].s) == b
    }

    /** A bit is set iff the block is metadata or owned. */
    ghost predicate BitsMatch()
      requires |bit| == sb.size
    {
      forall b :: 0 <= b < sb.size ==> (bit[b] <==> b < sb.DataStart() || b in own)
    }

    /** The mapped blocks of inode i are exactly its first nblk[i]. */
    ghost predicate NoHoles()
      requires |nblk| == |cur|
    {
      && (forall i :: 0 <= i < |cur| ==> nblk[i] <= MAXFILE)
      && forall i: nat, bn: nat :: i < |cur| && bn < MAXFILE ==> (P(i, SlotOf(bn)) != 0 <==> bn < nblk[i])
    }

    ghost predicate Ok() {
      Shape() && PtrsOwn() && OwnersPoint() && BitsMatch() && NoHoles()
    }

    /** The blocks of the file, in order. */
    ghost function Data(i: nat): seq<Block>
      requires Ok() && i < |cur|
    {
      seq(nblk[i], bn requires 0 <= bn < nblk[i] => BlockOf(i, bn))
    }

    ghost function BlockOf(i: nat, bn: nat): Block
      requires Ok() && i < |cur| && bn < nblk[i]
    {
      assert P(i, SlotOf(bn)) != 0;
      v[P(i, SlotOf(bn))]
    }
  }

  const ZERO_BLOCK: Block := ZeroBytes(BSIZE)

  lemma ZeroWords(j: nat)
    requires j < WORDS
    ensures GetWord(ZERO_BLOCK, j) == 0
  {
    assert ZERO_BLOCK[4 * j..4 * j + 4] == [0, 0, 0, 0];
    assert Value([0, 0, 0, 0]) == 0 by {
      assert [0, 0, 0, 0][..3] == [0, 0, 0] && [0, 0, 0][..2] == [0, 0] && [0, 0][..1] == [0] && [0][..0] == [];
    }
  }

  // ----- Metadata writes leave the data blocks alone -----

  predicate SameData(sb: Superblock, v: seq<Block>, v': seq<Block>) {
    |v| == |v'| && forall b :: sb.DataStart() <= b < sb.size <= |v| ==> v'[b] == v[b]
  }

  /** Two images with the same pointers, and the same data blocks, have the same files. */
  lemma SameBlocks(f: Image, g: Image, j: nat)
    requires f.Ok() && g.Ok() && |g.cur| == |f.cur| && j < |f.cur| && g.nblk == f.nblk && g.sb == f.sb
    requires SameData(f.sb, f.v, g.v) && forall s: nat :: s < SLOTS ==> g.P(j, s) == f.P(j, s)
    ensures g.Data(j) == f.Data(j)
  {
    hide Image.BitsMatch;
    forall k: nat | k < f.nblk[j] ensures g.BlockOf(j, k) == f.BlockOf(j, k) {
      assert f.P(j, SlotOf(k)) != 0 && g.P(j, SlotOf(k)) == f.P(j, SlotOf(k));
    }
    assert forall k :: 0 <= k < f.nblk[j] ==> g.Data(j)[k] == f.Data(j)[k];
  }

  lemma InodeFieldsOk(f: Image, i: nat, ino: Inode, v': seq<Block>, dino: seq<Inode>)
    requires f.Ok() && i < |f.cur| && ino.addrs == f.cur[i].addrs && SameData(f.sb, f.v, v') && |dino| == |f.dino|
    ensures var g := f.(v := v', cur := f.cur[i := ino], dino := dino);
      g.Ok() && forall j: nat, s: nat :: j < |f.cur| && s < SLOTS ==> g.P(j, s) == f.P(j, s)
  {
    var g := f.(v := v', cur := f.cur[i := ino], dino := dino);
    forall j: nat, s: nat | j < |f.cur| && s < SLOTS ensures g.P(j, s) == f.P(j, s) {
      assert f.P(j, NDIRECT) == f.cur[j].addrs[NDIRECT];
    }
  }

  /** Inode i's fields other than its block addresses change, in memory and on disk. */
  lemma InodeFields(f: Image, i: nat, ino: Inode, v': seq<Block>, dino: seq<Inode>)
    requires f.Ok() && i < |f.cur| && ino.addrs == f.cur[i].addrs && SameData(f.sb, f.v, v') && |dino| == |f.dino|
    ensures var g := f.(v := v', cur := f.cur[i := ino], dino := dino);
      && (forall j: nat, s: nat :: j < |f.cur| && s < SLOTS ==> g.P(j, s) == f.P(j, s))
      && g.Ok() && forall j: nat :: j < |f.cur| ==> g.Data(j) == f.Data(j)
  {
    InodeFieldsOk(f, i, ino, v', dino);
    hide Image.Ok, SameData, Image.P;
    var g := f.(v := v', cur := f.cur[i := ino], dino := dino);
    forall j: nat | j < |f.cur| ensures g.Data(j) == f.Data(j) {
      SameBlocks(f, g, j);
    }
  }

  // ----- Writing a data block -----

  lemma DataWrite(f: Image, i: nat, bn: nat, x: Block)
    requires f.Ok() && i < |f.cur| && bn < f.nblk[i]
    ensures f.P(i, SlotOf(bn)) != 0
    ensures var g := f.(v := f.v[f.P(i, SlotOf(bn)) := x]);
      && (forall j: nat, s: nat :: j < |f.cur| && s < SLOTS ==> g.P(j, s) == f.P(j, s))
      && g.Ok()
  {
    var b := f.P(i, SlotOf(bn));
    assert b != 0;
    var g := f.(v := f.v[b := x]);
    forall j: nat, s: nat | j < |f.cur| && s < SLOTS ensures g.P(j, s) == f.P(j, s) {
      assert f.P(j, NDIRECT) == f.cur[j].addrs[NDIRECT];
    }
  }

  lemma DataWriteBlock(f: Image, i: nat, bn: nat, x: Block, j: nat, k: nat)
    requires f.Ok() && i < |f.cur| && bn < f.nblk[i] && j < |f.cur| && k < f.nblk[j]
    ensures var g := f.(v := f.v[f.P(i, SlotOf(bn)) := x]);
      f.P(i, SlotOf(bn)) != 0 && g.Ok() && g.BlockOf(j, k) == if j == i && k == bn then x else f.BlockOf(j, k)
  {
    DataWrite(f, i, bn, x);
    var b, c := f.P(i, SlotOf(bn)), f.P(j, SlotOf(k));
    assert c != 0 && f.own[c] == Ptr(j, SlotOf(k)) && f.own[b] == Ptr(i, SlotOf(bn));
    assert f.(v := f.v[b := x]).P(j, SlotOf(k)) == c;
  }

  /** Only that block of that file changes. */
  lemma DataWriteContents(f: Image, i: nat, bn: nat, x: Block, j: nat)
    requires f.Ok() && i < |f.cur| && bn < f.nblk[i] && j < |f.cur|
    ensures var g := f.(v := f.v[f.P(i, SlotOf(bn)) := x]);
      f.P(i, SlotOf(bn)) != 0 && g.Ok() && g.Data(j) == if j == i then f.Data(i)[bn := x] else f.Data(j)
  {
    DataWrite(f, i, bn, x);
    var g := f.(v := f.v[f.P(i, SlotOf(bn)) := x]);
    var want := if j == i then f.Data(i)[bn := x] else f.Data(j);
    forall k: nat | k < f.nblk[j] ensures g.Data(j)[k] == want[k] {
      DataWriteBlock(f, i, bn, x, j, k);
    }
  }

  lemma DataWriteAll(f: Image, i: nat, bn: nat, x: Block)
    requires f.Ok() && i < |f.cur| && bn < f.nblk[i]
    ensures f.P(i, SlotOf(bn)) != 0 && f.sb.DataStart() <= f.P(i, SlotOf(bn)) < f.sb.size
    ensures f.Data(i)[bn] == f.v[f.P(i, SlotOf(bn))]
    ensures var g := f.(v := f.v[f.P(i, SlotOf(bn)) := x]);
      g.Ok() && forall j: nat :: j < |f.cur| ==> g.Data(j) == if j == i then f.Data(i)[bn := x] else f.Data(j)
  {
    DataWrite(f, i, bn, x);
    var g := f.(v := f.v[f.P(i, SlotOf(bn)) := x]);
    forall j: nat | j < |f.cur| ensures g.Data(j) == if j == i then f.Data(i)[bn := x] else f.Data(j) {
      DataWriteContents(f, i, bn, x, j);
    }
  }

  // ----- Allocating a block and linking it in -----

  /** Pointer s of inode i, until now zero, becomes b; every other pointer is as before. */
  ghost predicate Linked(f: Image, g: Image, i: nat, s: nat, b: nat)
    requires |f.cur| == |g.cur|
  {
    forall j: nat, t: nat :: j < |f.cur| && t < SLOTS ==> g.P(j, t) == if j == i && t == s then b else f.P(j, t)
  }

  lemma LinkOk(f: Image, g: Image, i: nat, s: nat, b: nat)
    requires f.Ok() && g.Shape() && g.sb == f.sb && |g.cur| == |f.cur|
    requires i < |f.cur| && s < SLOTS && b < f.sb.size && !f.bit[b] && f.P(i, s) == 0
    requires Linked(f, g, i, s, b) && g.own == f.own[b := Ptr(i, s)] && g.bit == f.bit[b := true]
    requires if s == NDIRECT then g.nblk == f.nblk
             else f.nblk[i] < MAXFILE && s == SlotOf(f.nblk[i]) && g.nblk == f.nblk[i := f.nblk[i] + 1]
    ensures g.Ok()
  {
    assert f.sb.DataStart() <= b && b !in f.own;
    assert g.P(i, s) == b;
    forall k: nat, bn: nat | k < |g.cur| && bn < MAXFILE ensures g.P(k, SlotOf(bn)) != 0 <==> bn < g.nblk[k] {
      assert f.P(k, SlotOf(bn)) != 0 <==> bn < f.nblk[k];
      if s == SlotOf(f.nblk[i]) {
        assert SlotOf(bn) == s <==> bn == f.nblk[i];
      }
    }
  }

  /** What linking in block b must leave alone: blocks other than indirect ones. */
  ghost predicate KeepsBlocks(f: Image, g: Image) {
    |g.v| == |f.v| && forall c: nat :: c in f.own && f.own[c].s != NDIRECT ==> c < |f.v| && g.v[c] == f.v[c]
  }

  /** Pointer s of inode i gains the zeroed block b, at the end of the file or as indirect block. */
  ghost predicate Gains(f: Image, g: Image, i: nat, s: nat, b: nat) {
    && f.Shape() && |g.cur| == |f.cur| && i < |f.cur| && s < SLOTS && b < f.sb.size <= |g.v| && f.P(i, s) == 0
    && Linked(f, g, i, s, b) && g.v[b] == ZERO_BLOCK && KeepsBlocks(f, g)
    && if s == NDIRECT then g.nblk == f.nblk
       else f.nblk[i] < MAXFILE && s == SlotOf(f.nblk[i]) && g.nblk == f.nblk[i := f.nblk[i] + 1]
  }

  lemma LinkBlock(f: Image, g: Image, i: nat, s: nat, b: nat, j: nat, k: nat)
    requires f.Ok() && g.Ok() && Gains(f, g, i, s, b) && j < |f.cur| && k < f.nblk[j] <= g.nblk[j]
    ensures g.BlockOf(j, k) == f.BlockOf(j, k)
  {
    hide Image.BitsMatch, Image.OwnersPoint;
    var t := SlotOf(k);
    var c := f.P(j, t);
    assert c != 0 && f.own[c] == Ptr(j, t);
    assert g.P(j, t) == c;
  }

  lemma LinkNew(f: Image, g: Image, i: nat, s: nat, b: nat)
    requires f.Ok() && g.Ok() && Gains(f, g, i, s, b) && s != NDIRECT
    ensures g.BlockOf(i, f.nblk[i]) == ZERO_BLOCK
  {
    hide Image.BitsMatch, Image.OwnersPoint, Image.PtrsOwn;
  }

  /** The file gains a zeroed block at its end (or, for the indirect block, nothing); no other
  block of any file moves or changes. */
  lemma LinkContents(f: Image, g: Image, i: nat, s: nat, b: nat, j: nat)
    requires f.Ok() && g.Ok() && Gains(f, g, i, s, b) && j < |f.cur|
    ensures g.Data(j) == if j == i && s != NDIRECT then f.Data(i) + [ZERO_BLOCK] else f.Data(j)
  {
    hide Image.Ok, Linked, KeepsBlocks, Image.P, Image.BlockOf;
    var want := if j == i && s != NDIRECT then f.Data(i) + [ZERO_BLOCK] else f.Data(j);
    forall k: nat | k < f.nblk[j] ensures g.Data(j)[k] == want[k] {
      LinkBlock(f, g, i, s, b, j, k);
    }
    if j == i && s != NDIRECT {
      LinkNew(f, g, i, s, b);
    }
  }

  lemma LinkAll(f: Image, g: Image, i: nat, s: nat, b: nat)
    requires f.Ok() && g.Ok() && |g.cur| == |f.cur| && Gains(f, g, i, s, b)
    ensures forall j: nat :: j < |f.cur| ==>
      g.Data(j) == if j == i && s != NDIRECT then f.Data(i) + [ZERO_BLOCK] else f.Data(j)
  {
    hide Image.Ok, Gains;
    forall j: nat | j < |f.cur|
      ensures g.Data(j) == if j == i && s != NDIRECT then f.Data(i) + [ZERO_BLOCK] else f.Data(j)
    {
      LinkContents(f, g, i, s, b, j);
    }
  }

  /** A direct block, or the indirect block itself. */
  ghost function GrowAddr(f: Image, i: nat, s: nat, b: Word, v: seq<Block>): Image
    requires f.Shape() && i < |f.cur| && s <= NDIRECT && b < f.sb.size
  {
    f.(bit := f.bit[b := true], v := v,
       cur := f.cur[i := f.cur[i].(addrs := f.cur[i].addrs[s := b])],
       own := f.own[b := Ptr(i, s)],
       nblk := if s == NDIRECT then f.nblk else f.nblk[i := f.nblk[i] + 1])
  }

  lemma GrowAddrLinked(f: Image, i: nat, s: nat, b: Word, v: seq<Block>)
    requires f.Ok() && i < |f.cur| && b < f.sb.size && !f.bit[b] && s <= NDIRECT
    requires SameData(f.sb, f.v[b := ZERO_BLOCK], v)
    requires if s == NDIRECT then f.P(i, NDIRECT) == 0 && f.nblk[i] <= NDIRECT else s == f.nblk[i]
    ensures Linked(f, GrowAddr(f, i, s, b, v), i, s, b)
  {
    var g := GrowAddr(f, i, s, b, v);
    assert f.P(i, SlotOf(s)) == 0;
    forall j: nat, t: nat | j < |f.cur| && t < SLOTS ensures g.P(j, t) == if j == i && t == s then b else f.P(j, t) {
      assert f.P(j, NDIRECT) == f.cur[j].addrs[NDIRECT];
      if j == i && s == NDIRECT && t > NDIRECT {
        ZeroWords(t - NDIRECT - 1);
      }
    }
  }

  /** Data blocks other than b and root are as they were. */
  predicate WroteOnly(sb: Superblock, v: seq<Block>, v': seq<Block>, b: int, root: int) {
    |v'| == |v| && forall c :: sb.DataStart() <= c < sb.size <= |v| && c != b && c != root ==> v'[c] == v[c]
  }

  /** Only the new block b and an indirect block differ. */
  lemma KeepsOthers(f: Image, g: Image, b: int, root: int)
    requires f.Ok() && b !in f.own && (root in f.own ==> f.own[root].s == NDIRECT)
    requires WroteOnly(f.sb, f.v, g.v, b, root)
    ensures KeepsBlocks(f, g)
  {
    hide Image.PtrsOwn, Image.BitsMatch, Image.NoHoles;
  }

  lemma GrowAddrOk(f: Image, i: nat, s: nat, b: Word, v: seq<Block>)
    requires f.Ok() && i < |f.cur| && b < f.sb.size && !f.bit[b] && s <= NDIRECT
    requires SameData(f.sb, f.v[b := ZERO_BLOCK], v)
    requires if s == NDIRECT then f.P(i, NDIRECT) == 0 && f.nblk[i] <= NDIRECT else s == f.nblk[i]
    ensures var g := GrowAddr(f, i, s, b, v);
      && Linked(f, g, i, s, b) && g.Ok()
      && forall j :: 0 <= j < |f.cur| ==>
        g.Data(j) == if j == i && s != NDIRECT then f.Data(i) + [ZERO_BLOCK] else f.Data(j)
  {
    var g := GrowAddr(f, i, s, b, v);
    GrowAddrLinked(f, i, s, b, v);
    hide Linked;
    assert f.P(i, SlotOf(s)) == 0;
    LinkOk(f, g, i, s, b);
    KeepsOthers(f, g, b, b);
    hide Image.Ok, KeepsBlocks;
    LinkAll(f, g, i, s, b);
  }

  lemma WritesOnly(sb: Superblock, v: seq<Block>, b: nat, root: nat, x: Block, v': seq<Block>)
    requires sb.Wf() && sb.size <= |v| && sb.DataStart() <= b < sb.size && root < |v| && root != b
    requires SameData(sb, v[b := ZERO_BLOCK][root := x], v')
    ensures WroteOnly(sb, v, v', b, root) && v'[b] == ZERO_BLOCK
  {
  }

  /** A block found through the indirect block. */
  ghost function GrowEntry(f: Image, i: nat, b: Word, v: seq<Block>): Image
    requires f.Shape() && i < |f.cur| && b < f.sb.size
  {
    f.(bit := f.bit[b := true], v := v,
       own := f.own[b := Ptr(i, f.nblk[i] + 1)],
       nblk := f.nblk[i := f.nblk[i] + 1])
  }

  lemma GrowEntryLinked(f: Image, i: nat, b: Word, v: seq<Block>)
    requires f.Ok() && i < |f.cur| && b < f.sb.size && !f.bit[b]
    requires NDIRECT <= f.nblk[i] < MAXFILE && f.P(i, NDIRECT) != 0
    requires var root := f.P(i, NDIRECT);
      SameData(f.sb, f.v[b := ZERO_BLOCK][root := SetWord(f.v[root], f.nblk[i] - NDIRECT, b)], v)
    ensures Linked(f, GrowEntry(f, i, b, v), i, f.nblk[i] + 1, b)
  {
    var g, s, root := GrowEntry(f, i, b, v), f.nblk[i] + 1, f.P(i, NDIRECT);
    assert SlotOf(f.nblk[i]) == s && f.P(i, SlotOf(f.nblk[i])) == 0;
    assert root in f.own && root != b;
    forall j: nat, t: nat | j < |f.cur| && t < SLOTS ensures g.P(j, t) == if j == i && t == s then b else f.P(j, t) {
      assert f.P(j, NDIRECT) == f.cur[j].addrs[NDIRECT];
      if j == i && t > NDIRECT {
        WordRoundTrip(f.v[root], s - NDIRECT - 1, b, t - NDIRECT - 1);
      }
    }
  }

  lemma EntryFacts(f: Image, i: nat, b: Word)
    requires f.Ok() && i < |f.cur| && b < f.sb.size && !f.bit[b]
    requires NDIRECT <= f.nblk[i] < MAXFILE && f.P(i, NDIRECT) != 0
    ensures f.Shape() && f.P(i, f.nblk[i] + 1) == 0 && f.sb.DataStart() <= b && b !in f.own
    ensures var root := f.P(i, NDIRECT); root in f.own && root != b && f.own[root].s == NDIRECT
  {
    assert f.P(i, SlotOf(f.nblk[i])) == 0;
  }

  lemma GrowEntryGains(f: Image, i: nat, b: Word, v: seq<Block>)
    requires f.Ok() && i < |f.cur| && b < f.sb.size && !f.bit[b]
    requires NDIRECT <= f.nblk[i] < MAXFILE && f.P(i, NDIRECT) != 0
    requires var root := f.P(i, NDIRECT);
      SameData(f.sb, f.v[b := ZERO_BLOCK][root := SetWord(f.v[root], f.nblk[i] - NDIRECT, b)], v)
    ensures Gains(f, GrowEntry(f, i, b, v), i, f.nblk[i] + 1, b)
  {
    var root, n, g := f.P(i, NDIRECT), f.nblk[i], GrowEntry(f, i, b, v);
    GrowEntryLinked(f, i, b, v);
    EntryFacts(f, i, b);
    hide Linked;
    WritesOnly(f.sb, f.v, b, root, SetWord(f.v[root], n - NDIRECT, b), v);
    hide SameData, WroteOnly;
    KeepsOthers(f, g, b, root);
    hide Image.Ok, KeepsBlocks;
    assert g.nblk == f.nblk[i := n + 1];
  }

  lemma GrowEntryOk(f: Image, i: nat, b: Word, v: seq<Block>)
    requires f.Ok() && i < |f.cur| && b < f.sb.size && !f.bit[b]
    requires NDIRECT <= f.nblk[i] < MAXFILE && f.P(i, NDIRECT) != 0
    requires var root := f.P(i, NDIRECT);
      SameData(f.sb, f.v[b := ZERO_BLOCK][root := SetWord(f.v[root], f.nblk[i] - NDIRECT, b)], v)
    ensures var g := GrowEntry(f, i, b, v);
      && Linked(f, g, i, f.nblk[i] + 1, b) && g.Ok()
      && forall j :: 0 <= j < |f.cur| ==> g.Data(j) == if j == i then f.Data(i) + [ZERO_BLOCK] else f.Data(j)
  {
    var g, s := GrowEntry(f, i, b, v), f.nblk[i] + 1;
    GrowEntryGains(f, i, b, v);
    LinkOk(f, g, i, s, b);
    LinkAll(f, g, i, s, b);
  }

  // ----- Truncation -----

  /** itrunc frees the direct blocks, then the indirect entries, then the indirect block itself:
  the position of a pointer slot in that order, and the slot at a position. */
  function Rank(s: nat): nat {
    if s < NDIRECT then s else if s == NDIRECT then SLOTS - 1 else s - 1
  }

  function Ranked(n: nat): nat {
    if n < SLOTS - 1 then SlotOf(n) else NDIRECT
  }

  /** The bitmap once the first n pointers of inode i, in that order, have been freed. */
  ghost function Freed(f: Image, i: nat, n: nat): (bits: seq<bool>)
    ensures |bits| == |f.bit|
    ensures forall b :: 0 <= b < |f.bit| ==>
      (bits[b] <==> f.bit[b] && !(b in f.own && f.own[b].i == i && Rank(f.own[b].s) < n))
  {
    seq(|f.bit|, b requires 0 <= b < |f.bit| => f.bit[b] && !(b in f.own && f.own[b].i == i && Rank(f.own[b].s) < n))
  }

  /** A block still to be freed is still marked in use: no two pointers lead to it. */
  lemma FreeNext(f: Image, i: nat, n: nat, n': nat)
    requires f.Ok() && i < |f.cur| && n < SLOTS && n' == n + 1
    ensures Ranked(n) < SLOTS
    ensures var b := f.P(i, Ranked(n));
      if b == 0 then Freed(f, i, n') == Freed(f, i, n)
      else f.sb.DataStart() <= b < f.sb.size && Freed(f, i, n)[b] && Freed(f, i, n') == Freed(f, i, n)[b := false]
  {
    var c, s := f.P(i, Ranked(n)), Ranked(n);
    assert Rank(s) == n && forall t: nat :: t < SLOTS && Rank(t) == n ==> t == s;
    var want := if c == 0 then Freed(f, i, n) else Freed(f, i, n)[c := false];
    forall b | 0 <= b < |f.bit| ensures Freed(f, i, n')[b] == want[b] {
      if b in f.own && f.own[b].i == i {
        assert f.P(i, f.own[b].s) == b;
      }
    }
  }

  /** Without an indirect block there is nothing to free past the direct ones. */
  lemma FreedDirect(f: Image, i: nat)
    requires f.Ok() && i < |f.cur| && f.P(i, NDIRECT) == 0
    ensures Freed(f, i, SLOTS) == Freed(f, i, NDIRECT)
  {
    assert f.P(i, NDIRECT) == f.cur[i].addrs[NDIRECT];
    forall b | 0 <= b < |f.bit| ensures Freed(f, i, SLOTS)[b] == Freed(f, i, NDIRECT)[b] {
      if b in f.own && f.own[b].i == i {
        assert f.P(i, f.own[b].s) == b;
      }
    }
  }

  function Emptied(ino: Inode): Inode {
    ino.(size := 0, addrs := [0, 0, 0, 0, 0, 0, 0, 0, 0, 0, 0, 0, 0])
  }

  ghost function OwnedByOthers(own: map<int, Ptr>, i: nat): map<int, Ptr> {
    map b | b in own && own[b].i != i :: own[b]
  }

  /** The image after itrunc: inode i has no blocks, and its former blocks are free. */
  ghost function Truncated(f: Image, i: nat, v: seq<Block>): Image
    requires i < |f.cur| == |f.nblk| == |f.dino|
  {
    f.(bit := Freed(f, i, SLOTS), v := v,
       cur := f.cur[i := Emptied(f.cur[i])], dino := f.dino[i := Emptied(f.cur[i])],
       own := OwnedByOthers(f.own, i),
       nblk := f.nblk[i := 0])
  }

  ghost predicate Unlinked(f: Image, g: Image, i: nat)
    requires |f.cur| == |g.cur|
  {
    forall j: nat, s: nat :: j < |f.cur| && s < SLOTS ==> g.P(j, s) == if j == i then 0 else f.P(j, s)
  }

  lemma TruncatedPtrs(f: Image, i: nat, v: seq<Block>)
    requires f.Ok() && i < |f.cur| && SameData(f.sb, f.v, v)
    ensures Unlinked(f, Truncated(f, i, v), i)
  {
    var g := Truncated(f, i, v);
    forall j: nat, s: nat | j < |f.cur| && s < SLOTS ensures g.P(j, s) == if j == i then 0 else f.P(j, s) {
      assert f.P(j, NDIRECT) == f.cur[j].addrs[NDIRECT];
    }
  }

  lemma TruncatedBits(f: Image, i: nat, v: seq<Block>)
    requires f.Ok() && i < |f.cur|
    ensures Truncated(f, i, v).BitsMatch()
  {
    var g := Truncated(f, i, v);
    forall b | 0 <= b < f.sb.size ensures g.bit[b] <==> b < f.sb.DataStart() || b in g.own {
      assert f.bit[b] <==> b < f.sb.DataStart() || b in f.own;
    }
  }

  lemma TruncatedOk(f: Image, i: nat, v: seq<Block>)
    requires f.Ok() && i < |f.cur| && SameData(f.sb, f.v, v)
    ensures Truncated(f, i, v).Ok()
  {
    TruncatedPtrs(f, i, v);
    TruncatedBits(f, i, v);
  }

  lemma TruncatedContents(f: Image, i: nat, v: seq<Block>, j: nat)
    requires f.Ok() && i < |f.cur| && SameData(f.sb, f.v, v) && j < |f.cur| && j != i
    ensures Truncated(f, i, v).Ok() && Truncated(f, i, v).Data(j) == f.Data(j)
  {
    TruncatedOk(f, i, v);
    TruncatedPtrs(f, i, v);
    var g := Truncated(f, i, v);
    forall k | 0 <= k < f.nblk[j] ensures g.BlockOf(j, k) == f.BlockOf(j, k) {
      assert f.P(j, SlotOf(k)) != 0 && g.P(j, SlotOf(k)) == f.P(j, SlotOf(k));
    }
  }
}
