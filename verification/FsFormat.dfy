/** The on-disk format of the file system (fs.h): superblock geometry, the free bitmap, inode
records packed eight to a block. */
module FsFormat {
  import opened Blocks

  const NDIRECT: nat := 12
  const NINDIRECT: nat := 128          // BSIZE / sizeof(uint)
  const MAXFILE: nat := 140            // NDIRECT + NINDIRECT
  const IPB: nat := 8                  // BSIZE / sizeof(struct dinode)
  const BPB: nat := 4096               // BSIZE * 8

  datatype Superblock = Superblock(size: Word, nblocks: Word, ninodes: Word, nlog: Word) {
    function IBlock(i: nat): nat { i / IPB + 2 }
    function BBlock(b: nat): nat { b / BPB + ninodes / IPB + 3 }

    /** The first block that is not boot, super, inode or bitmap block (usedblocks in mkfs). */
    function DataStart(): nat { ninodes / IPB + 3 + size / BPB + 1 }

    predicate Wf() { DataStart() <= size }
  }

  // ----- One bit of the free bitmap -----

  /** Bit k of x is set. */
  predicate BitOf(x: nat, k: nat) {
    if k == 0 then x % 2 == 1 else BitOf(x / 2, k - 1)
  }

  /** x with bit k set or cleared. */
  function PutBit(x: nat, k: nat, v: bool): nat {
    if k == 0 then x / 2 * 2 + (if v then 1 else 0) else PutBit(x / 2, k - 1, v) * 2 + x % 2
  }

  lemma {:induction false} PutBitOf(x: nat, k: nat, v: bool, j: nat)
    ensures BitOf(PutBit(x, k, v), j) == if j == k then v else BitOf(x, j)
  {
    if j > 0 && k > 0 {
      PutBitOf(x / 2, k - 1, v, j - 1);
    }
  }

  function Pow2(n: nat): nat {
    if n == 0 then 1 else 2 * Pow2(n - 1)
  }

  lemma {:induction false} PutBitFits(x: nat, k: nat, v: bool, n: nat)
    requires x < Pow2(n) && k < n
    ensures PutBit(x, k, v) < Pow2(n)
  {
    if k > 0 {
      PutBitFits(x / 2, k - 1, v, n - 1);
    }
  }

  function BitAt(b: Block, i: nat): bool
    requires i < BPB
  {
    BitOf(b[i / 8], i % 8)
  }

  function SetBitAt(b: Block, i: nat, v: bool): Block
    requires i < BPB
  {
    PutBitFits(b[i / 8], i % 8, v, 8);
    b[i / 8 := PutBit(b[i / 8], i % 8, v)]
  }

  lemma BitRoundTrip(b: Block, i: nat, v: bool, j: nat)
    requires i < BPB && j < BPB
    ensures BitAt(SetBitAt(b, i, v), j) == if j == i then v else BitAt(b, j)
  {
    PutBitOf(b[i / 8], i % 8, v, j % 8);
  }

  // ----- Inode records -----

  type Half = x: int | 0 <= x < 0x1_0000

  type Addrs = a: seq<Word> | |a| == NDIRECT + 1 witness seq(NDIRECT + 1, _ => 0)

  datatype Inode = Inode(kind: Half, major: Half, minor: Half, nlink: Half, size: Word, addrs: Addrs)

  const RECORD: nat := 16              // words in a struct dinode

  function InodeWords(ino: Inode): (ws: seq<Word>)
    ensures |ws| == RECORD
  {
    [0x1_0000 * ino.kind as int + ino.major as int, 0x1_0000 * ino.minor as int + ino.nlink as int, ino.size] + ino.addrs
  }

  function WordsInode(ws: seq<Word>): Inode
    requires |ws| == RECORD
  {
    Inode(ws[0] / 0x1_0000, ws[0] % 0x1_0000, ws[1] / 0x1_0000, ws[1] % 0x1_0000, ws[2], ws[3..])
  }

  lemma InodeWordsInverse(ino: Inode)
    ensures WordsInode(InodeWords(ino)) == ino
  {
    assert InodeWords(ino)[3..] == ino.addrs;
  }

  function PutWords(b: Block, at: nat, ws: seq<Word>): Block
    requires at + |ws| <= WORDS
  {
    if ws == [] then b else SetWord(PutWords(b, at, ws[..|ws| - 1]), at + |ws| - 1, ws[|ws| - 1])
  }

  lemma {:induction false} PutWordsAt(b: Block, at: nat, ws: seq<Word>, j: nat)
    requires at + |ws| <= WORDS && j < WORDS
    ensures GetWord(PutWords(b, at, ws), j) == if at <= j < at + |ws| then ws[j - at] else GetWord(b, j)
  {
    if ws != [] {
      PutWordsAt(b, at, ws[..|ws| - 1], j);
      WordRoundTrip(PutWords(b, at, ws[..|ws| - 1]), at + |ws| - 1, ws[|ws| - 1], j);
    }
  }

  function GetWords(b: Block, at: nat, n: nat): (ws: seq<Word>)
    requires at + n <= WORDS
    ensures |ws| == n
  {
    if n == 0 then [] else GetWords(b, at, n - 1) + [GetWord(b, at + n - 1)]
  }

  function GetInode(b: Block, k: nat): Inode
    requires k < IPB
  {
    WordsInode(GetWords(b, RECORD * k, RECORD))
  }

  function PutInode(b: Block, k: nat, ino: Inode): Block
    requires k < IPB
  {
    PutWords(b, RECORD * k, InodeWords(ino))
  }

  lemma {:induction false} WordsAre(b: Block, at: nat, ws: seq<Word>, n: nat)
    requires at + |ws| <= WORDS && n <= |ws| && forall j: nat :: at <= j < at + |ws| ==> GetWord(b, j) == ws[j - at]
    ensures GetWords(b, at, n) == ws[..n]
  {
    hide GetWord;
    if n > 0 {
      WordsAre(b, at, ws, n - 1);
      assert ws[..n] == ws[..n - 1] + [ws[n - 1]];
    }
  }

  lemma {:induction false} WordsSame(b: Block, c: Block, at: nat, n: nat)
    requires at + n <= WORDS && forall j: nat :: at <= j < at + n ==> GetWord(b, j) == GetWord(c, j)
    ensures GetWords(b, at, n) == GetWords(c, at, n)
  {
    hide GetWord;
    if n > 0 {
      WordsSame(b, c, at, n - 1);
    }
  }

  lemma GetPutWords(b: Block, at: nat, ws: seq<Word>, from: nat)
    requires at + |ws| <= WORDS && from + |ws| <= WORDS
    requires from == at || from + |ws| <= at || at + |ws| <= from
    ensures GetWords(PutWords(b, at, ws), from, |ws|) == if from == at then ws else GetWords(b, from, |ws|)
  {
    hide GetWord, GetWords, PutWords;
    var p := PutWords(b, at, ws);
    forall j: nat | j < WORDS ensures GetWord(p, j) == if at <= j < at + |ws| then ws[j - at] else GetWord(b, j) {
      PutWordsAt(b, at, ws, j);
    }
    if from == at {
      WordsAre(p, at, ws, |ws|);
      assert ws[..|ws|] == ws;
    } else {
      WordsSame(p, b, from, |ws|);
    }
  }

  /** Writing an inode record leaves the other seven of its block alone. */
  lemma InodeRoundTrip(b: Block, k: nat, ino: Inode, j: nat)
    requires k < IPB && j < IPB
    ensures GetInode(PutInode(b, k, ino), j) == if j == k then ino else GetInode(b, j)
  {
    GetPutWords(b, RECORD * k, InodeWords(ino), RECORD * j);
    InodeWordsInverse(ino);
  }

  // ----- The format byte by byte -----

  /** The weight of bit k of a byte. */
  function Weight(k: nat): nat
    requires k < 8
  {
    [1, 2, 4, 8, 16, 32, 64, 128][k]
  }

  lemma {:induction false} BitOfIs(x: nat, k: nat)
    requires k < 8
    ensures BitOf(x, k) <==> x / Weight(k) % 2 == 1
  {
    if k > 0 {
      BitOfIs(x / 2, k - 1);
      assert Weight(k) == 2 * Weight(k - 1);
      assert x / 2 / Weight(k - 1) == x / Weight(k);
    }
  }

  /** Bit i of a bitmap block is bit i % 8, counted from the least significant, of byte i / 8. */
  lemma BitIs(b: Block, i: nat)
    requires i < BPB
    ensures BitAt(b, i) <==> b[i / 8] / [1, 2, 4, 8, 16, 32, 64, 128][i % 8] % 2 == 1
  {
    BitOfIs(b[i / 8], i % 8);
  }

  lemma {:induction false} WordsAt(b: Block, at: nat, n: nat, j: nat)
    requires at + n <= WORDS && j < n
    ensures GetWords(b, at, n)[j] == GetWord(b, at + j)
  {
    if j < n - 1 {
      WordsAt(b, at, n - 1, j);
    }
  }

  /** Inode record k of a block takes 64 bytes: four half-words, the size and thirteen addresses. */
  lemma RecordBytes(b: Block, k: nat)
    requires k < IPB
    ensures var ino, o := GetInode(b, k), 64 * k;
      && ino.kind == 0x100 * (b[o] as int) + b[o + 1] && ino.major == 0x100 * (b[o + 2] as int) + b[o + 3]
      && ino.minor == 0x100 * (b[o + 4] as int) + b[o + 5] && ino.nlink == 0x100 * (b[o + 6] as int) + b[o + 7]
      && ino.size == 0x100_0000 * (b[o + 8] as int) + 0x1_0000 * (b[o + 9] as int) + 0x100 * (b[o + 10] as int) + b[o + 11]
    ensures forall j :: 0 <= j < 13 ==> GetInode(b, k).addrs[j] == GetWord(b, 16 * k + 3 + j)
  {
    var ws := GetWords(b, RECORD * k, RECORD);
    forall j: nat | j < RECORD ensures ws[j] == GetWord(b, 16 * k + j) {
      WordsAt(b, RECORD * k, RECORD, j);
    }
    hide GetWords, GetWord;
    WordBytes(b, 16 * k);
    WordBytes(b, 16 * k + 1);
    WordBytes(b, 16 * k + 2);
    assert ws[0] == GetWord(b, 16 * k) && ws[1] == GetWord(b, 16 * k + 1) && ws[2] == GetWord(b, 16 * k + 2);
  }

  /** Inode i is the i-th 64-byte record after the superblock, and the bit of block b the b-th after the
  inode blocks, counting bytes from the start of the disk. */
  lemma Addresses(sb: Superblock, i: nat, b: nat)
    ensures 512 * sb.IBlock(i) + 64 * (i % IPB) == 1024 + 64 * i
    ensures 512 * sb.BBlock(b) + b % BPB / 8 == 512 * (sb.ninodes / 8 + 3) + b / 8
  {
    assert b == BPB * (b / BPB) + b % BPB;
  }

  // ----- The bitmap mkfs writes -----

  /** A byte with its k low bits set. */
  function LowBits(k: nat): byte
    requires k <= 8
  {
    [0, 1, 3, 7, 15, 31, 63, 127, 255][k]
  }

  /** The first n bits are set: whole bytes of ones, one byte with the rest, and zeros. */
  function FirstBits(n: nat): (b: Block)
    requires n <= BPB
    ensures forall j :: 0 <= j < BSIZE ==>
      b[j] == if 8 * j + 8 <= n then 0xFF else if 8 * j < n then LowBits(n - 8 * j) else 0
  {
    seq(BSIZE, j => if 8 * j + 8 <= n then 0xFF else if 8 * j < n then LowBits(n - 8 * j) else 0)
  }

  lemma LowBitsAre(k: nat, i: nat)
    requires k <= 8 && i < 8
    ensures LowBits(k) / Weight(i) % 2 == 1 <==> i < k
  {
    assert k == 0 || k == 1 || k == 2 || k == 3 || k == 4 || k == 5 || k == 6 || k == 7 || k == 8;
    assert i == 0 || i == 1 || i == 2 || i == 3 || i == 4 || i == 5 || i == 6 || i == 7;
  }

  lemma FirstBitsAre(n: nat, i: nat)
    requires n <= BPB && i < BPB
    ensures BitAt(FirstBits(n), i) <==> i < n
  {
    hide FirstBits;
    BitIs(FirstBits(n), i);
    var j := i / 8;
    LowBitsAre(if 8 * j + 8 <= n then 8 else if 8 * j < n then n - 8 * j else 0, i % 8);
  }

  lemma {:induction false} NextLowBit(k: nat)
    requires k < 8
    ensures PutBit(LowBits(k), k, true) == LowBits(k + 1)
  {
    if k > 0 {
      NextLowBit(k - 1);
      assert LowBits(k) / 2 == LowBits(k - 1) && LowBits(k) % 2 == 1;
    }
  }

  lemma NextFirstBit(n: nat)
    requires n < BPB
    ensures SetBitAt(FirstBits(n), n, true) == FirstBits(n + 1)
  {
    NextLowBit(n % 8);
    var x, y := SetBitAt(FirstBits(n), n, true), FirstBits(n + 1);
    forall j | 0 <= j < BSIZE ensures x[j] == y[j] {
      if j == n / 8 {
        assert FirstBits(n)[j] == LowBits(n % 8);
        assert n % 8 == 7 ==> LowBits(n % 8 + 1) == 0xFF;
      }
    }
  }

  /** The bitmap block for a disk whose first `used` blocks are taken. */
  method MkfsBitmap(used: nat) returns (buf: Block)
    requires used < BPB
    ensures buf == FirstBits(used)
  {
    buf := ZeroBytes(BSIZE);
    assert buf == FirstBits(0);
    var i := 0;
    while i < used
      invariant 0 <= i <= used && buf == FirstBits(i)
    {
      NextFirstBit(i);
      buf := SetBitAt(buf, i, true);
      i := i + 1;
    }
  }
}
