/** Disk blocks as 512 bytes, read and written as bytes or as 32-bit words.

The machine is big-endian: mkfs stores the most significant byte of a word first. */
module Blocks {
  import opened Common

  const BSIZE: nat := 512
  const WORDS: nat := 128              // BSIZE / sizeof(uint)

  type byte = x: int | 0 <= x < 256

  type Word = x: int | 0 <= x < TWO32

  function ZeroBytes(n: nat): (z: seq<byte>)
    ensures |z| == n && forall k :: 0 <= k < n ==> z[k] == 0
  {
    seq(n, _ => 0)
  }

  type Block = b: seq<byte> | |b| == BSIZE witness ZeroBytes(BSIZE)

  function Pow256(n: nat): (p: nat)
    ensures p > 0
  {
    if n == 0 then 1 else 256 * Pow256(n - 1)
  }

  /** The number a byte string denotes, most significant byte first. */
  function Value(bs: seq<byte>): (v: nat)
    ensures v < Pow256(|bs|)
  {
    if bs == [] then 0 else 256 * Value(bs[..|bs| - 1]) + bs[|bs| - 1]
  }

  function Digits(w: nat, n: nat): (bs: seq<byte>)
    ensures |bs| == n
  {
    if n == 0 then [] else Digits(w / 256, n - 1) + [w % 256]
  }

  lemma {:induction false} ValueOfDigits(w: nat, n: nat)
    requires w < Pow256(n)
    ensures Value(Digits(w, n)) == w
  {
    if n > 0 {
      ValueOfDigits(w / 256, n - 1);
      assert Digits(w, n)[..n - 1] == Digits(w / 256, n - 1);
    }
  }

  function GetWord(b: Block, i: nat): Word
    requires i < WORDS
  {
    assert Pow256(4) == TWO32;
    Value(b[4 * i..4 * i + 4])
  }

  function SetWord(b: Block, i: nat, w: Word): Block
    requires i < WORDS
  {
    b[..4 * i] + Digits(w, 4) + b[4 * i + 4..]
  }

  /** Storing a word and reading it back gives that word; every other word is untouched. */
  lemma WordRoundTrip(b: Block, i: nat, w: Word, j: nat)
    requires i < WORDS && j < WORDS
    ensures GetWord(SetWord(b, i, w), j) == if j == i then w else GetWord(b, j)
  {
    var c := SetWord(b, i, w);
    assert Pow256(4) == TWO32;
    if j == i {
      assert c[4 * j..4 * j + 4] == Digits(w, 4);
      ValueOfDigits(w, 4);
    } else {
      assert c[4 * j..4 * j + 4] == b[4 * j..4 * j + 4];
    }
  }

  /** A word is its four bytes, most significant first. */
  lemma WordBytes(b: Block, i: nat)
    requires i < WORDS
    ensures GetWord(b, i) == 0x100_0000 * (b[4 * i] as int) + 0x1_0000 * (b[4 * i + 1] as int)
      + 0x100 * (b[4 * i + 2] as int) + b[4 * i + 3]
  {
    var s := b[4 * i..4 * i + 4];
    assert s[..3][..2] == s[..2] && s[..2][..1] == s[..1] && s[..1][..0] == [];
    assert Value(s[..1]) == s[0];
    assert Value(s[..2]) == 0x100 * (s[0] as int) + s[1];
    assert Value(s[..3]) == 0x1_0000 * (s[0] as int) + 0x100 * (s[1] as int) + s[2];
  }
}
