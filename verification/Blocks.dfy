/** Disk blocks as byte sequences, and the little-endian 32-bit words inside them. */
module Blocks {
  import opened Basics

  const BSIZE := 1024
  const WORDS := 256

  type Word = x: int | 0 <= x < 0x1_0000_0000

  type Block = b: seq<Byte> | |b| == BSIZE witness seq(BSIZE, i => 0)

  /** A block of zeros. */
  function ZeroBlock(): (b: Block)
    ensures forall i | 0 <= i < BSIZE :: b[i] == 0
  {
    seq(BSIZE, i => 0)
  }

  /** The word made of four bytes, least significant first. */
  function Join(b0: Byte, b1: Byte, b2: Byte, b3: Byte): (w: Word) {
    b0 + 0x100 * b1 + 0x1_0000 * b2 + 0x100_0000 * b3
  }

  /** The i-th word of a block. */
  function GetWord(b: Block, i: nat): (w: Word)
    requires i < WORDS
  {
    Join(b[4 * i], b[4 * i + 1], b[4 * i + 2], b[4 * i + 3])
  }

  /** Byte k of a word. */
  function ByteOf(w: Word, k: nat): (x: Byte)
    requires k < 4
  {
    if k == 0 then w % 256
    else if k == 1 then w / 0x100 % 256
    else if k == 2 then w / 0x1_0000 % 256
    else w / 0x100_0000
  }

  lemma JoinByteOf(w: Word)
    ensures Join(ByteOf(w, 0), ByteOf(w, 1), ByteOf(w, 2), ByteOf(w, 3)) == w
  {
    var h := w / 0x100;
    var q := h / 0x100;
    assert w == 0x100 * h + w % 0x100;
    assert h == 0x100 * q + h % 0x100;
    assert w / 0x1_0000 == q;
    assert w / 0x100_0000 == q / 0x100;
  }

  /** Store w as the i-th word; no other word changes. */
  function PutWord(b: Block, i: nat, w: Word): (r: Block)
    requires i < WORDS
    ensures GetWord(r, i) == w
    ensures forall j: nat | j < WORDS && j != i :: GetWord(r, j) == GetWord(b, j)
    ensures forall k | 0 <= k < BSIZE && k / 4 != i :: r[k] == b[k]
  {
    JoinByteOf(w);
    b[4 * i := ByteOf(w, 0)][4 * i + 1 := ByteOf(w, 1)][4 * i + 2 := ByteOf(w, 2)][4 * i + 3 := ByteOf(w, 3)]
  }

  /** Storing the same word twice is storing it once. */
  lemma PutAgain(b: Block, i: nat, w: Word)
    requires i < WORDS
    ensures PutWord(PutWord(b, i, w), i, w) == PutWord(b, i, w)
  {
    var r := PutWord(b, i, w);
    assert r[4 * i] == ByteOf(w, 0) && r[4 * i + 1] == ByteOf(w, 1);
    assert r[4 * i + 2] == ByteOf(w, 2) && r[4 * i + 3] == ByteOf(w, 3);
  }
}
