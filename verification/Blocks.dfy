/** Disk blocks as byte arrays, with the little-endian 32-bit words that the
    log header and the indirect blocks keep in them, and the single bits that
    the free map keeps. */
module Blocks {

  const BSIZE: nat := 1024
  const WORDS: nat := 256
  const WORD_LIMIT: nat := 0x1_0000_0000

  type byte = x: int | 0 <= x < 256

  type Block = b: seq<byte> | |b| == BSIZE witness seq(BSIZE, _ => 0)

  /** The block that bzero leaves behind. */
  function ZeroBlock(): Block {
    seq(BSIZE, _ => 0)
  }

  function Join(b0: int, b1: int, b2: int, b3: int): int {
    b0 + 0x100 * (b1 + 0x100 * (b2 + 0x100 * b3))
  }

  function Word(b: Block, i: nat): nat
    requires i < WORDS
  {
    Join(b[4 * i], b[4 * i + 1], b[4 * i + 2], b[4 * i + 3])
  }

  function SetWord(b: Block, i: nat, w: nat): Block
    requires i < WORDS && w < WORD_LIMIT
  {
    var w1 := w / 0x100;
    var w2 := w1 / 0x100;
    var w3 := w2 / 0x100;
    b[4 * i := w % 0x100][4 * i + 1 := w1 % 0x100][4 * i + 2 := w2 % 0x100][4 * i + 3 := w3]
  }

  /** Storing a word is read back, and disturbs no other word. */
  lemma WordOfSetWord(b: Block, i: nat, w: nat, j: nat)
    requires i < WORDS && w < WORD_LIMIT && j < WORDS
    ensures Word(SetWord(b, i, w), j) == if i == j then w else Word(b, j)
  {
    var w1 := w / 0x100;
    var w2 := w1 / 0x100;
    var w3 := w2 / 0x100;
    assert w == w % 0x100 + 0x100 * w1;
    assert w1 == w1 % 0x100 + 0x100 * w2;
    assert w2 == w2 % 0x100 + 0x100 * w3;
    var s := SetWord(b, i, w);
    if i != j {
      assert s[4 * j] == b[4 * j] && s[4 * j + 1] == b[4 * j + 1];
      assert s[4 * j + 2] == b[4 * j + 2] && s[4 * j + 3] == b[4 * j + 3];
    }
  }

  lemma WordOfZeroBlock(j: nat)
    requires j < WORDS
    ensures Word(ZeroBlock(), j) == 0
  {
  }

  const BITS: nat := 8192

  /** 1 << k */
  function Mask(k: nat): (m: nat)
    ensures m > 0
  {
    if k == 0 then 1 else 2 * Mask(k - 1)
  }

  /** x & (1 << k) */
  predicate HasBit(x: nat, k: nat) {
    if k == 0 then x % 2 == 1 else HasBit(x / 2, k - 1)
  }

  /** x | m and x & ~m, for a bit m that is clear and one that is set. */
  lemma {:induction false} FlipBit(x: nat, k: nat, j: nat)
    ensures !HasBit(x, k) ==> (HasBit(x + Mask(k), j) <==> j == k || HasBit(x, j))
    ensures HasBit(x, k) ==> x >= Mask(k) && (HasBit(x - Mask(k), j) <==> j != k && HasBit(x, j))
  {
    if k > 0 {
      FlipBit(x / 2, k - 1, if j > 0 then j - 1 else 0);
      assert (x + Mask(k)) / 2 == x / 2 + Mask(k - 1) && (x + Mask(k)) % 2 == x % 2;
      if HasBit(x, k) {
        assert (x - Mask(k)) / 2 == x / 2 - Mask(k - 1) && (x - Mask(k)) % 2 == x % 2;
      }
    } else if j > 0 {
      assert x % 2 == 0 ==> (x + 1) / 2 == x / 2;
    }
  }

  lemma {:induction false} BitFits(x: nat, k: nat, n: nat)
    requires k < n && x < Mask(n) && !HasBit(x, k)
    ensures x + Mask(k) < Mask(n)
  {
    if k > 0 {
      BitFits(x / 2, k - 1, n - 1);
    } else {
      assert Mask(n) == 2 * Mask(n - 1);
    }
  }

  lemma ByteRange()
    ensures Mask(8) == 256
  {
    assert Mask(4) == 16;
    assert Mask(8) == 16 * Mask(4);
  }

  predicate Bit(b: Block, i: nat)
    requires i < BITS
  {
    HasBit(b[i / 8], i % 8)
  }

  /** The block with one bit changed. */
  function Flip(b: Block, i: nat): (r: Block)
    requires i < BITS
    ensures forall j: nat :: j < BITS ==> Bit(r, j) == if j == i then !Bit(b, i) else Bit(b, j)
  {
    var x, m := b[i / 8], Mask(i % 8);
    FlippedByte(x, i % 8);
    FlippedBits(b, i);
    b[i / 8 := if HasBit(x, i % 8) then x - m else x + m]
  }

  lemma FlippedByte(x: byte, k: nat)
    requires k < 8
    ensures if HasBit(x, k) then 0 <= x - Mask(k) < 256 else x + Mask(k) < 256
  {
    FlipBit(x, k, 0);
    ByteRange();
    if !HasBit(x, k) {
      BitFits(x, k, 8);
    }
  }

  lemma FlippedBits(b: Block, i: nat)
    requires i < BITS
    requires if HasBit(b[i / 8], i % 8) then 0 <= b[i / 8] - Mask(i % 8) < 256 else b[i / 8] + Mask(i % 8) < 256
    ensures var r: Block := b[i / 8 := if HasBit(b[i / 8], i % 8) then b[i / 8] - Mask(i % 8) else b[i / 8] + Mask(i % 8)];
            forall j: nat :: j < BITS ==> Bit(r, j) == if j == i then !Bit(b, i) else Bit(b, j)
  {
    forall j: nat | j < BITS && j / 8 == i / 8
      ensures !Bit(b, i) ==> (HasBit(b[i / 8] + Mask(i % 8), j % 8) <==> j == i || Bit(b, j))
      ensures Bit(b, i) ==> (HasBit(b[i / 8] - Mask(i % 8), j % 8) <==> j != i && Bit(b, j))
    {
      FlipBit(b[i / 8], i % 8, j % 8);
    }
  }
}
