/**
 * Disk blocks and the two encodings laid over their bytes: 32-bit words, in Intel byte
 * order, and bits.  The block size is a parameter.
 */
module Blocks {
  import opened Common

  type BlockSize = n: nat | 12 <= n <= 0x1_0000 && n % 4 == 0 witness 512

  /** BSIZE of fs.h. */
  const BSIZE: BlockSize

  type Positive = n: nat | 0 < n witness 1

  /** Words per block, which is also the number of entries of an indirect block. */
  const WORDS: Positive := BSIZE / 4

  /** Bitmap bits per block (BPB of fs.h). */
  const BPB: Positive := BSIZE * 8

  type OpBlocks = n: nat | 6 <= n witness 10

  /** MAXOPBLOCKS of param.h: the blocks one file-system operation may write. */
  const MAXOPBLOCKS: OpBlocks

  function Quotient(x: nat, d: Positive): nat
  {
    x / d
  }

  function Remainder(x: nat, d: Positive): (r: nat)
    ensures r < d
  {
    x % d
  }

  lemma Division(x: nat, d: Positive)
    ensures x == Quotient(x, d) * d + Remainder(x, d)
  {
  }

  lemma MulMonotone(a: nat, b: nat, c: nat)
    requires a <= b
    ensures a * c <= b * c
  {
  }

  /** The only way to split x into q * d and a rest below d. */
  lemma DivisionUnique(x: nat, d: Positive, q: nat, r: nat)
    requires x == q * d + r && r < d
    ensures Quotient(x, d) == q && Remainder(x, d) == r
  {
    Division(x, d);
    hide Quotient, Remainder;
    var q' := Quotient(x, d);
    if q < q' {
      MulMonotone(q + 1, q', d);
    } else if q' < q {
      MulMonotone(q' + 1, q, d);
    }
  }

  type Block = b: seq<byte> | |b| == BSIZE witness seq(BSIZE, _ => 0)

  function ZeroBlock(): (b: Block)
    ensures forall i | 0 <= i < BSIZE :: b[i] == 0
  {
    seq(BSIZE, _ => 0)
  }

  // ----- 32-bit words ------------------------------------------------------------

  /** Byte k of the 32-bit word w. */
  function ByteOf(w: nat, k: nat): byte
    requires w < UINT_LIMIT && k < 4
  {
    if k == 0 then w % 0x100
    else if k == 1 then w / 0x100 % 0x100
    else if k == 2 then w / 0x1_0000 % 0x100
    else w / 0x100_0000
  }

  /** ((uint*)b)[i] */
  function GetWord(b: Block, i: nat): (w: nat)
    requires i < WORDS
    ensures w < UINT_LIMIT
  {
    var w0: int, w1: int, w2: int, w3: int := b[4*i], b[4*i+1], b[4*i+2], b[4*i+3];
    w0 + 0x100 * w1 + 0x1_0000 * w2 + 0x100_0000 * w3
  }

  /** ((uint*)b)[i] = w */
  function PutWord(b: Block, i: nat, w: nat): Block
    requires i < WORDS && w < UINT_LIMIT
  {
    b[4*i := ByteOf(w, 0)][4*i+1 := ByteOf(w, 1)][4*i+2 := ByteOf(w, 2)][4*i+3 := ByteOf(w, 3)]
  }

  lemma BytesOfWord(w: nat)
    requires w < UINT_LIMIT
    ensures ByteOf(w, 0) + 0x100 * ByteOf(w, 1) + 0x1_0000 * ByteOf(w, 2) + 0x100_0000 * ByteOf(w, 3) == w
  {
  }

  /** A stored word reads back, and storing it disturbs no other word. */
  lemma GetPut(b: Block, i: nat, w: nat)
    requires i < WORDS && w < UINT_LIMIT
    ensures GetWord(PutWord(b, i, w), i) == w
    ensures forall j: nat | j < WORDS && j != i :: GetWord(PutWord(b, i, w), j) == GetWord(b, j)
  {
    BytesOfWord(w);
  }

  /** b with ws stored from word i on. */
  function PutWords(b: Block, i: nat, ws: seq<nat>): Block
    requires i + |ws| <= WORDS && forall k | 0 <= k < |ws| :: ws[k] < UINT_LIMIT
    decreases |ws|
  {
    if ws == [] then b else PutWord(PutWords(b, i, ws[..|ws|-1]), i + |ws| - 1, ws[|ws|-1])
  }

  /** Stored words read back, and no other word changes. */
  lemma {:induction false} PutWordsGet(b: Block, i: nat, ws: seq<nat>, j: nat)
    requires i + |ws| <= WORDS && forall k | 0 <= k < |ws| :: ws[k] < UINT_LIMIT
    requires j < WORDS
    ensures GetWord(PutWords(b, i, ws), j) == if i <= j < i + |ws| then ws[j-i] else GetWord(b, j)
    decreases |ws|
  {
    if ws != [] {
      hide GetWord, PutWord;
      var init := ws[..|ws|-1];
      PutWordsGet(b, i, init, j);
      GetPut(PutWords(b, i, init), i + |ws| - 1, ws[|ws|-1]);
    }
  }

  lemma ZeroWords()
    ensures forall j: nat | j < WORDS :: GetWord(ZeroBlock(), j) == 0
  {
  }

  // ----- Bits --------------------------------------------------------------------

  // The operations of C's &, | and ~ with the mask 1 << k, digit by digit.

  /** (x & (1 << k)) != 0 */
  predicate TestMask(x: nat, k: nat)
  {
    if k == 0 then x % 2 == 1 else TestMask(x / 2, k - 1)
  }

  function Pow2(n: nat): nat
  {
    if n == 0 then 1 else 2 * Pow2(n - 1)
  }

  /** x | (1 << k) */
  function OrMask(x: nat, k: nat): nat
  {
    if k == 0 then x / 2 * 2 + 1 else 2 * OrMask(x / 2, k - 1) + x % 2
  }

  /** x & ~(1 << k) */
  function AndNotMask(x: nat, k: nat): (y: nat)
    ensures y <= x
  {
    if k == 0 then x / 2 * 2 else 2 * AndNotMask(x / 2, k - 1) + x % 2
  }

  lemma {:induction false} OrMaskBound(x: nat, k: nat, n: nat)
    requires k < n && x < Pow2(n)
    ensures OrMask(x, k) < Pow2(n)
  {
    if k > 0 {
      OrMaskBound(x / 2, k - 1, n - 1);
    }
  }

  lemma {:induction false} OrMaskBits(x: nat, k: nat, j: nat)
    ensures TestMask(OrMask(x, k), j) <==> j == k || TestMask(x, j)
  {
    if k > 0 && j > 0 {
      OrMaskBits(x / 2, k - 1, j - 1);
      assert OrMask(x, k) / 2 == OrMask(x / 2, k - 1);
    }
  }

  lemma {:induction false} AndNotMaskBits(x: nat, k: nat, j: nat)
    ensures TestMask(AndNotMask(x, k), j) <==> j != k && TestMask(x, j)
  {
    if k > 0 && j > 0 {
      AndNotMaskBits(x / 2, k - 1, j - 1);
      assert AndNotMask(x, k) / 2 == AndNotMask(x / 2, k - 1);
    }
  }

  /** Bit i of the block: byte i/8, mask 1 << i%8. */
  predicate GetBit(b: Block, i: nat)
    requires i < BPB
  {
    TestMask(b[i/8], i%8)
  }

  function SetBit(b: Block, i: nat): Block
    requires i < BPB
  {
    OrMaskBound(b[i/8], i%8, 8);
    b[i/8 := OrMask(b[i/8], i%8)]
  }

  function ClearBit(b: Block, i: nat): Block
    requires i < BPB
  {
    b[i/8 := AndNotMask(b[i/8], i%8)]
  }

  /** Setting or clearing bit i through its byte changes bit i and no other bit. */
  lemma BitUpdates(b: Block, i: nat, j: nat)
    requires i < BPB && j < BPB
    ensures GetBit(SetBit(b, i), j) <==> j == i || GetBit(b, j)
    ensures GetBit(ClearBit(b, i), j) <==> j != i && GetBit(b, j)
  {
    if i/8 == j/8 {
      OrMaskBits(b[i/8], i%8, j%8);
      AndNotMaskBits(b[i/8], i%8, j%8);
    }
  }
}
