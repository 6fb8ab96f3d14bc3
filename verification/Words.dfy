/** Bytes, 512-byte disk blocks and the little-endian 32-bit words stored in them. */
module Words {

  const WORDS_PER_BLOCK := 128
  const WORD_LIMIT := 0x1_0000_0000

  type byte = x: int | 0 <= x < 256

  type word = x: int | 0 <= x < 0x1_0000_0000

  type Block = b: seq<byte> | |b| == 512 witness seq(512, _ => 0)

  /** The unsigned word at word index `k` of a block. */
  function GetWord(b: Block, k: nat): word
    requires k < WORDS_PER_BLOCK
  {
    (b[4 * k] as int) + 0x100 * (b[4 * k + 1] as int) + 0x1_0000 * (b[4 * k + 2] as int)
    + 0x100_0000 * (b[4 * k + 3] as int)
  }

  /** The block with the word at index `k` replaced by `v`. */
  function PutWord(b: Block, k: nat, v: word): (r: Block)
    requires k < WORDS_PER_BLOCK
  {
    b[4 * k := v % 0x100]
     [4 * k + 1 := (v / 0x100) % 0x100]
     [4 * k + 2 := (v / 0x1_0000) % 0x100]
     [4 * k + 3 := v / 0x100_0000]
  }

  lemma SplitWord(v: word)
    ensures v % 0x100 + 0x100 * ((v / 0x100) % 0x100) + 0x1_0000 * ((v / 0x1_0000) % 0x100)
            + 0x100_0000 * (v / 0x100_0000) == v
  {
    assert v / 0x1_0000 == (v / 0x100) / 0x100;
    assert v / 0x100_0000 == (v / 0x1_0000) / 0x100;
  }

  /** Writing a word and reading it back gives the word; every other word keeps its value. */
  lemma GetPutWord(b: Block, k: nat, v: word, j: nat)
    requires k < WORDS_PER_BLOCK && j < WORDS_PER_BLOCK
    ensures GetWord(PutWord(b, k, v), j) == if j == k then v else GetWord(b, j)
  {
    if j == k {
      SplitWord(v);
    }
  }

  // ----- little-endian numbers at a byte of a block

  function U16(b: Block, at: nat): nat
    requires at + 1 < 512
  {
    (b[at] as int) + 0x100 * (b[at + 1] as int)
  }

  function U32(b: Block, at: nat): nat
    requires at + 3 < 512
  {
    (b[at] as int) + 0x100 * (b[at + 1] as int) + 0x1_0000 * (b[at + 2] as int) + 0x100_0000 * (b[at + 3] as int)
  }

  lemma WordBytes(b: Block, k: nat)
    requires k < 128
    ensures GetWord(b, k) == U32(b, 4 * k)
    ensures GetWord(b, k) % 0x1_0000 == U16(b, 4 * k) && GetWord(b, k) / 0x1_0000 == U16(b, 4 * k + 2)
  {
    TwoHalves(U16(b, 4 * k), U16(b, 4 * k + 2));
  }

  lemma TwoHalves(lo: nat, hi: nat)
    requires lo < 0x1_0000
    ensures (lo + 0x1_0000 * hi) % 0x1_0000 == lo && (lo + 0x1_0000 * hi) / 0x1_0000 == hi
  {
  }
}
