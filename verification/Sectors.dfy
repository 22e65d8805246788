/** The device seen as a sequence of 512-byte sectors, and the two ways the
    code reads a sector: as raw bytes and as 128 little-endian 32-bit words. */
module Sectors {

  const SECTOR_SIZE := 512
  const WORDS_PER_SECTOR := 128
  const WORD_LIMIT := 0x1_0000_0000

  type Byte = b: nat | b < 0x100
  type Word = w: nat | w < WORD_LIMIT
  type Sector = s: seq<Byte> | |s| == SECTOR_SIZE witness seq(SECTOR_SIZE, _ => 0)
  type Disk = seq<Sector>

  function Zeros(): Sector {
    seq(SECTOR_SIZE, _ => 0)
  }
  function NoWords(): seq<Word> {
    seq(WORDS_PER_SECTOR, _ => 0)
  }

  function Min(a: nat, b: nat): nat {
    if a < b then a else b
  }

  function Max(a: int, b: int): int {
    if a < b then b else a
  }

  // DIV_ROUND_UP
  function DivRoundUp(x: nat, step: nat): (r: nat)
    requires step > 0
  {
    (x + step - 1) / step
  }

  function WordAt(s: Sector, i: nat): Word
    requires i < WORDS_PER_SECTOR
  {
    s[4 * i] as int + 0x100 * (s[4 * i + 1] as int)
    + 0x1_0000 * (s[4 * i + 2] as int) + 0x100_0000 * (s[4 * i + 3] as int)
  }

  function Words(s: Sector): (ws: seq<Word>)
    ensures |ws| == WORDS_PER_SECTOR
  {
    seq(WORDS_PER_SECTOR, i requires 0 <= i < WORDS_PER_SECTOR => WordAt(s, i))
  }

  function ByteOf(w: Word, k: nat): Byte
    requires k < 4
  {
    if k == 0 then w % 0x100
    else if k == 1 then w / 0x100 % 0x100
    else if k == 2 then w / 0x1_0000 % 0x100
    else w / 0x100_0000
  }

  function FromWords(ws: seq<Word>): (s: Sector)
    requires |ws| == WORDS_PER_SECTOR
  {
    seq(SECTOR_SIZE, j requires 0 <= j < SECTOR_SIZE => ByteOf(ws[j / 4], j % 4))
  }

  lemma WordSplits(w: Word)
    ensures w == ByteOf(w, 0) + 0x100 * ByteOf(w, 1) + 0x1_0000 * ByteOf(w, 2) + 0x100_0000 * ByteOf(w, 3)
  {
    assert w / 0x1_0000 == w / 0x100 / 0x100;
    assert w / 0x100_0000 == w / 0x1_0000 / 0x100;
  }

  /** A block of 128 pointers written to a sector and read back is unchanged. */
  lemma WordsRoundTrip(ws: seq<Word>)
    requires |ws| == WORDS_PER_SECTOR
    ensures Words(FromWords(ws)) == ws
  {
    var s := FromWords(ws);
    forall i | 0 <= i < WORDS_PER_SECTOR
      ensures Words(s)[i] == ws[i]
    {
      WordSplits(ws[i]);
      assert s[4 * i] == ByteOf(ws[i], 0);
      assert s[4 * i + 1] == ByteOf(ws[i], 1);
      assert s[4 * i + 2] == ByteOf(ws[i], 2);
      assert s[4 * i + 3] == ByteOf(ws[i], 3);
    }
  }

  lemma ZeroWords()
    ensures Words(Zeros()) == NoWords()
  {}
}
