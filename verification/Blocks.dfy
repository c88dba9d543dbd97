/** Disk blocks as byte sequences, and the little-endian words stored in them.
    The log header and the indirect blocks are arrays of 32-bit words laid over
    the bytes of a block. */
module Blocks {
  import opened Common

  const BSIZE: nat := 512
  const WORDS: nat := 128

  type byte = x: int | 0 <= x < 256

  type Block = b: seq<byte> | |b| == BSIZE witness seq(BSIZE, _ => 0)

  /** An all-zero block. */
  const ZERO_BLOCK: Block := seq(BSIZE, _ => 0)

  /** 256 to the n. */
  function Scale(n: nat): (r: nat)
    ensures r > 0
  {
    if n == 0 then 1 else 256 * Scale(n - 1)
  }

  /** The number that bytes stand for, the least significant first. */
  function Little(s: seq<byte>): (n: nat)
    ensures n < Scale(|s|)
  {
    if s == [] then 0 else s[0] as int + 256 * Little(s[1..])
  }

  /** The n bytes that store a number. */
  function Digits(w: nat, n: nat): (s: seq<byte>)
    ensures |s| == n
  {
    if n == 0 then [] else [w % 256] + Digits(w / 256, n - 1)
  }

  lemma {:induction false} DigitsRead(w: nat, n: nat)
    requires w < Scale(n)
    ensures Little(Digits(w, n)) == w
  {
    if n > 0 {
      DigitsRead(w / 256, n - 1);
      assert Digits(w, n)[1..] == Digits(w / 256, n - 1);
    }
  }

  lemma {:induction false} ZerosRead(s: seq<byte>)
    requires forall i :: 0 <= i < |s| ==> s[i] == 0
    ensures Little(s) == 0
  {
    if s != [] {
      ZerosRead(s[1..]);
    }
  }

  lemma ScaleOfFour()
    ensures Scale(4) == UINT
  {
    assert Scale(2) == 256 * Scale(1) && Scale(3) == 256 * Scale(2);
  }

  /** The i-th 32-bit word of a block. */
  function Word(b: Block, i: nat): (w: nat)
    requires i < WORDS
    ensures w < UINT
  {
    ScaleOfFour();
    Little(b[4 * i..4 * i + 4])
  }

  /** The block with its i-th word replaced. */
  function SetWord(b: Block, i: nat, w: nat): (r: Block)
    requires i < WORDS && w < UINT
  {
    b[..4 * i] + Digits(w, 4) + b[4 * i + 4..]
  }

  /** Storing a word makes it readable and leaves every other word alone. */
  lemma WordAfterSet(b: Block, i: nat, w: nat, j: nat)
    requires i < WORDS && w < UINT && j < WORDS
    ensures Word(SetWord(b, i, w), j) == if i == j then w else Word(b, j)
  {
    var r := SetWord(b, i, w);
    if i == j {
      ScaleOfFour();
      DigitsRead(w, 4);
      assert r[4 * i..4 * i + 4] == Digits(w, 4);
    } else {
      assert r[4 * j..4 * j + 4] == b[4 * j..4 * j + 4];
    }
  }

  lemma WordOfZero(i: nat)
    requires i < WORDS
    ensures Word(ZERO_BLOCK, i) == 0
  {
    ZerosRead(ZERO_BLOCK[4 * i..4 * i + 4]);
  }
}
