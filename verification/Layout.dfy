/** Where things lie on the disk, byte by byte, as fs.h and log.c declare it. */
module Layout {
  import opened Common
  import opened Blocks
  import opened FsModel
  import opened FsLemmas
  import opened FsImage
  import opened DirModel
  import opened LogModel

  /** Two and four bytes of a block as numbers, the least significant first. */
  function Two(b: Block, o: nat): nat
    requires o + 2 <= 512
  {
    b[o] as int + 0x100 * b[o + 1] as int
  }

  function Four(b: Block, o: nat): nat
    requires o + 4 <= 512
  {
    b[o] as int + 0x100 * b[o + 1] as int + 0x1_0000 * b[o + 2] as int + 0x100_0000 * b[o + 3] as int
  }

  lemma LittleFour(s: seq<byte>)
    requires |s| == 4
    ensures Little(s) == s[0] as int + 0x100 * s[1] as int + 0x1_0000 * s[2] as int + 0x100_0000 * s[3] as int
  {
    assert Little([]) == 0 && s[3..][1..] == [] && Little(s[3..]) == s[3];
    assert s[2..][1..] == s[3..] && Little(s[2..]) == s[2] as int + 0x100 * Little(s[3..]);
    assert s[1..][1..] == s[2..] && Little(s[1..]) == s[1] as int + 0x100 * Little(s[2..]);
  }

  lemma WordBytes(b: Block, i: nat)
    requires i < 128
    ensures Word(b, i) == Four(b, 4 * i) == Two(b, 4 * i) + 0x1_0000 * Two(b, 4 * i + 2)
  {
    LittleFour(b[4 * i..4 * i + 4]);
  }

  lemma InodeInBytes(blk: Block, s: nat)
    requires s < 8
    ensures var o, ino := 64 * s, InodeIn(blk, s);
      && ino.ty == Two(blk, o) && ino.nlink == Two(blk, o + 6) && ino.size == Four(blk, o + 8)
      && forall k :: 0 <= k < 13 ==> ino.addrs[k] == Four(blk, o + 12 + 4 * k)
  {
    WordBytes(blk, 16 * s);
    WordBytes(blk, 16 * s + 1);
    WordBytes(blk, 16 * s + 2);
    HalfLow(Two(blk, 64 * s), Two(blk, 64 * s + 2));
    HalfLow(Two(blk, 64 * s + 4), Two(blk, 64 * s + 6));
    forall k | 0 <= k < 13 ensures InodeIn(blk, s).addrs[k] == Four(blk, 64 * s + 12 + 4 * k) {
      WordBytes(blk, 16 * s + 3 + k);
    }
  }

  /** struct dinode: 64 bytes, eight to a block from inodestart on; two bytes of type, then major, minor and nlink,
      four of size, and thirteen addresses of four. */
  lemma InodeBytes(sup: Super, disk: seq<Block>, i: nat)
    requires Laid(sup) && |disk| == sup.size && i < sup.ninodes
    ensures i / 8 + sup.inodestart < |disk|
    ensures var blk, o, ino := disk[i / 8 + sup.inodestart], 64 * (i % 8), Inodes(sup, disk)[i];
      && ino.ty == Two(blk, o) && ino.nlink == Two(blk, o + 6) && ino.size == Four(blk, o + 8)
      && forall k :: 0 <= k < 13 ==> ino.addrs[k] == Four(blk, o + 12 + 4 * k)
  {
    var blk, s := disk[i / 8 + sup.inodestart], i % 8;
    assert Inodes(sup, disk)[i] == InodeIn(blk, s);
    InodeInBytes(blk, s);
  }

  lemma HalfLow(lo: nat, hi: nat)
    requires lo < 0x1_0000
    ensures (lo + 0x1_0000 * hi) % 0x1_0000 == lo && (lo + 0x1_0000 * hi) / 0x1_0000 == hi
  {
  }

  /** 1 << j. */
  function Mask(j: nat): (m: nat)
    requires j < 8
    ensures m > 0
  {
    [1, 2, 4, 8, 16, 32, 64, 128][j]
  }

  /** The bit of block b in the free map: in the blocks from bmapstart on, 4096 to a block, bit b % 8 of a byte. */
  lemma BitByte(sup: Super, disk: seq<Block>, b: nat)
    requires Laid(sup) && |disk| == sup.size && b < sup.size
    ensures b / 4096 + sup.bmapstart < |disk|
    ensures Bits(sup, disk)[b] <==> disk[b / 4096 + sup.bmapstart][b % 4096 / 8] as int / Mask(b % 8) % 2 == 1
  {
    var blk, i := disk[b / 4096 + sup.bmapstart], b % 4096;
    assert Bits(sup, disk)[b] == BlockBit(blk, i);
    BlockBitIs(blk, i);
    LowBits(b);
  }

  lemma LowBits(b: nat)
    ensures b % 4096 % 8 == b % 8
  {
  }

  lemma BlockBitIs(blk: Block, i: nat)
    requires i < 4096
    ensures BlockBit(blk, i) <==> blk[i / 8] as int / Mask(i % 8) % 2 == 1
  {
    BitInIs(blk[i / 8], i % 8);
  }

  lemma {:induction false} BitInIs(x: nat, j: nat)
    requires j < 8
    ensures BitIn(x, j) <==> x / Mask(j) % 2 == 1
  {
    if j > 0 {
      BitInIs(x / 2, j - 1);
      Halved(x, j);
    }
  }

  lemma Halved(x: nat, j: nat)
    requires 0 < j < 8
    ensures x / 2 / Mask(j - 1) == x / Mask(j)
  {
    match j
    case 1 =>
    case 2 =>
    case 3 =>
    case 4 =>
    case 5 =>
    case 6 =>
    case 7 =>
  }

  /** Byte p of a file: in the block that one of the first twelve addresses gives, or else one of the entries of
      the block that the thirteenth gives. */
  lemma FileByte(blocks: seq<Block>, ino: Inode, p: nat)
    requires p < ino.size <= 71680
    ensures p < 6144 && 0 < ino.addrs[p / 512] < |blocks| ==>
      Contents(blocks, ino)[p] == blocks[ino.addrs[p / 512]][p % 512]
    ensures p >= 6144 && 0 < ino.addrs[12] < |blocks| ==>
      var a := Four(blocks[ino.addrs[12]], 4 * (p / 512 - 12));
      0 < a < |blocks| ==> Contents(blocks, ino)[p] == blocks[a][p % 512]
  {
    BytesAt(blocks, ino, ino.size, p);
    if p >= 6144 && 0 < ino.addrs[12] < |blocks| {
      WordBytes(blocks[ino.addrs[12]], p / 512 - 12);
    }
  }

  /** struct dirent: two bytes of inode number, fourteen of name, padded with NULs. */
  lemma DirentBytes(name: Name, inum: nat, k: nat)
    requires inum < 0x1_0000 && k < 14
    ensures var e := Dirent(name, inum);
      |e| == 16 && e[0] == inum % 256 && e[1] == inum / 256 && e[2 + k] == if k < |name| then name[k] else 0
  {
  }

  lemma EntryBytes(e: seq<byte>, k: nat)
    requires |e| == 16 && k < 14
    ensures Inum(e) == e[0] as int + 0x100 * e[1] as int
    ensures k < |NameIn(e)| <==> forall j :: 2 <= j <= 2 + k ==> e[j] != 0
    ensures k < |NameIn(e)| ==> NameIn(e)[k] == e[2 + k]
  {
    CutIs(e[2..], k);
    assert forall j :: 2 <= j < 16 ==> e[j] == e[2..][j - 2];
  }

  lemma {:induction false} CutIs(s: seq<byte>, k: nat)
    requires k < |s|
    ensures k < |Cut(s)| <==> forall j :: 0 <= j <= k ==> s[j] != 0
    ensures k < |Cut(s)| ==> Cut(s)[k] == s[k]
  {
    if s[0] != 0 && k > 0 {
      CutIs(s[1..], k - 1);
      assert forall j :: 0 < j <= k ==> s[1..][j - 1] == s[j];
    }
  }

  /** struct logheader: the count, then that many block numbers. */
  lemma HeaderBytes(blk: Block, i: nat)
    requires HeaderFits(blk) && i < |Header(blk)|
    ensures |Header(blk)| == Four(blk, 0) && Header(blk)[i] == Four(blk, 4 + 4 * i)
  {
    WordBytes(blk, 0);
    WordBytes(blk, i + 1);
  }
}
