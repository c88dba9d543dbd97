/** Inodes, block maps, the free bitmap and block ownership, as values. */
module FsModel {
  import opened Common
  import opened Blocks

  const NDIRECT: nat := 12
  const NINDIRECT: nat := 128
  const MAXFILE: nat := 140
  const MAXBYTES: nat := 71680      // MAXFILE * BSIZE
  const NSLOT: nat := 141           // NDIRECT addresses, the indirect pointer, NINDIRECT entries
  const BPB: nat := 4096
  const IPB: nat := 8
  const T_DEV: nat := 3

  /** The block of a file that a position falls into, the place inside that block, and the
      position at which a block starts. */
  function BlockOf(pos: nat): nat { pos / 512 }
  function Offset(pos: nat): nat { pos % 512 }
  function StartOf(bn: nat): nat { 512 * bn }

  type Addrs = a: seq<nat> | |a| == NDIRECT + 1 witness seq(13, _ => 0)

  /** A 16-bit field of an inode. */
  type short = x: int | 0 <= x < 0x1_0000

  datatype Inode = Inode(ty: short, nlink: short, size: nat, addrs: Addrs)

  /** The geometry of the disk; blocks below `meta` are not data blocks. */
  datatype Super = Super(size: nat, ninodes: nat, inodestart: nat, bmapstart: nat, meta: nat) {
    predicate Valid() {
      0 < meta <= size < UINT
    }
    /** The bitmap block that holds the bit of block b. */
    function BBlock(b: nat): nat { b / BPB + bmapstart }
    /** The block that holds inode i. */
    function IBlock(i: nat): nat { i / IPB + inodestart }
  }

  /** A place where a block address is stored: address k of inode i; from NDIRECT + 1 on, an
      entry of its indirect block. */
  datatype Slot = Slot(i: nat, k: nat)

  /** The slot that maps the n-th block of a file. */
  function SlotOf(bn: nat): (k: nat)
    ensures k != NDIRECT
  {
    if bn < NDIRECT then bn else bn + 1
  }

  function SlotAddr(blocks: seq<Block>, ino: Inode, k: nat): (a: nat)
    requires k < NSLOT
  {
    if k <= NDIRECT then ino.addrs[k]
    else
      var t := ino.addrs[NDIRECT];
      if t == 0 || t >= |blocks| then 0 else Word(blocks[t], k - NDIRECT - 1)
  }

  /** The byte of a file at a position; positions that are not mapped read as zero. */
  function ByteAt(blocks: seq<Block>, ino: Inode, pos: nat): (b: byte)
    requires pos < MAXBYTES
  {
    var a := SlotAddr(blocks, ino, SlotOf(BlockOf(pos)));
    if a == 0 || a >= |blocks| then 0 else blocks[a][Offset(pos)]
  }

  /** The first n bytes of a file. */
  function Bytes(blocks: seq<Block>, ino: Inode, n: nat): (s: seq<byte>)
    requires n <= MAXBYTES
    ensures |s| == n
  {
    if n == 0 then [] else Bytes(blocks, ino, n - 1) + [ByteAt(blocks, ino, n - 1)]
  }

  /** The contents of a file. */
  function Contents(blocks: seq<Block>, ino: Inode): (s: seq<byte>)
    requires ino.size <= MAXBYTES
    ensures |s| == ino.size
  {
    Bytes(blocks, ino, ino.size)
  }

  lemma {:induction false} BytesAt(blocks: seq<Block>, ino: Inode, n: nat, p: nat)
    requires p < n <= MAXBYTES
    ensures Bytes(blocks, ino, n)[p] == ByteAt(blocks, ino, p)
  {
    if p < n - 1 {
      BytesAt(blocks, ino, n - 1, p);
    }
  }

  /** Every block that the size reaches into is mapped. */
  ghost predicate NoHoles(blocks: seq<Block>, ino: Inode) {
    && ino.size <= MAXBYTES
    && forall bn {:trigger Mapped(blocks, ino, bn)} ::
       0 <= bn < MAXFILE && StartOf(bn) < ino.size ==> Mapped(blocks, ino, bn)
  }

  /** No file has holes. */
  ghost predicate AllMapped(blocks: seq<Block>, inos: seq<Inode>) {
    forall j {:trigger NoHoles(blocks, inos[j])} :: 0 <= j < |inos| ==> NoHoles(blocks, inos[j])
  }

  ghost predicate Mapped(blocks: seq<Block>, ino: Inode, bn: nat)
    requires bn < MAXFILE
  {
    SlotAddr(blocks, ino, SlotOf(bn)) != 0
  }

  /** A slot that holds an address is recorded as the owner of that block. */
  ghost predicate SlotOwns(blocks: seq<Block>, inos: seq<Inode>, owner: map<nat, Slot>, i: nat, k: nat)
    requires i < |inos| && k < NSLOT
  {
    var a := SlotAddr(blocks, inos[i], k);
    a != 0 ==> a in owner && owner[a] == Slot(i, k)
  }

  /** A recorded owner really holds the address, and the block is a data block. */
  ghost predicate OwnerHolds(sup: Super, blocks: seq<Block>, inos: seq<Inode>, owner: map<nat, Slot>, b: nat)
    requires b in owner
  {
    var s := owner[b];
    sup.meta <= b < sup.size && s.i < |inos| && s.k < NSLOT && SlotAddr(blocks, inos[s.i], s.k) == b
  }

  /** Ownership: a bit is set exactly for metadata and for blocks held by exactly one slot. */
  ghost predicate Owned(sup: Super, bitmap: seq<bool>, blocks: seq<Block>, inos: seq<Inode>, owner: map<nat, Slot>) {
    && sup.Valid() && |bitmap| == |blocks| == sup.size
    && (forall i, k {:trigger SlotOwns(blocks, inos, owner, i, k)} ::
          0 <= i < |inos| && 0 <= k < NSLOT ==> SlotOwns(blocks, inos, owner, i, k))
    && (forall b {:trigger OwnerHolds(sup, blocks, inos, owner, b)} ::
         b in owner ==> OwnerHolds(sup, blocks, inos, owner, b))
    && (forall b {:trigger BitOk(sup, bitmap, owner, b)} :: 0 <= b < sup.size ==> BitOk(sup, bitmap, owner, b))
  }

  /** The bit of a block is set for metadata and for owned blocks. */
  ghost predicate BitOk(sup: Super, bitmap: seq<bool>, owner: map<nat, Slot>, b: nat)
    requires b < |bitmap|
  {
    bitmap[b] <==> b < sup.meta || b in owner
  }

  /** No block is mapped twice. */
  lemma OwnedOnce(sup: Super, bitmap: seq<bool>, blocks: seq<Block>, inos: seq<Inode>, owner: map<nat, Slot>, s: Slot,
                  t: Slot)
    requires Owned(sup, bitmap, blocks, inos, owner)
    requires s.i < |inos| && t.i < |inos| && s.k < NSLOT && t.k < NSLOT && s != t
    ensures var a := SlotAddr(blocks, inos[s.i], s.k); a == 0 || a != SlotAddr(blocks, inos[t.i], t.k)
  {
    assert SlotOwns(blocks, inos, owner, s.i, s.k) && SlotOwns(blocks, inos, owner, t.i, t.k);
  }

  /** A mapped slot holds a data block whose bit is set. */
  lemma SlotInRange(sup: Super, bitmap: seq<bool>, blocks: seq<Block>, inos: seq<Inode>, owner: map<nat, Slot>, i: nat,
                    k: nat)
    requires Owned(sup, bitmap, blocks, inos, owner) && i < |inos| && k < NSLOT
    ensures var a := SlotAddr(blocks, inos[i], k);
      a != 0 ==> a in owner && owner[a] == Slot(i, k) && sup.meta <= a < sup.size && bitmap[a]
  {
    var a := SlotAddr(blocks, inos[i], k);
    assert SlotOwns(blocks, inos, owner, i, k);
    if a != 0 {
      assert OwnerHolds(sup, blocks, inos, owner, a);
      assert BitOk(sup, bitmap, owner, a);
    }
  }

  /** A block whose bit is clear is a data block that no slot holds. */
  lemma FreeUnowned(sup: Super, bitmap: seq<bool>, blocks: seq<Block>, inos: seq<Inode>, owner: map<nat, Slot>, b: nat)
    requires Owned(sup, bitmap, blocks, inos, owner) && b < sup.size && !bitmap[b]
    ensures b !in owner && sup.meta <= b
  {
    assert BitOk(sup, bitmap, owner, b);
  }

  /** Slots of two states agree everywhere, except that slot (i, k) now holds b. */
  ghost predicate SlotsMoved(blocks: seq<Block>, inos: seq<Inode>, blocks': seq<Block>, inos': seq<Inode>, s: Slot,
                             b: nat) {
    && |inos| == |inos'|
    && forall j, l :: 0 <= j < |inos| && 0 <= l < NSLOT ==>
         SlotAddr(blocks', inos'[j], l) == if Slot(j, l) == s then b else SlotAddr(blocks, inos[j], l)
  }

  /** Giving a free block to an empty slot keeps ownership. */
  lemma GrantKeepsOwned(sup: Super, bitmap: seq<bool>, blocks: seq<Block>, inos: seq<Inode>, owner: map<nat, Slot>,
                        blocks': seq<Block>, inos': seq<Inode>, s: Slot, b: nat)
    requires Owned(sup, bitmap, blocks, inos, owner) && |blocks'| == |blocks|
    requires b < sup.size && !bitmap[b] && s.i < |inos| && s.k < NSLOT
    requires SlotAddr(blocks, inos[s.i], s.k) == 0
    requires SlotsMoved(blocks, inos, blocks', inos', s, b)
    ensures Owned(sup, bitmap[b := true], blocks', inos', owner[b := s])
  {
    var owner' := owner[b := s];
    FreeUnowned(sup, bitmap, blocks, inos, owner, b);
    forall i, k | 0 <= i < |inos'| && 0 <= k < NSLOT ensures SlotOwns(blocks', inos', owner', i, k) {
      assert SlotOwns(blocks, inos, owner, i, k);
    }
    forall a | a in owner' ensures OwnerHolds(sup, blocks', inos', owner', a) {
      if a != b {
        assert OwnerHolds(sup, blocks, inos, owner, a);
        assert owner[a] != s;
      }
    }
    var bitmap' := bitmap[b := true];
    forall a | 0 <= a < sup.size ensures BitOk(sup, bitmap', owner', a) {
      assert BitOk(sup, bitmap, owner, a);
    }
  }

  /** Files read the same in both states, at every position. */
  ghost predicate SameBytes(blocks: seq<Block>, inos: seq<Inode>, blocks': seq<Block>, inos': seq<Inode>) {
    && |inos| == |inos'|
    && forall j, p ::
       0 <= j < |inos| && 0 <= p < MAXBYTES ==> ByteAt(blocks', inos'[j], p) == ByteAt(blocks, inos[j], p)
  }

  function WithAddr(ino: Inode, k: nat, b: nat): (r: Inode)
    requires k <= NDIRECT
  {
    ino.(addrs := ino.addrs[k := b])
  }
}
