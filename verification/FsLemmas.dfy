/** What allocating, writing and freeing a block do to ownership and to file contents. */
module FsLemmas {
  import opened Common
  import opened Blocks
  import opened FsModel

  /** When an empty slot gets a zeroed block and no data block changes, every file still
      reads the same. */
  lemma GrantKeepsBytes(sup: Super, bitmap: seq<bool>, blocks: seq<Block>, inos: seq<Inode>, owner: map<nat, Slot>,
                        blocks': seq<Block>, inos': seq<Inode>, s: Slot, b: nat)
    requires Owned(sup, bitmap, blocks, inos, owner) && |blocks'| == |blocks|
    requires b < sup.size && !bitmap[b] && s.i < |inos| && s.k < NSLOT
    requires SlotAddr(blocks, inos[s.i], s.k) == 0
    requires SlotsMoved(blocks, inos, blocks', inos', s, b) && blocks'[b] == ZERO_BLOCK
    requires forall a :: a in owner && owner[a].k != NDIRECT ==> a >= |blocks| || blocks'[a] == blocks[a]
    ensures SameBytes(blocks, inos, blocks', inos')
  {
    FreeUnowned(sup, bitmap, blocks, inos, owner, b);
    forall j, p | 0 <= j < |inos| && 0 <= p < MAXBYTES
      ensures ByteAt(blocks', inos'[j], p) == ByteAt(blocks, inos[j], p)
    {
      var k := SlotOf(BlockOf(p));
      SlotInRange(sup, bitmap, blocks, inos, owner, j, k);
      assert SlotAddr(blocks', inos'[j], k) == if Slot(j, k) == s then b else SlotAddr(blocks, inos[j], k);
    }
  }

  /** A direct address or the indirect pointer gets a fresh block. */
  lemma GrantAddr(sup: Super, bitmap: seq<bool>, blocks: seq<Block>, inos: seq<Inode>, owner: map<nat, Slot>, i: nat,
                  k: nat, b: nat)
    requires Owned(sup, bitmap, blocks, inos, owner)
    requires b < sup.size && !bitmap[b] && i < |inos| && k <= NDIRECT && inos[i].addrs[k] == 0
    ensures var blocks', inos' := blocks[b := ZERO_BLOCK], inos[i := WithAddr(inos[i], k, b)];
      && Owned(sup, bitmap[b := true], blocks', inos', owner[b := Slot(i, k)])
      && SlotsMoved(blocks, inos, blocks', inos', Slot(i, k), b)
      && SameBytes(blocks, inos, blocks', inos')
  {
    var blocks', inos' := blocks[b := ZERO_BLOCK], inos[i := WithAddr(inos[i], k, b)];
    FreeUnowned(sup, bitmap, blocks, inos, owner, b);
    forall j, l | 0 <= j < |inos| && 0 <= l < NSLOT
      ensures SlotAddr(blocks', inos'[j], l) == if Slot(j, l) == Slot(i, k) then b else SlotAddr(blocks, inos[j], l)
    {
      SlotInRange(sup, bitmap, blocks, inos, owner, j, NDIRECT);
      if l > NDIRECT {
        WordOfZero(l - NDIRECT - 1);
      }
    }
    forall a | a in owner ensures a != b {
      assert OwnerHolds(sup, blocks, inos, owner, a);
    }
    GrantKeepsOwned(sup, bitmap, blocks, inos, owner, blocks', inos', Slot(i, k), b);
    GrantKeepsBytes(sup, bitmap, blocks, inos, owner, blocks', inos', Slot(i, k), b);
  }

  /** An entry of the indirect block gets a fresh block. */
  lemma GrantEntry(sup: Super, bitmap: seq<bool>, blocks: seq<Block>, inos: seq<Inode>, owner: map<nat, Slot>, i: nat,
                   e: nat, b: nat)
    requires Owned(sup, bitmap, blocks, inos, owner)
    requires b < sup.size && !bitmap[b] && i < |inos| && e < NINDIRECT
    requires 0 < inos[i].addrs[NDIRECT] < |blocks| && Word(blocks[inos[i].addrs[NDIRECT]], e) == 0
    ensures var t := inos[i].addrs[NDIRECT];
      var blocks' := blocks[b := ZERO_BLOCK][t := SetWord(blocks[t], e, b)];
      && Owned(sup, bitmap[b := true], blocks', inos, owner[b := Slot(i, NDIRECT + 1 + e)])
      && SlotsMoved(blocks, inos, blocks', inos, Slot(i, NDIRECT + 1 + e), b)
      && SameBytes(blocks, inos, blocks', inos)
  {
    var t := inos[i].addrs[NDIRECT];
    var blocks' := blocks[b := ZERO_BLOCK][t := SetWord(blocks[t], e, b)];
    var s := Slot(i, NDIRECT + 1 + e);
    FreeUnowned(sup, bitmap, blocks, inos, owner, b);
    SlotInRange(sup, bitmap, blocks, inos, owner, i, NDIRECT);
    assert SlotAddr(blocks, inos[i], NDIRECT) == t;
    forall j, l | 0 <= j < |inos| && 0 <= l < NSLOT
      ensures SlotAddr(blocks', inos[j], l) == if Slot(j, l) == s then b else SlotAddr(blocks, inos[j], l)
    {
      SlotInRange(sup, bitmap, blocks, inos, owner, j, NDIRECT);
      if l > NDIRECT {
        WordAfterSet(blocks[t], e, b, l - NDIRECT - 1);
        if j != i {
          OwnedOnce(sup, bitmap, blocks, inos, owner, Slot(i, NDIRECT), Slot(j, NDIRECT));
        }
      }
    }
    forall a | a in owner ensures a != b && (a == t ==> owner[a].k == NDIRECT) {
      assert OwnerHolds(sup, blocks, inos, owner, a);
    }
    GrantKeepsOwned(sup, bitmap, blocks, inos, owner, blocks', inos, s, b);
    GrantKeepsBytes(sup, bitmap, blocks, inos, owner, blocks', inos, s, b);
  }

  /** The slots of two states agree everywhere. */
  ghost predicate SameSlots(blocks: seq<Block>, blocks': seq<Block>, inos: seq<Inode>) {
    forall j, l :: 0 <= j < |inos| && 0 <= l < NSLOT ==> SlotAddr(blocks', inos[j], l) == SlotAddr(blocks, inos[j], l)
  }

  /** Block bn of file i now holds `data`; every other byte of every file is as before. */
  ghost predicate WroteBlock(blocks: seq<Block>, blocks': seq<Block>, inos: seq<Inode>, i: nat, bn: nat, data: Block) {
    forall j, p :: 0 <= j < |inos| && 0 <= p < MAXBYTES ==>
      ByteAt(blocks', inos[j], p) == Overwritten(blocks, inos[j], j == i, bn, data, p)
  }

  function Overwritten(blocks: seq<Block>, ino: Inode, here: bool, bn: nat, data: Block, p: nat): (b: byte)
    requires p < MAXBYTES
  {
    if here && BlockOf(p) == bn then data[Offset(p)] else ByteAt(blocks, ino, p)
  }

  /** Overwriting a data block changes that block of that file and nothing else. */
  lemma DataWrite(sup: Super, bitmap: seq<bool>, blocks: seq<Block>, inos: seq<Inode>, owner: map<nat, Slot>, i: nat,
                  bn: nat, data: Block)
    requires Owned(sup, bitmap, blocks, inos, owner) && i < |inos| && bn < MAXFILE
    requires SlotAddr(blocks, inos[i], SlotOf(bn)) != 0
    ensures SlotAddr(blocks, inos[i], SlotOf(bn)) < |blocks|
    ensures var blocks' := blocks[SlotAddr(blocks, inos[i], SlotOf(bn)) := data];
      && Owned(sup, bitmap, blocks', inos, owner) && SameSlots(blocks, blocks', inos)
      && WroteBlock(blocks, blocks', inos, i, bn, data)
  {
    var a := SlotAddr(blocks, inos[i], SlotOf(bn));
    SlotInRange(sup, bitmap, blocks, inos, owner, i, SlotOf(bn));
    var blocks' := blocks[a := data];
    forall j, l | 0 <= j < |inos| && 0 <= l < NSLOT
      ensures SlotAddr(blocks', inos[j], l) == SlotAddr(blocks, inos[j], l)
    {
      SlotInRange(sup, bitmap, blocks, inos, owner, j, NDIRECT);
    }
    SameSlotsOwned(sup, bitmap, blocks, inos, owner, blocks');
    forall j, p | 0 <= j < |inos| && 0 <= p < MAXBYTES
      ensures ByteAt(blocks', inos[j], p) == Overwritten(blocks, inos[j], j == i, bn, data, p)
    {
      SlotInRange(sup, bitmap, blocks, inos, owner, j, SlotOf(BlockOf(p)));
    }
  }

  lemma SameSlotsOwned(sup: Super, bitmap: seq<bool>, blocks: seq<Block>, inos: seq<Inode>, owner: map<nat, Slot>,
                       blocks': seq<Block>)
    requires Owned(sup, bitmap, blocks, inos, owner) && |blocks'| == |blocks| && SameSlots(blocks, blocks', inos)
    ensures Owned(sup, bitmap, blocks', inos, owner)
  {
    forall i, k | 0 <= i < |inos| && 0 <= k < NSLOT ensures SlotOwns(blocks', inos, owner, i, k) {
      assert SlotOwns(blocks, inos, owner, i, k);
    }
    forall b | b in owner ensures OwnerHolds(sup, blocks', inos, owner, b) {
      assert OwnerHolds(sup, blocks, inos, owner, b);
    }
  }

  // ----- freeing -----

  /** The ownership that is left when inode i gives up its blocks. */
  function Disown(owner: map<nat, Slot>, i: nat): (r: map<nat, Slot>) {
    map b | b in owner && owner[b].i != i :: owner[b]
  }

  function Emptied(ino: Inode): (r: Inode) {
    ino.(size := 0, addrs := seq(NDIRECT + 1, _ => 0))
  }

  /** Clearing the bits of all of an inode's blocks and emptying the inode keeps ownership. */
  lemma ReleaseAll(sup: Super, bitmap: seq<bool>, blocks: seq<Block>, inos: seq<Inode>, owner: map<nat, Slot>, i: nat,
                   bitmap': seq<bool>, ino: Inode)
    requires Owned(sup, bitmap, blocks, inos, owner) && i < |inos| && |bitmap'| == |bitmap|
    requires forall k :: 0 <= k <= NDIRECT ==> ino.addrs[k] == 0
    requires forall b :: 0 <= b < |bitmap| ==> (bitmap'[b] <==> bitmap[b] && !(b in owner && owner[b].i == i))
    ensures Owned(sup, bitmap', blocks, inos[i := ino], Disown(owner, i))
  {
    var inos', owner' := inos[i := ino], Disown(owner, i);
    forall j, k | 0 <= j < |inos'| && 0 <= k < NSLOT ensures SlotOwns(blocks, inos', owner', j, k) {
      assert SlotOwns(blocks, inos, owner, j, k);
    }
    forall b | b in owner' ensures OwnerHolds(sup, blocks, inos', owner', b) {
      assert OwnerHolds(sup, blocks, inos, owner, b);
    }
    forall b | 0 <= b < sup.size ensures BitOk(sup, bitmap', owner', b) {
      assert BitOk(sup, bitmap, owner, b);
      if b in owner {
        assert OwnerHolds(sup, blocks, inos, owner, b);
      }
    }
  }

  // ----- relations between the state before and after -----

  /** The byte that a file shows at p once `data` has been written at `off`, if it is this file. */
  function SplicedByte(blocks: seq<Block>, ino: Inode, here: bool, off: nat, data: seq<byte>, p: nat): (b: byte)
    requires p < MAXBYTES
  {
    if here && off <= p < off + |data| then data[p - off] else ByteAt(blocks, ino, p)
  }

  /** File i now has `data` at `off`; every other byte of every file is as before. */
  ghost predicate Spliced(blocks: seq<Block>, inos: seq<Inode>, blocks': seq<Block>, inos': seq<Inode>, i: nat,
                          off: nat, data: seq<byte>) {
    && |inos| == |inos'|
    && forall j, p :: 0 <= j < |inos| && 0 <= p < MAXBYTES ==>
         ByteAt(blocks', inos'[j], p) == SplicedByte(blocks, inos[j], j == i, off, data, p)
  }

  lemma PatchSplices(blocks: seq<Block>, inos: seq<Inode>, blocks': seq<Block>, i: nat, off: nat, data: seq<byte>,
                     patched: Block)
    requires i < |inos| && 0 < |data| && Offset(off) + |data| <= BSIZE && off + |data| <= MAXBYTES
    requires Mapped(blocks, inos[i], BlockOf(off)) && SlotAddr(blocks, inos[i], SlotOf(BlockOf(off))) < |blocks|
    requires var o := Offset(off); var blk := blocks[SlotAddr(blocks, inos[i], SlotOf(BlockOf(off)))];
      patched == blk[..o] + data + blk[o + |data|..]
    requires WroteBlock(blocks, blocks', inos, i, BlockOf(off), patched)
    ensures Spliced(blocks, inos, blocks', inos, i, off, data)
  {
    forall j, p | 0 <= j < |inos| && 0 <= p < MAXBYTES
      ensures ByteAt(blocks', inos[j], p) == SplicedByte(blocks, inos[j], j == i, off, data, p)
    {
      assert ByteAt(blocks', inos[j], p) == Overwritten(blocks, inos[j], j == i, BlockOf(off), patched, p);
    }
  }

  lemma SplicedAfterSame(blocks: seq<Block>, inos: seq<Inode>, blocks1: seq<Block>, blocks2: seq<Block>,
                         inos2: seq<Inode>, i: nat, off: nat, data: seq<byte>)
    requires SameBytes(blocks, inos, blocks1, inos2) && Spliced(blocks1, inos2, blocks2, inos2, i, off, data)
    ensures Spliced(blocks, inos, blocks2, inos2, i, off, data)
  {
    forall j, p | 0 <= j < |inos| && 0 <= p < MAXBYTES
      ensures ByteAt(blocks2, inos2[j], p) == SplicedByte(blocks, inos[j], j == i, off, data, p)
    {
      assert ByteAt(blocks1, inos2[j], p) == ByteAt(blocks, inos[j], p);
      assert ByteAt(blocks2, inos2[j], p) == SplicedByte(blocks1, inos2[j], j == i, off, data, p);
    }
  }

  lemma SameSlotsMapped(blocks: seq<Block>, blocks': seq<Block>, inos: seq<Inode>)
    requires SameSlots(blocks, blocks', inos)
    ensures forall j, bn :: 0 <= j < |inos| && 0 <= bn < MAXFILE ==>
      Mapped(blocks', inos[j], bn) == Mapped(blocks, inos[j], bn)
    ensures forall j :: 0 <= j < |inos| && NoHoles(blocks, inos[j]) ==> NoHoles(blocks', inos[j])
    ensures forall j :: 0 <= j < |inos| ==> SlotsKept(blocks, inos[j], blocks', inos[j])
  {
    forall j, bn | 0 <= j < |inos| && 0 <= bn < MAXFILE
      ensures Mapped(blocks', inos[j], bn) == Mapped(blocks, inos[j], bn)
    {
      assert SlotAddr(blocks', inos[j], SlotOf(bn)) == SlotAddr(blocks, inos[j], SlotOf(bn));
    }
  }

  /** The indirect block, for block numbers that go through it. */
  function Tables(ino: Inode, bn: nat): (r: set<nat>) {
    if bn < NDIRECT then {} else {ino.addrs[NDIRECT]}
  }

  lemma SameBytesTrans(blocks: seq<Block>, inos: seq<Inode>, blocks1: seq<Block>, inos1: seq<Inode>,
                       blocks2: seq<Block>, inos2: seq<Inode>)
    requires SameBytes(blocks, inos, blocks1, inos1) && SameBytes(blocks1, inos1, blocks2, inos2)
    ensures SameBytes(blocks, inos, blocks2, inos2)
  {
  }

  lemma SlotsKeptTrans(blocks: seq<Block>, ino: Inode, blocks1: seq<Block>, ino1: Inode, blocks2: seq<Block>,
                       ino2: Inode)
    requires SlotsKept(blocks, ino, blocks1, ino1) && SlotsKept(blocks1, ino1, blocks2, ino2)
    ensures SlotsKept(blocks, ino, blocks2, ino2)
  {
    forall l | 0 <= l < NSLOT
      ensures SlotAddr(blocks2, ino2, l) == SlotAddr(blocks, ino, l) || SlotAddr(blocks, ino, l) == 0
    {
      assert SlotAddr(blocks1, ino1, l) == SlotAddr(blocks, ino, l) || SlotAddr(blocks, ino, l) == 0;
    }
  }

  /** No slot loses or changes its block; empty slots may gain one. */
  ghost predicate SlotsKept(blocks: seq<Block>, ino: Inode, blocks': seq<Block>, ino': Inode) {
    forall l {:trigger SlotAddr(blocks', ino', l)} :: 0 <= l < NSLOT ==>
      SlotAddr(blocks', ino', l) == SlotAddr(blocks, ino, l) || SlotAddr(blocks, ino, l) == 0
  }

  /** Where slots only gain blocks, no file gets a hole. */
  lemma KeptFromMoved(blocks: seq<Block>, inos: seq<Inode>, blocks': seq<Block>, inos': seq<Inode>, s: Slot, b: nat,
                      i: nat)
    requires SlotsMoved(blocks, inos, blocks', inos', s, b) && b != 0 && i < |inos| && s.i == i && s.k < NSLOT
    requires SlotAddr(blocks, inos[s.i], s.k) == 0
    requires forall j :: 0 <= j < |inos| ==> inos'[j].size == inos[j].size && NoHoles(blocks, inos[j])
    ensures SlotsKept(blocks, inos[i], blocks', inos'[i])
    ensures forall j :: 0 <= j < |inos| ==> NoHoles(blocks', inos'[j])
  {
    forall j | 0 <= j < |inos| ensures NoHoles(blocks', inos'[j]) {
      forall bn | 0 <= bn < MAXFILE && StartOf(bn) < inos'[j].size ensures Mapped(blocks', inos'[j], bn) {
        assert Mapped(blocks, inos[j], bn);
      }
    }
  }

  // ----- whole writes -----

  /** A byte sequence with `src` written over it at `off`, growing it where needed. */
  function Overwrite(old_: seq<byte>, off: nat, src: seq<byte>): (r: seq<byte>)
    requires off <= |old_|
  {
    old_[..off] + src + if off + |src| < |old_| then old_[off + |src|..] else []
  }

  /** How many blocks a write of n bytes at off reaches into. */
  function Span(off: nat, n: nat): (r: nat)
    ensures n > 0 ==> r == BlockOf(off + n - 1) - BlockOf(off) + 1
  {
    if n == 0 then 0 else BlockOf(off + n - 1) - BlockOf(off) + 1
  }

  /** The most blocks that writing n bytes at off can log: the data blocks, a bitmap block for
      each block that may be new, the indirect block with its bitmap block, and the inode. */
  function LogBound(off: nat, n: nat): (r: int) {
    2 * Span(off, n) + 3 - if Offset(off) != 0 && n > 0 then 1 else 0
  }

  lemma SpliceMore(blocks: seq<Block>, inos: seq<Inode>, blocks1: seq<Block>, inos1: seq<Inode>, blocks2: seq<Block>,
                   inos2: seq<Inode>,
                   i: nat, off: nat, src: seq<byte>, tot: nat, m: nat)
    requires tot + m <= |src|
    requires Spliced(blocks, inos, blocks1, inos1, i, off, src[..tot])
    requires Spliced(blocks1, inos1, blocks2, inos2, i, off + tot, src[tot..tot + m])
    ensures Spliced(blocks, inos, blocks2, inos2, i, off, src[..tot + m])
  {
    forall j, p | 0 <= j < |inos| && 0 <= p < MAXBYTES
      ensures ByteAt(blocks2, inos2[j], p) == SplicedByte(blocks, inos[j], j == i, off, src[..tot + m], p)
    {
      assert ByteAt(blocks1, inos1[j], p) == SplicedByte(blocks, inos[j], j == i, off, src[..tot], p);
      assert ByteAt(blocks2, inos2[j], p) == SplicedByte(blocks1, inos1[j], j == i, off + tot, src[tot..tot + m], p);
    }
  }

  lemma KeptMapped(blocks: seq<Block>, ino: Inode, blocks': seq<Block>, ino': Inode)
    requires SlotsKept(blocks, ino, blocks', ino')
    ensures forall bn :: 0 <= bn < MAXFILE && Mapped(blocks, ino, bn) ==> Mapped(blocks', ino', bn)
  {
  }

  /** All blocks that start below `end` are mapped. */
  ghost predicate Covered(blocks: seq<Block>, ino: Inode, end: nat) {
    forall bn {:trigger Mapped(blocks, ino, bn)} :: 0 <= bn < MAXFILE && StartOf(bn) < end ==> Mapped(blocks, ino, bn)
  }

  lemma CoverMore(blocks: seq<Block>, ino: Inode, blocks': seq<Block>, ino': Inode, end: nat, m: nat)
    requires Covered(blocks, ino, end) && SlotsKept(blocks, ino, blocks', ino')
    requires Offset(end) + m <= BSIZE && BlockOf(end) < MAXFILE && Mapped(blocks', ino', BlockOf(end))
    ensures Covered(blocks', ino', end + m)
  {
    KeptMapped(blocks, ino, blocks', ino');
    forall bn | 0 <= bn < MAXFILE && StartOf(bn) < end + m ensures Mapped(blocks', ino', bn) {
      if bn != BlockOf(end) {
        assert Mapped(blocks, ino, bn);
      }
    }
  }

  /** A splice in terms of the whole contents of the file. */
  lemma SplicedContents(blocks: seq<Block>, inos: seq<Inode>, blocks': seq<Block>, inos': seq<Inode>, i: nat, off: nat,
                        src: seq<byte>)
    requires Spliced(blocks, inos, blocks', inos', i, off, src) && i < |inos|
    requires inos[i].size <= MAXBYTES && off <= inos[i].size && off + |src| <= MAXBYTES
    requires inos'[i].size == if off + |src| > inos[i].size then off + |src| else inos[i].size
    ensures Contents(blocks', inos'[i]) == Overwrite(Contents(blocks, inos[i]), off, src)
  {
    var before, after := Contents(blocks, inos[i]), Contents(blocks', inos'[i]);
    var want := Overwrite(before, off, src);
    assert |after| == |want|;
    forall p | 0 <= p < |after| ensures after[p] == want[p] {
      BytesAt(blocks', inos'[i], inos'[i].size, p);
      if p < |before| {
        BytesAt(blocks, inos[i], inos[i].size, p);
      }
      assert ByteAt(blocks', inos'[i], p) == SplicedByte(blocks, inos[i], true, off, src, p);
    }
  }

  lemma SplicedOthers(blocks: seq<Block>, inos: seq<Inode>, blocks': seq<Block>, inos': seq<Inode>, i: nat, off: nat,
                      src: seq<byte>, j: nat)
    requires Spliced(blocks, inos, blocks', inos', i, off, src) && j < |inos| && j != i
    requires inos[j].size == inos'[j].size <= MAXBYTES
    ensures Contents(blocks', inos'[j]) == Contents(blocks, inos[j])
  {
    var before, after := Contents(blocks, inos[j]), Contents(blocks', inos'[j]);
    forall p | 0 <= p < |after| ensures after[p] == before[p] {
      BytesAt(blocks', inos'[j], inos'[j].size, p);
      BytesAt(blocks, inos[j], inos[j].size, p);
      assert ByteAt(blocks', inos'[j], p) == SplicedByte(blocks, inos[j], false, off, src, p);
    }
  }

  /** The contents and the ownership do not depend on the size that an inode records. */
  lemma ResizeOk(sup: Super, bitmap: seq<bool>, blocks: seq<Block>, inos: seq<Inode>, owner: map<nat, Slot>, i: nat,
                 ino: Inode)
    requires Owned(sup, bitmap, blocks, inos, owner) && i < |inos| && ino.addrs == inos[i].addrs
    ensures Owned(sup, bitmap, blocks, inos[i := ino], owner)
    ensures forall p :: 0 <= p < MAXBYTES ==> ByteAt(blocks, ino, p) == ByteAt(blocks, inos[i], p)
  {
    var inos' := inos[i := ino];
    forall j, k | 0 <= j < |inos'| && 0 <= k < NSLOT ensures SlotOwns(blocks, inos', owner, j, k) {
      assert SlotOwns(blocks, inos, owner, j, k);
    }
    forall b | b in owner ensures OwnerHolds(sup, blocks, inos', owner, b) {
      assert OwnerHolds(sup, blocks, inos, owner, b);
    }
  }

  // ----- counting logged blocks -----

  /** Every block logged now was logged before or is one of those named. */
  ghost predicate Within(now: set<nat>, before: set<nat>, data: set<nat>, table: set<nat>, maps: set<nat>) {
    forall x :: x in now ==> x in before || x in data || x in table || x in maps
  }

  /** The indirect block of an inode, if it has one. */
  function Indirect(ino: Inode): (r: set<nat>) {
    if ino.addrs[NDIRECT] == 0 then {} else {ino.addrs[NDIRECT]}
  }

  /** The most bitmap blocks a write can have logged after n bytes: one for each block reached,
      not counting a first block entered in its middle, and one for a new indirect block. */
  function Grants(off: nat, n: nat, before: Addrs, now: Addrs): (r: int) {
    Span(off, n) - (if Offset(off) != 0 && n > 0 then 1 else 0)
    + if before[NDIRECT] == 0 && now[NDIRECT] != 0 then 1 else 0
  }

  lemma GrantsMore(off: nat, tot: nat, m: nat, before: Addrs, blocks: seq<Block>, ino: Inode, blocks': seq<Block>,
                   ino': Inode, more: nat)
    requires 0 < m && Offset(off + tot) + m <= BSIZE && off + tot + m <= MAXBYTES
    requires tot > 0 ==> Offset(off + tot) == 0
    requires SlotsKept(blocks, ino, blocks', ino') && Mapped(blocks', ino', BlockOf(off + tot))
    requires before[NDIRECT] != 0 ==> ino.addrs[NDIRECT] == before[NDIRECT]
    requires more <= if BlockOf(off + tot) >= NDIRECT && ino.addrs[NDIRECT] == 0 then 2 else 1
    requires Offset(off) != 0 && tot == 0 ==> more == 0
    ensures Span(off, tot + m) == Span(off, tot) + 1
    ensures Grants(off, tot, before, ino.addrs) + more <= Grants(off, tot + m, before, ino'.addrs)
    ensures Indirect(ino) <= Indirect(ino') && Tables(ino', BlockOf(off + tot)) <= Indirect(ino')
    ensures before[NDIRECT] != 0 ==> ino'.addrs[NDIRECT] == before[NDIRECT]
  {
    assert SlotAddr(blocks', ino', NDIRECT) == SlotAddr(blocks, ino, NDIRECT) || SlotAddr(blocks, ino, NDIRECT) == 0;
    assert BlockOf(off + tot) >= NDIRECT ==> ino'.addrs[NDIRECT] != 0;
    assert BlockOf(off + tot + m - 1) == BlockOf(off + tot);
  }

  /** What writing `data` at `off` of inode i, inside one block, does: `a` is the data block,
      `maps` are bitmap blocks. */
  ghost predicate ChunkWritten(blocks: seq<Block>, inos: seq<Inode>, logged: set<nat>, blocks': seq<Block>,
                               inos': seq<Inode>, logged': set<nat>,
                               i: nat, off: nat, data: seq<byte>, a: nat, maps: set<nat>)
    requires i < |inos| == |inos'| && off < MAXBYTES
  {
    var bn := BlockOf(off);
    && Spliced(blocks, inos, blocks', inos', i, off, data)
    && Mapped(blocks', inos'[i], bn) && SlotsKept(blocks, inos[i], blocks', inos'[i])
    && (Mapped(blocks, inos[i], bn) ==> inos'[i] == inos[i] && maps == {})
    && inos'[i].size == inos[i].size
    && Within(logged', logged, {a}, Tables(inos'[i], bn), maps)
    && |maps| <= if bn >= NDIRECT && inos[i].addrs[NDIRECT] == 0 then 2 else 1
  }

  /** The bytes of a write are in place, and the inode differs only if the write passes its end. */
  ghost predicate BytesPlaced(blocks: seq<Block>, inos: seq<Inode>, blocks': seq<Block>, inos': seq<Inode>, i: nat,
                              off: nat, src: seq<byte>)
    requires i < |inos| == |inos'|
  {
    && Spliced(blocks, inos, blocks', inos', i, off, src)
    && Covered(blocks', inos'[i], off + |src|)
    && inos'[i].size == inos[i].size && (inos'[i] == inos[i] || off + |src| > inos[i].size)
  }

  /** What a write of n bytes has logged so far: data blocks, bitmap blocks, the indirect block. */
  ghost predicate BlocksLogged(ino: Inode, logged: set<nat>, ino': Inode, logged': set<nat>, off: nat, n: nat,
                               data: set<nat>, maps: set<nat>) {
    && Within(logged', logged, data, Indirect(ino'), maps)
    && (ino.addrs[NDIRECT] != 0 ==> ino'.addrs[NDIRECT] == ino.addrs[NDIRECT])
    && |data| <= Span(off, n) && |maps| <= Grants(off, n, ino.addrs, ino'.addrs)
  }

  lemma PlaceMore(blocks: seq<Block>, inos: seq<Inode>, blocks1: seq<Block>, inos1: seq<Inode>, blocks2: seq<Block>,
                  inos2: seq<Inode>,
                  i: nat, off: nat, src: seq<byte>, tot: nat, m: nat)
    requires 0 < m && tot + m <= |src| && Offset(off + tot) + m <= BSIZE && off + tot + m <= MAXBYTES
    requires i < |inos| == |inos1| == |inos2| && NoHoles(blocks1, inos1[i])
    requires BytesPlaced(blocks, inos, blocks1, inos1, i, off, src[..tot])
    requires Spliced(blocks1, inos1, blocks2, inos2, i, off + tot, src[tot..tot + m])
    requires Mapped(blocks2, inos2[i], BlockOf(off + tot)) && SlotsKept(blocks1, inos1[i], blocks2, inos2[i])
    requires Mapped(blocks1, inos1[i], BlockOf(off + tot)) ==> inos2[i] == inos1[i]
    requires inos2[i].size == inos1[i].size
    ensures BytesPlaced(blocks, inos, blocks2, inos2, i, off, src[..tot + m])
  {
    SpliceMore(blocks, inos, blocks1, inos1, blocks2, inos2, i, off, src, tot, m);
    CoverMore(blocks1, inos1[i], blocks2, inos2[i], off + tot, m);
    var bn := BlockOf(off + tot);
    if StartOf(bn) < inos[i].size {
      assert Mapped(blocks1, inos1[i], bn);
    }
  }

  lemma LogMore(ino: Inode, logged: set<nat>, blocks1: seq<Block>, ino1: Inode, logged1: set<nat>, blocks2: seq<Block>,
                ino2: Inode, logged2: set<nat>,
                off: nat, tot: nat, m: nat, data: set<nat>, maps: set<nat>, a: nat, more: set<nat>)
    requires 0 < m && Offset(off + tot) + m <= BSIZE && off + tot + m <= MAXBYTES
    requires tot > 0 ==> Offset(off + tot) == 0
    requires BlocksLogged(ino, logged, ino1, logged1, off, tot, data, maps)
    requires Mapped(blocks2, ino2, BlockOf(off + tot)) && SlotsKept(blocks1, ino1, blocks2, ino2)
    requires Within(logged2, logged1, {a}, Tables(ino2, BlockOf(off + tot)), more)
    requires |more| <= if BlockOf(off + tot) >= NDIRECT && ino1.addrs[NDIRECT] == 0 then 2 else 1
    requires Offset(off) != 0 && tot == 0 ==> more == {}
    ensures BlocksLogged(ino, logged, ino2, logged2, off, tot + m, data + {a}, maps + more)
  {
    GrantsMore(off, tot, m, ino.addrs, blocks1, ino1, blocks2, ino2, |more|);
    UnionSize(data, {a});
    UnionSize(maps, more);
  }

  /** How far a write of src at off has come after tot bytes: what is in place, what is logged. */
  ghost predicate Progress(blocks: seq<Block>, inos: seq<Inode>, logged: set<nat>, blocks': seq<Block>,
                           inos': seq<Inode>, logged': set<nat>,
                           i: nat, off: nat, src: seq<byte>, tot: nat, data: set<nat>, maps: set<nat>)
  {
    && i < |inos| == |inos'| && off <= inos[i].size && off + |src| <= MAXBYTES
    && tot <= |src| && (0 < tot < |src| ==> Offset(off + tot) == 0)
    && BytesPlaced(blocks, inos, blocks', inos', i, off, src[..tot])
    && BlocksLogged(inos[i], logged, inos'[i], logged', off, tot, data, maps)
  }

  /** One more chunk of a write. */
  lemma ChunkStep(blocks: seq<Block>, inos: seq<Inode>, logged: set<nat>, blocks1: seq<Block>, inos1: seq<Inode>,
                  logged1: set<nat>,
                  blocks2: seq<Block>, inos2: seq<Inode>, logged2: set<nat>,
                  i: nat, off: nat, src: seq<byte>, tot: nat, m: nat,
                  data: set<nat>, maps: set<nat>, a: nat, more: set<nat>)
    requires Progress(blocks, inos, logged, blocks1, inos1, logged1, i, off, src, tot, data, maps) && tot < |src|
    requires m == Fit(off + tot, |src| - tot) && NoHoles(blocks1, inos1[i]) && |inos2| == |inos1|
    requires ChunkWritten(blocks1, inos1, logged1, blocks2, inos2, logged2, i, off + tot, src[tot..tot + m], a, more)
    ensures Progress(blocks, inos, logged, blocks2, inos2, logged2, i, off, src, tot + m, data + {a}, maps + more)
  {
    assert Offset(off) != 0 && tot == 0 ==> Mapped(blocks1, inos1[i], BlockOf(off));
    PlaceMore(blocks, inos, blocks1, inos1, blocks2, inos2, i, off, src, tot, m);
    LogMore(inos[i], logged, blocks1, inos1[i], logged1, blocks2, inos2[i], logged2, off, tot, m, data, maps, a, more);
  }

  lemma UnionSize(a: set<nat>, b: set<nat>)
    ensures |a + b| <= |a| + |b|
  {
    assert |a + b| == |a| + |b| - |a * b|;
  }

  /** How many of the remaining bytes fit into the block at a position. */
  function Fit(pos: nat, left: nat): (m: nat)
    requires left > 0
    ensures 0 < m <= left && Offset(pos) + m <= BSIZE
    ensures m < left ==> Offset(pos + m) == 0
  {
    if left < BSIZE - Offset(pos) then left else BSIZE - Offset(pos)
  }

  /** The blocks logged by one operation, counted by kind. */
  lemma CountLogged(now: set<nat>, before: set<nat>, data: set<nat>, table: set<nat>, maps: set<nat>, inode: nat)
    requires Within(now, before, data, table, maps) && |table| <= 1
    ensures |now + {inode} - before| <= |data| + |maps| + 2
    ensures |now - before| <= |data| + |maps| + 1
  {
    var all := data + table + maps + {inode};
    UnionSize(data, table);
    UnionSize(data + table, maps);
    UnionSize(data + table + maps, {inode});
    SubsetSize(now + {inode} - before, all);
    SubsetSize(now - before, data + table + maps);
  }

  /** All inodes but i are as before, and so are their contents. */
  ghost predicate OthersKept(blocks: seq<Block>, inos: seq<Inode>, blocks': seq<Block>, inos': seq<Inode>, i: nat) {
    && |inos| == |inos'|
    && forall j :: 0 <= j < |inos| && j != i ==>
         inos'[j] == inos[j] && inos[j].size <= MAXBYTES && Contents(blocks', inos[j]) == Contents(blocks, inos[j])
  }

  lemma SizesFit(blocks: seq<Block>, inos: seq<Inode>)
    requires AllMapped(blocks, inos)
    ensures forall j :: 0 <= j < |inos| ==> inos[j].size <= MAXBYTES
  {
    forall j | 0 <= j < |inos| ensures inos[j].size <= MAXBYTES {
      assert NoHoles(blocks, inos[j]);
    }
  }

  lemma SplicedKeepsOthers(blocks: seq<Block>, inos: seq<Inode>, blocks': seq<Block>, inos': seq<Inode>, i: nat,
                           off: nat, src: seq<byte>)
    requires Spliced(blocks, inos, blocks', inos', i, off, src)
    requires forall j :: 0 <= j < |inos| && j != i ==> inos'[j] == inos[j] && inos[j].size <= MAXBYTES
    ensures OthersKept(blocks, inos, blocks', inos', i)
  {
    forall j | 0 <= j < |inos| && j != i ensures Contents(blocks', inos[j]) == Contents(blocks, inos[j]) {
      SplicedOthers(blocks, inos, blocks', inos', i, off, src, j);
    }
  }

  // ----- 32-bit offsets -----

  /** The 32-bit sum is below its first operand exactly if the true one does not fit. */
  lemma SumWraps(off: nat, n: nat)
    requires off < UINT && n < UINT
    ensures Add32(off, n) < off <==> off + n >= UINT
    ensures off + n < UINT ==> Add32(off, n) == off + n
  {
    if off + n >= UINT {
      assert Add32(off, n) == off + n - UINT;
    }
  }

  /** The offsets that writei refuses. */
  predicate WriteFails(size: nat, off: nat, n: nat) {
    off > size || Add32(off, n) < off || Add32(off, n) > MAXBYTES
  }

  /** What writei refuses, in unbounded terms. */
  lemma WriteFailsIff(size: nat, off: nat, n: nat)
    requires off < UINT && n < UINT
    ensures WriteFails(size, off, n) <==> off > size || off + n > MAXBYTES
  {
    if off + n >= UINT {
      assert Add32(off, n) == off + n - UINT;
    } else {
      assert Add32(off, n) == off + n;
    }
  }

  lemma SizeCovered(blocks: seq<Block>, ino: Inode, end: nat)
    requires Covered(blocks, ino, end) && end <= MAXBYTES
    ensures NoHoles(blocks, ino.(size := end))
  {
    forall bn | 0 <= bn < MAXFILE && StartOf(bn) < end ensures Mapped(blocks, ino.(size := end), bn) {
      assert Mapped(blocks, ino, bn);
    }
  }

  lemma SplicedResize(blocks: seq<Block>, inos: seq<Inode>, blocks': seq<Block>, inos': seq<Inode>, i: nat, off: nat,
                      src: seq<byte>, ino: Inode)
    requires Spliced(blocks, inos, blocks', inos', i, off, src) && i < |inos|
    requires forall p :: 0 <= p < MAXBYTES ==> ByteAt(blocks', ino, p) == ByteAt(blocks', inos'[i], p)
    ensures Spliced(blocks, inos, blocks', inos'[i := ino], i, off, src)
  {
    var after := inos'[i := ino];
    forall j, p | 0 <= j < |inos| && 0 <= p < MAXBYTES
      ensures ByteAt(blocks', after[j], p) == SplicedByte(blocks, inos[j], j == i, off, src, p)
    {
      assert ByteAt(blocks', inos'[j], p) == SplicedByte(blocks, inos[j], j == i, off, src, p);
    }
  }

  // ----- reading -----

  /** The bytes of one block, as part of the file's contents. */
  lemma BlockSlice(blocks: seq<Block>, ino: Inode, pos: nat, m: nat)
    requires NoHoles(blocks, ino) && 0 < m && pos + m <= ino.size && Offset(pos) + m <= BSIZE
    requires SlotAddr(blocks, ino, SlotOf(BlockOf(pos))) < |blocks|
    ensures blocks[SlotAddr(blocks, ino, SlotOf(BlockOf(pos)))][Offset(pos)..Offset(pos) + m] ==
      Contents(blocks, ino)[pos..pos + m]
  {
    var a := SlotAddr(blocks, ino, SlotOf(BlockOf(pos)));
    var part, whole := blocks[a][Offset(pos)..Offset(pos) + m], Contents(blocks, ino)[pos..pos + m];
    forall k | 0 <= k < m ensures part[k] == whole[k] {
      BlockByte(blocks, ino, pos, k);
      assert part[k] == blocks[a][Offset(pos) + k] && whole[k] == Contents(blocks, ino)[pos + k];
    }
  }

  lemma BlockByte(blocks: seq<Block>, ino: Inode, pos: nat, k: nat)
    requires NoHoles(blocks, ino) && pos + k < ino.size && Offset(pos) + k < BSIZE
    requires SlotAddr(blocks, ino, SlotOf(BlockOf(pos))) < |blocks|
    ensures Contents(blocks, ino)[pos + k] == blocks[SlotAddr(blocks, ino, SlotOf(BlockOf(pos)))][Offset(pos) + k]
  {
    SameBlock(pos, k);
    assert Mapped(blocks, ino, BlockOf(pos));
    BytesAt(blocks, ino, ino.size, pos + k);
  }

  lemma SameBlock(pos: nat, k: nat)
    requires Offset(pos) + k < BSIZE
    ensures BlockOf(pos + k) == BlockOf(pos) && Offset(pos + k) == Offset(pos) + k
  {
  }

  // ----- freeing slot by slot -----

  /** The bits of the blocks that inode i holds in the slots `done` have been cleared, no others. */
  ghost predicate Cleared(before: seq<bool>, now: seq<bool>, owner: map<nat, Slot>, i: nat, done: set<nat>) {
    && |now| == |before|
    && forall b ::
       0 <= b < |before| ==> (now[b] <==> before[b] && !(b in owner && owner[b].i == i && owner[b].k in done))
  }

  /** Freeing the block of one more slot: its bit is still set, and clearing it is exactly what
      the slot asks for. */
  lemma ClearSlot(sup: Super, before: seq<bool>, blocks: seq<Block>, inos: seq<Inode>, owner: map<nat, Slot>, i: nat,
                  k: nat, now: seq<bool>, done: set<nat>)
    requires Owned(sup, before, blocks, inos, owner) && i < |inos| && k < NSLOT
    requires Cleared(before, now, owner, i, done) && k !in done
    ensures var a := SlotAddr(blocks, inos[i], k);
      && (a != 0 ==> a < |now| && now[a])
      && Cleared(before, if a == 0 then now else now[a := false], owner, i, done + {k})
  {
    var a := SlotAddr(blocks, inos[i], k);
    SlotInRange(sup, before, blocks, inos, owner, i, k);
    var after := if a == 0 then now else now[a := false];
    forall b | 0 <= b < |before|
      ensures after[b] <==> before[b] && !(b in owner && owner[b].i == i && owner[b].k in done + {k})
    {
      if b in owner {
        assert OwnerHolds(sup, blocks, inos, owner, b);
      }
    }
  }

  /** When every slot has been done or is empty, all blocks of the inode are free. */
  lemma AllCleared(sup: Super, before: seq<bool>, blocks: seq<Block>, inos: seq<Inode>, owner: map<nat, Slot>, i: nat,
                   now: seq<bool>, done: set<nat>)
    requires Owned(sup, before, blocks, inos, owner) && i < |inos| && Cleared(before, now, owner, i, done)
    requires forall k :: 0 <= k < NSLOT ==> k in done || SlotAddr(blocks, inos[i], k) == 0
    ensures forall b :: 0 <= b < |before| ==> (now[b] <==> before[b] && !(b in owner && owner[b].i == i))
  {
    forall b | 0 <= b < |before| && b in owner && owner[b].i == i ensures owner[b].k in done {
      assert OwnerHolds(sup, blocks, inos, owner, b);
    }
  }

  /** The bitmap blocks of the blocks that inode i holds in the slots `done`. */
  ghost function MapsIn(sup: Super, owner: map<nat, Slot>, i: nat, done: set<nat>): set<nat> {
    set b | b in owner && owner[b].i == i && owner[b].k in done :: sup.BBlock(b)
  }

  /** The bitmap blocks of all blocks that inode i holds. */
  ghost function MapsOf(sup: Super, owner: map<nat, Slot>, i: nat): set<nat> {
    set b | b in owner && owner[b].i == i :: sup.BBlock(b)
  }

  lemma MapsMore(sup: Super, bits: seq<bool>, blocks: seq<Block>, inos: seq<Inode>, owner: map<nat, Slot>, i: nat,
                 k: nat, done: set<nat>)
    requires Owned(sup, bits, blocks, inos, owner) && i < |inos| && k < NSLOT
    ensures var a := SlotAddr(blocks, inos[i], k);
      MapsIn(sup, owner, i, done + {k}) == MapsIn(sup, owner, i, done) + if a == 0 then {} else {sup.BBlock(a)}
  {
    var a := SlotAddr(blocks, inos[i], k);
    SlotInRange(sup, bits, blocks, inos, owner, i, k);
    var all, some := MapsIn(sup, owner, i, done + {k}), MapsIn(sup, owner, i, done);
    forall x | x in all ensures x in some || (a != 0 && x == sup.BBlock(a)) {
      var b :| b in owner && owner[b].i == i && owner[b].k in done + {k} && x == sup.BBlock(b);
      assert OwnerHolds(sup, blocks, inos, owner, b);
    }
  }

  lemma MapsAll(sup: Super, bits: seq<bool>, blocks: seq<Block>, inos: seq<Inode>, owner: map<nat, Slot>, i: nat,
                done: set<nat>)
    requires Owned(sup, bits, blocks, inos, owner) && i < |inos|
    requires forall k :: 0 <= k < NSLOT ==> k in done || SlotAddr(blocks, inos[i], k) == 0
    ensures MapsIn(sup, owner, i, done) == MapsOf(sup, owner, i)
  {
    forall b | b in owner && owner[b].i == i ensures owner[b].k in done {
      assert OwnerHolds(sup, blocks, inos, owner, b);
    }
  }

  // ----- chunked writes -----

  /** What a file holds when the first i bytes of a longer write have been written. */
  ghost predicate WrittenSoFar(before: seq<byte>, off: nat, src: seq<byte>, i: nat, now: seq<byte>)
    requires i <= |src|
  {
    if off > |before| then i == 0 && now == before
    else
      && |now| == (if off + i > |before| then off + i else |before|)
      && forall p :: 0 <= p < |now| ==> now[p] == if off <= p < off + i then src[p - off] else before[p]
  }

  lemma WrittenIs(before: seq<byte>, off: nat, src: seq<byte>, i: nat, now: seq<byte>)
    requires i <= |src| && off <= |before|
    ensures WrittenSoFar(before, off, src, i, now) <==> now == Overwrite(before, off, src[..i])
  {
  }

  lemma WholeWritten(before: seq<byte>, off: nat, src: seq<byte>, now: seq<byte>)
    requires off <= |before| && now == Overwrite(before, off, src)
    ensures WrittenSoFar(before, off, src, |src|, now)
  {
    assert src[..|src|] == src;
    WrittenIs(before, off, src, |src|, now);
  }

  lemma NothingWritten(before: seq<byte>, off: nat, src: seq<byte>, blocks: seq<Block>, inos: seq<Inode>, i: nat)
    requires AllMapped(blocks, inos)
    ensures WrittenSoFar(before, off, src, 0, before) && OthersKept(blocks, inos, blocks, inos, i)
  {
    SizesFit(blocks, inos);
  }

  lemma WrittenMore(before: seq<byte>, off: nat, src: seq<byte>, i: nat, part: seq<byte>, at: nat, now: seq<byte>,
                    now': seq<byte>)
    requires i + |part| <= |src| && part == src[i..i + |part|] && at == off + i <= |now|
    requires WrittenSoFar(before, off, src, i, now) && WrittenSoFar(now, at, part, |part|, now')
    ensures WrittenSoFar(before, off, src, i + |part|, now')
  {
  }

  lemma SliceMore(s: seq<byte>, off: nat, tot: nat, m: nat)
    requires off + tot + m <= |s|
    ensures s[off..off + tot] + s[off + tot..off + tot + m] == s[off..off + tot + m]
  {
  }

  const CHUNK: nat := 1536         // ((MAXOPBLOCKS - 1 - 1 - 2) / 2) * 512

  /** A whole number of chunks. */
  predicate AtChunk(i: nat) { i % 1536 == 0 }

  /** The size of the next chunk. */
  function NextChunk(i: nat, n: nat): (n1: nat)
    requires i < n && AtChunk(i)
    ensures 0 < n1 <= CHUNK && i + n1 <= n && (i + n1 < n ==> AtChunk(i + n1))
  {
    if n - i > CHUNK then CHUNK else n - i
  }

  /** Chunks start at multiples of 1536 and are of that size, but for the last. */
  lemma ChunkSize(i: nat, n: nat)
    requires i < n && AtChunk(i)
    ensures i % 1536 == 0 && NextChunk(i, n) == (if n - i < 1536 then n - i else 1536)
  {
  }

  /** A chunk of filewrite stays within the blocks one operation may log, wherever it starts. */
  lemma ChunkFitsOp(off: nat, n: nat)
    requires n <= CHUNK
    ensures LogBound(off, n) <= MAXOPBLOCKS
  {
    if n > 0 {
      if Offset(off) == 0 {
        assert BlockOf(off + n - 1) <= BlockOf(off) + 2;
      } else {
        assert BlockOf(off + n - 1) <= BlockOf(off) + 3;
      }
    }
  }

  lemma OthersKeptTrans(blocks: seq<Block>, inos: seq<Inode>, blocks1: seq<Block>, inos1: seq<Inode>,
                        blocks2: seq<Block>, inos2: seq<Inode>, i: nat)
    requires OthersKept(blocks, inos, blocks1, inos1, i) && OthersKept(blocks1, inos1, blocks2, inos2, i)
    ensures OthersKept(blocks, inos, blocks2, inos2, i)
  {
  }
}
