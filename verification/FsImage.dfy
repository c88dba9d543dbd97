/** The disk as bytes: the free bitmap and the inodes as fs.h lays them out, the file system that the
    bytes stand for, and what an operation has to log. */
module FsImage {
  import opened Common
  import opened Blocks
  import opened FsModel
  import opened FsLemmas

  // ---------------------------------------------------------------- bits

  predicate BitIn(x: nat, j: nat) {
    if j == 0 then x % 2 == 1 else BitIn(x / 2, j - 1)
  }

  function Power(n: nat): (r: nat)
    ensures r > 0
  {
    if n == 0 then 1 else 2 * Power(n - 1)
  }

  /** The number that bits stand for, the lowest first. */
  function Number(s: seq<bool>): (r: nat)
    ensures r < Power(|s|)
  {
    if s == [] then 0 else (if s[0] then 1 else 0) + 2 * Number(s[1..])
  }

  lemma {:induction false} BitOfNumber(s: seq<bool>, j: nat)
    requires j < |s|
    ensures BitIn(Number(s), j) == s[j]
  {
    assert Number(s) / 2 == Number(s[1..]);
    if j > 0 {
      BitOfNumber(s[1..], j - 1);
    }
  }

  function ByteOf(s: seq<bool>): byte
    requires |s| == 8
  {
    assert Power(8) == 2 * Power(7) && Power(6) == 2 * Power(5) && Power(4) == 2 * Power(3) && Power(2) == 4;
    Number(s)
  }

  /** Bit i of a bitmap block. */
  predicate BlockBit(blk: Block, i: nat)
    requires i < BPB
  {
    BitIn(blk[i / 8], i % 8)
  }

  /** The bits from `first` on of a bitmap, as far as it goes, put into a block. */
  function NewBit(blk: Block, bits: seq<bool>, first: nat, i: nat): bool
    requires i < BPB
  {
    if first + i < |bits| then bits[first + i] else BlockBit(blk, i)
  }

  function PutBits(blk: Block, bits: seq<bool>, first: nat): (r: Block) {
    seq(BSIZE, i requires 0 <= i < BSIZE =>
      ByteOf(seq(8, j requires 0 <= j < 8 => NewBit(blk, bits, first, 8 * i + j))))
  }

  lemma PutBitsReads(blk: Block, bits: seq<bool>, first: nat, i: nat)
    requires i < BPB
    ensures BlockBit(PutBits(blk, bits, first), i) == NewBit(blk, bits, first, i)
  {
    var s := seq(8, j requires 0 <= j < 8 => NewBit(blk, bits, first, 8 * (i / 8) + j));
    BitOfNumber(s, i % 8);
  }

  // ---------------------------------------------------------------- inodes

  /** Word k of the s-th inode of a block. */
  function InodeWord(blk: Block, s: nat, k: nat): (w: nat)
    requires s < IPB && k < 16
    ensures w < UINT
  {
    Word(blk, 16 * s + k)
  }

  function AddrsIn(blk: Block, s: nat): (a: Addrs)
    requires s < IPB
    ensures forall k :: 0 <= k <= NDIRECT ==> a[k] == InodeWord(blk, s, 3 + k)
  {
    var a: seq<nat> := seq(13, k requires 0 <= k < 13 => InodeWord(blk, s, 3 + k));
    assert |a| == NDIRECT + 1;
    a
  }

  /** struct dinode: 16 words, of which the first two hold two shorts each. */
  function InodeIn(blk: Block, s: nat): Inode
    requires s < IPB
  {
    Inode(InodeWord(blk, s, 0) % 0x1_0000, InodeWord(blk, s, 1) / 0x1_0000, InodeWord(blk, s, 2), AddrsIn(blk, s))
  }

  /** The fields have room in their places on disk. */
  predicate Storable(ino: Inode) {
    ino.size < UINT && forall k :: 0 <= k <= NDIRECT ==> ino.addrs[k] < UINT
  }

  /** The block after the first k of these words have been stored from word `at` on. */
  function PutWords(blk: Block, at: nat, ws: seq<nat>, k: nat): (r: Block)
    requires k <= |ws| && at + |ws| <= WORDS && forall i :: 0 <= i < |ws| ==> ws[i] < UINT
  {
    if k == 0 then blk else SetWord(PutWords(blk, at, ws, k - 1), at + k - 1, ws[k - 1])
  }

  lemma {:induction false} PutWordsRead(blk: Block, at: nat, ws: seq<nat>, k: nat, j: nat)
    requires k <= |ws| && at + |ws| <= WORDS && j < WORDS && forall i :: 0 <= i < |ws| ==> ws[i] < UINT
    ensures Word(PutWords(blk, at, ws, k), j) == if at <= j < at + k then ws[j - at] else Word(blk, j)
  {
    if k > 0 {
      PutWordsRead(blk, at, ws, k - 1, j);
      WordAfterSet(PutWords(blk, at, ws, k - 1), at + k - 1, ws[k - 1], j);
    }
  }

  /** The words of an inode; the device numbers stay as they are in the block. */
  function InodeWords(blk: Block, s: nat, ino: Inode): (ws: seq<nat>)
    requires s < IPB && Storable(ino)
    ensures |ws| == 16 && forall i :: 0 <= i < |ws| ==> ws[i] < UINT
  {
    [ino.ty + 0x1_0000 * (InodeWord(blk, s, 0) / 0x1_0000),
     InodeWord(blk, s, 1) % 0x1_0000 + 0x1_0000 * ino.nlink,
     ino.size] + ino.addrs
  }

  predicate AllStorable(inos: seq<Inode>) {
    forall i {:trigger Storable(inos[i])} :: 0 <= i < |inos| ==> Storable(inos[i])
  }

  /** Word k of the s-th inode when the inodes from `first` on, as far as they go, are put into the block. */
  function NewWord(blk: Block, inos: seq<Inode>, first: nat, s: nat, k: nat): (w: nat)
    requires s < IPB && k < 16 && AllStorable(inos)
    ensures w < UINT
  {
    if first + s < |inos| then assert Storable(inos[first + s]); InodeWords(blk, s, inos[first + s])[k]
    else InodeWord(blk, s, k)
  }

  function NewWords(blk: Block, inos: seq<Inode>, first: nat): (ws: seq<nat>)
    requires AllStorable(inos)
    ensures |ws| == WORDS && forall w :: 0 <= w < WORDS ==> ws[w] < UINT
  {
    seq(WORDS, w requires 0 <= w < WORDS => NewWord(blk, inos, first, w / 16, w % 16))
  }

  lemma NewWordsAt(blk: Block, inos: seq<Inode>, first: nat, s: nat, k: nat)
    requires s < IPB && k < 16 && AllStorable(inos)
    ensures NewWords(blk, inos, first)[16 * s + k] == NewWord(blk, inos, first, s, k)
  {
    assert (16 * s + k) / 16 == s && (16 * s + k) % 16 == k;
  }

  function PutInodes(blk: Block, inos: seq<Inode>, first: nat): (r: Block)
    requires AllStorable(inos)
  {
    var ws := NewWords(blk, inos, first);
    PutWords(blk, 0, ws, |ws|)
  }

  lemma PutAll(blk: Block, ws: seq<nat>, s: nat, k: nat)
    requires s < IPB && k < 16 && |ws| == WORDS && forall i :: 0 <= i < |ws| ==> ws[i] < UINT
    ensures InodeWord(PutWords(blk, 0, ws, |ws|), s, k) == ws[16 * s + k]
  {
    PutWordsRead(blk, 0, ws, |ws|, 16 * s + k);
  }

  lemma PutInodesWord(blk: Block, inos: seq<Inode>, first: nat, s: nat, k: nat)
    requires s < IPB && k < 16 && AllStorable(inos)
    ensures InodeWord(PutInodes(blk, inos, first), s, k) == NewWord(blk, inos, first, s, k)
  {
    PutAll(blk, NewWords(blk, inos, first), s, k);
    NewWordsAt(blk, inos, first, s, k);
  }

  lemma PutInodesAddrs(blk: Block, inos: seq<Inode>, first: nat, s: nat)
    requires s < IPB && AllStorable(inos)
    ensures AddrsIn(PutInodes(blk, inos, first), s) ==
      if first + s < |inos| then inos[first + s].addrs else AddrsIn(blk, s)
  {
    var now, addrs := AddrsIn(PutInodes(blk, inos, first), s),
        if first + s < |inos| then inos[first + s].addrs else AddrsIn(blk, s);
    forall k | 0 <= k <= NDIRECT ensures now[k] == addrs[k] {
      PutInodesWord(blk, inos, first, s, 3 + k);
    }
  }

  lemma Halves(lo: nat, hi: nat)
    requires lo < 0x1_0000
    ensures (lo + 0x1_0000 * hi) % 0x1_0000 == lo && (lo + 0x1_0000 * hi) / 0x1_0000 == hi
  {
  }

  /** Storing the inodes of a block and reading them back. */
  lemma InodesRoundTrip(blk: Block, inos: seq<Inode>, first: nat, s: nat)
    requires s < IPB && AllStorable(inos)
    ensures InodeIn(PutInodes(blk, inos, first), s) == if first + s < |inos| then inos[first + s] else InodeIn(blk, s)
  {
    PutInodesAddrs(blk, inos, first, s);
    PutInodesWord(blk, inos, first, s, 0);
    PutInodesWord(blk, inos, first, s, 1);
    PutInodesWord(blk, inos, first, s, 2);
    if first + s < |inos| {
      var ino := inos[first + s];
      assert Storable(ino);
      Halves(ino.ty, InodeWord(blk, s, 0) / 0x1_0000);
      Halves(InodeWord(blk, s, 1) % 0x1_0000, ino.nlink);
    }
  }

  // ---------------------------------------------------------------- whole disks

  /** The order of the regions that mkfs gives them: inodes, bitmap, data. */
  predicate Laid(sup: Super) {
    && sup.Valid() && sup.inodestart + sup.ninodes / IPB + 1 <= sup.bmapstart
    && sup.bmapstart + sup.size / BPB + 1 <= sup.meta
  }

  function Bits(sup: Super, disk: seq<Block>): (r: seq<bool>)
    requires Laid(sup) && |disk| == sup.size
    ensures |r| == sup.size
  {
    seq(sup.size, b requires 0 <= b < sup.size => BlockBit(disk[sup.BBlock(b)], b % BPB))
  }

  function Inodes(sup: Super, disk: seq<Block>): (r: seq<Inode>)
    requires Laid(sup) && |disk| == sup.size
    ensures |r| == sup.ninodes
  {
    seq(sup.ninodes, i requires 0 <= i < sup.ninodes => InodeIn(disk[sup.IBlock(i)], i % IPB))
  }

  /** The disk holds a file system in order: a block is used once or free, and no file has holes. */
  ghost predicate Sound(sup: Super, disk: seq<Block>) {
    Laid(sup) && |disk| == sup.size && exists owner :: SoundBy(sup, disk, owner)
  }

  ghost predicate SoundBy(sup: Super, disk: seq<Block>, owner: map<nat, Slot>)
    requires Laid(sup) && |disk| == sup.size
  {
    Owned(sup, Bits(sup, disk), disk, Inodes(sup, disk), owner) && AllMapped(disk, Inodes(sup, disk))
  }

  /** The disk shows this bitmap, these inodes and these data blocks. */
  ghost predicate Shows(sup: Super, disk: seq<Block>, s: Snapshot) {
    && Laid(sup) && |disk| == |s.blocks| == sup.size
    && s.bitmap == Bits(sup, disk) && s.dinodes == Inodes(sup, disk)
    && forall b :: sup.meta <= b < sup.size ==> disk[b] == s.blocks[b]
  }

  lemma SlotsShown(sup: Super, bitmap: seq<bool>, blocks: seq<Block>, inos: seq<Inode>, owner: map<nat, Slot>,
                   disk: seq<Block>)
    requires Owned(sup, bitmap, blocks, inos, owner) && |disk| == |blocks|
    requires forall b :: sup.meta <= b < sup.size ==> disk[b] == blocks[b]
    ensures SameSlots(blocks, disk, inos)
  {
    forall j, l | 0 <= j < |inos| && 0 <= l < NSLOT ensures SlotAddr(disk, inos[j], l) == SlotAddr(blocks, inos[j], l) {
      SlotInRange(sup, bitmap, blocks, inos, owner, j, NDIRECT);
    }
  }

  /** Ownership reads data blocks only. */
  lemma OwnedShown(sup: Super, bitmap: seq<bool>, blocks: seq<Block>, inos: seq<Inode>, owner: map<nat, Slot>,
                   disk: seq<Block>)
    requires Owned(sup, bitmap, blocks, inos, owner) && AllMapped(blocks, inos) && |disk| == |blocks|
    requires forall b :: sup.meta <= b < sup.size ==> disk[b] == blocks[b]
    ensures Owned(sup, bitmap, disk, inos, owner) && AllMapped(disk, inos)
  {
    SlotsShown(sup, bitmap, blocks, inos, owner, disk);
    SameSlotsOwned(sup, bitmap, blocks, inos, owner, disk);
    SameSlotsMapped(blocks, disk, inos);
  }

  lemma ShownSound(sup: Super, disk: seq<Block>, s: Snapshot, owner: map<nat, Slot>)
    requires Shows(sup, disk, s) && Owned(sup, s.bitmap, s.blocks, s.dinodes, owner) && AllMapped(s.blocks, s.dinodes)
    ensures Sound(sup, disk)
  {
    OwnedShown(sup, s.bitmap, s.blocks, s.dinodes, owner, disk);
    assert SoundBy(sup, disk, owner);
  }

  /** Bitmap, inodes and data of two disks that agree from the inodes on. */
  lemma SameShown(sup: Super, disk: seq<Block>, disk': seq<Block>)
    requires Laid(sup) && |disk| == |disk'| == sup.size
    requires forall b :: sup.inodestart <= b < sup.size ==> disk'[b] == disk[b]
    ensures Bits(sup, disk') == Bits(sup, disk) && Inodes(sup, disk') == Inodes(sup, disk)
    ensures Sound(sup, disk) ==> Sound(sup, disk')
  {
    assert Bits(sup, disk') == Bits(sup, disk) && Inodes(sup, disk') == Inodes(sup, disk);
    if Sound(sup, disk) {
      var owner :| SoundBy(sup, disk, owner);
      OwnedShown(sup, Bits(sup, disk), disk, Inodes(sup, disk), owner, disk');
      assert SoundBy(sup, disk', owner);
    }
  }

  /** A disk with only the bits of the metadata set and no inode in use is in order. */
  lemma EmptySound(sup: Super, disk: seq<Block>)
    requires Laid(sup) && |disk| == sup.size
    requires forall b :: 0 <= b < sup.size ==> (Bits(sup, disk)[b] <==> b < sup.meta)
    requires forall i :: 0 <= i < sup.ninodes ==> Inodes(sup, disk)[i] == Emptied(Inodes(sup, disk)[i])
    ensures Sound(sup, disk)
  {
    var inos, none := Inodes(sup, disk), map[];
    forall i, k | 0 <= i < |inos| && 0 <= k < NSLOT ensures SlotOwns(disk, inos, none, i, k) {
      assert inos[i] == Emptied(inos[i]);
    }
    forall b | 0 <= b < sup.size ensures BitOk(sup, Bits(sup, disk), none, b) {
    }
    forall j | 0 <= j < |inos| ensures NoHoles(disk, inos[j]) {
      assert inos[j] == Emptied(inos[j]);
    }
    assert SoundBy(sup, disk, none);
  }

  // ---------------------------------------------------------------- what has to be logged

  /** A file system at one moment. */
  datatype Snapshot = Snapshot(bitmap: seq<bool>, blocks: seq<Block>, dinodes: seq<Inode>)

  ghost predicate BlockLogged(s: Snapshot, t: Snapshot, logged: set<nat>, b: nat)
    requires b < |s.blocks| == |t.blocks|
  {
    t.blocks[b] != s.blocks[b] ==> b in logged
  }

  ghost predicate BitLogged(sup: Super, s: Snapshot, t: Snapshot, logged: set<nat>, b: nat)
    requires b < |s.bitmap| == |t.bitmap|
  {
    t.bitmap[b] != s.bitmap[b] ==> sup.BBlock(b) in logged
  }

  ghost predicate InodeLogged(sup: Super, s: Snapshot, t: Snapshot, logged: set<nat>, i: nat)
    requires i < |s.dinodes| == |t.dinodes|
  {
    t.dinodes[i] != s.dinodes[i] ==> sup.IBlock(i) in logged && Storable(t.dinodes[i])
  }

  /** A block that file system code may log: of the inodes, of the bitmap, or a data block. */
  ghost predicate Loggable(sup: Super, n: nat, b: nat) {
    || sup.inodestart <= b <= sup.inodestart + n / IPB
    || sup.bmapstart <= b <= sup.bmapstart + sup.size / BPB
    || sup.meta <= b < sup.size
  }

  /** Everything that differs between the two moments is in a block that has been logged. */
  ghost predicate AllLogged(sup: Super, s: Snapshot, t: Snapshot, logged: set<nat>) {
    && |s.bitmap| == |t.bitmap| == |s.blocks| == |t.blocks| == sup.size && |s.dinodes| == |t.dinodes|
    && (forall b {:trigger BlockLogged(s, t, logged, b)} :: 0 <= b < sup.size ==> BlockLogged(s, t, logged, b))
    && (forall b {:trigger BitLogged(sup, s, t, logged, b)} :: 0 <= b < sup.size ==> BitLogged(sup, s, t, logged, b))
    && (forall i {:trigger InodeLogged(sup, s, t, logged, i)} ::
          0 <= i < |s.dinodes| ==> InodeLogged(sup, s, t, logged, i))
    && (forall b {:trigger Loggable(sup, |s.dinodes|, b)} :: b in logged ==> Loggable(sup, |s.dinodes|, b))
  }

  /** The calls of log_write, and the blocks that they were for. */
  ghost predicate Recorded(calls: seq<nat>, logged: set<nat>) {
    forall b :: b in calls <==> b in logged
  }

  /** The blocks logged before the last call of log_write. */
  ghost function Early(calls: seq<nat>): set<nat> {
    if calls == [] then {} else Members(calls[..|calls| - 1])
  }

  lemma EarlyIs(calls: seq<nat>, logged: set<nat>, b: nat)
    requires Recorded(calls, logged)
    ensures Early(calls) <= logged && Early(calls + [b]) == logged
  {
    assert (calls + [b])[..|calls|] == calls;
  }

  /** The calls of one write, counted by kind of block, without and with that for the inode. */
  lemma CountCalls(calls: seq<nat>, now: set<nat>, before: set<nat>, data: set<nat>, table: set<nat>, maps: set<nat>,
                   inode: nat)
    requires Within(now, before, data, table, maps) && |table| <= 1 && Recorded(calls, now)
    ensures |now - before| <= |data| + |maps| + 1 && |now + {inode} - before| <= |data| + |maps| + 2
    ensures |Early(calls) - before| <= |data| + |maps| + 1
    ensures |Early(calls + [inode]) - before| <= |data| + |maps| + 1
  {
    CountLogged(now, before, data, table, maps, inode);
    EarlyIs(calls, now, inode);
    SubsetSize(Early(calls) - before, now - before);
  }

  /** An inode whose blocks are owned and mapped can be stored. */
  lemma OwnedStorable(sup: Super, bitmap: seq<bool>, blocks: seq<Block>, inos: seq<Inode>, owner: map<nat, Slot>,
                      i: nat)
    requires Owned(sup, bitmap, blocks, inos, owner) && i < |inos| && NoHoles(blocks, inos[i])
    ensures Storable(inos[i])
  {
    forall k | 0 <= k <= NDIRECT ensures inos[i].addrs[k] < UINT {
      SlotInRange(sup, bitmap, blocks, inos, owner, i, k);
    }
  }

  lemma NothingToLog(sup: Super, s: Snapshot)
    requires |s.bitmap| == |s.blocks| == sup.size
    ensures AllLogged(sup, s, s, {})
  {
  }

  /** Changing a data block and logging it. */
  lemma LogBlock(sup: Super, s: Snapshot, t: Snapshot, logged: set<nat>, b: nat, data: Block)
    requires AllLogged(sup, s, t, logged) && sup.meta <= b < sup.size
    ensures AllLogged(sup, s, t.(blocks := t.blocks[b := data]), logged + {b})
  {
    var t', logged' := t.(blocks := t.blocks[b := data]), logged + {b};
    forall x | 0 <= x < sup.size ensures BlockLogged(s, t', logged', x) && BitLogged(sup, s, t', logged', x) {
      assert BlockLogged(s, t, logged, x) && BitLogged(sup, s, t, logged, x);
    }
    forall i | 0 <= i < |s.dinodes| ensures InodeLogged(sup, s, t', logged', i) {
      assert InodeLogged(sup, s, t, logged, i);
    }
  }

  /** Changing a bit and logging its bitmap block. */
  lemma LogBit(sup: Super, s: Snapshot, t: Snapshot, logged: set<nat>, b: nat, v: bool)
    requires AllLogged(sup, s, t, logged) && b < sup.size
    ensures AllLogged(sup, s, t.(bitmap := t.bitmap[b := v]), logged + {sup.BBlock(b)})
  {
    var t', logged' := t.(bitmap := t.bitmap[b := v]), logged + {sup.BBlock(b)};
    forall x | 0 <= x < sup.size ensures BlockLogged(s, t', logged', x) && BitLogged(sup, s, t', logged', x) {
      assert BlockLogged(s, t, logged, x) && BitLogged(sup, s, t, logged, x);
    }
    forall i | 0 <= i < |s.dinodes| ensures InodeLogged(sup, s, t', logged', i) {
      assert InodeLogged(sup, s, t, logged, i);
    }
  }

  /** Changing an inode and logging its block. */
  lemma LogInode(sup: Super, s: Snapshot, t: Snapshot, logged: set<nat>, i: nat, ino: Inode)
    requires AllLogged(sup, s, t, logged) && i < |t.dinodes| && Storable(ino)
    ensures AllLogged(sup, s, t.(dinodes := t.dinodes[i := ino]), logged + {sup.IBlock(i)})
  {
    var t', logged' := t.(dinodes := t.dinodes[i := ino]), logged + {sup.IBlock(i)};
    forall x | 0 <= x < sup.size ensures BlockLogged(s, t', logged', x) && BitLogged(sup, s, t', logged', x) {
      assert BlockLogged(s, t, logged, x) && BitLogged(sup, s, t, logged, x);
    }
    forall j | 0 <= j < |s.dinodes| ensures InodeLogged(sup, s, t', logged', j) {
      assert InodeLogged(sup, s, t, logged, j);
    }
  }

  /** balloc: a bit is set and a data block zeroed. */
  lemma GrantLogged(sup: Super, s: Snapshot, t: Snapshot, logged: set<nat>, b: nat)
    requires AllLogged(sup, s, t, logged) && sup.meta <= b < sup.size
    ensures var t' := t.(bitmap := t.bitmap[b := true], blocks := t.blocks[b := ZERO_BLOCK]);
      AllLogged(sup, s, t', logged + {sup.BBlock(b), b})
  {
    LogBit(sup, s, t, logged, b, true);
    LogBlock(sup, s, t.(bitmap := t.bitmap[b := true]), logged + {sup.BBlock(b)}, b, ZERO_BLOCK);
    assert logged + {sup.BBlock(b)} + {b} == logged + {sup.BBlock(b), b};
  }

  /** bmap: a fresh block for an empty entry of an indirect block. */
  lemma EntryGranted(sup: Super, s: Snapshot, t: Snapshot, logged: set<nat>, inos: seq<Inode>, owner: map<nat, Slot>,
                     i: nat, e: nat, b: nat)
    requires Owned(sup, t.bitmap, t.blocks, inos, owner) && AllMapped(t.blocks, inos) && AllLogged(sup, s, t, logged)
    requires b < sup.size && !t.bitmap[b] && i < |inos| && e < NINDIRECT
    requires 0 < inos[i].addrs[NDIRECT] < sup.size && Word(t.blocks[inos[i].addrs[NDIRECT]], e) == 0
    ensures var d := inos[i].addrs[NDIRECT];
      var bitmap, blocks := t.bitmap[b := true], t.blocks[b := ZERO_BLOCK][d := SetWord(t.blocks[d], e, b)];
      && 0 < b != d && AllLogged(sup, s, Snapshot(bitmap, blocks, t.dinodes), logged + {sup.BBlock(b), b} + {d})
      && Owned(sup, bitmap, blocks, inos, owner[b := Slot(i, NDIRECT + 1 + e)]) && AllMapped(blocks, inos)
      && SlotAddr(blocks, inos[i], NDIRECT + 1 + e) == b
      && SameBytes(t.blocks, inos, blocks, inos) && SlotsKept(t.blocks, inos[i], blocks, inos[i])
  {
    var d := inos[i].addrs[NDIRECT];
    var blocks := t.blocks[b := ZERO_BLOCK][d := SetWord(t.blocks[d], e, b)];
    FreeUnowned(sup, t.bitmap, t.blocks, inos, owner, b);
    SlotInRange(sup, t.bitmap, t.blocks, inos, owner, i, NDIRECT);
    assert SlotAddr(t.blocks, inos[i], NDIRECT) == d;
    GrantLogged(sup, s, t, logged, b);
    GrantEntry(sup, t.bitmap, t.blocks, inos, owner, i, e, b);
    var t1 := t.(bitmap := t.bitmap[b := true], blocks := t.blocks[b := ZERO_BLOCK]);
    LogBlock(sup, s, t1, logged + {sup.BBlock(b), b}, d, SetWord(t.blocks[d], e, b));
    KeptFromMoved(t.blocks, inos, blocks, inos, Slot(i, NDIRECT + 1 + e), b, i);
  }

  // ---------------------------------------------------------------- writing the logged blocks

  /** Block b of a disk, brought up to date. */
  function Updated(sup: Super, blk: Block, t: Snapshot, b: nat): (r: Block)
    requires sup.inodestart <= b < |t.blocks| && AllStorable(t.dinodes)
  {
    if b < sup.bmapstart then PutInodes(blk, t.dinodes, IPB * (b - sup.inodestart))
    else if b < sup.meta then PutBits(blk, t.bitmap, BPB * (b - sup.bmapstart))
    else t.blocks[b]
  }

  /** Inodes that come from a disk, or have been checked since, are storable. */
  lemma StillStorable(sup: Super, disk: seq<Block>, s: Snapshot, t: Snapshot, logged: set<nat>)
    requires Shows(sup, disk, s) && AllLogged(sup, s, t, logged)
    ensures AllStorable(t.dinodes)
  {
    forall i | 0 <= i < |t.dinodes| ensures Storable(t.dinodes[i]) {
      assert InodeLogged(sup, s, t, logged, i);
      assert s.dinodes[i] == InodeIn(disk[sup.IBlock(i)], i % IPB);
    }
  }

  /** Bringing exactly the logged blocks up to date makes the disk show the new state. */
  lemma Replayed(sup: Super, disk: seq<Block>, s: Snapshot, t: Snapshot, logged: set<nat>, disk': seq<Block>)
    requires Shows(sup, disk, s) && AllLogged(sup, s, t, logged) && |disk'| == sup.size
    requires AllStorable(t.dinodes)
    requires forall b :: sup.inodestart <= b < sup.size ==>
      disk'[b] == if b in logged then Updated(sup, disk[b], t, b) else disk[b]
    ensures Shows(sup, disk', t)
  {
    forall b | 0 <= b < sup.size ensures Bits(sup, disk')[b] == t.bitmap[b] {
      ReplayedBit(sup, disk, s, t, logged, disk', b);
    }
    forall i | 0 <= i < sup.ninodes ensures Inodes(sup, disk')[i] == t.dinodes[i] {
      ReplayedInode(sup, disk, s, t, logged, disk', i);
    }
    forall b | sup.meta <= b < sup.size ensures disk'[b] == t.blocks[b] {
      assert BlockLogged(s, t, logged, b);
    }
  }

  lemma ReplayedBit(sup: Super, disk: seq<Block>, s: Snapshot, t: Snapshot, logged: set<nat>, disk': seq<Block>, b: nat)
    requires Shows(sup, disk, s) && AllLogged(sup, s, t, logged) && |disk'| == sup.size && b < sup.size
    requires AllStorable(t.dinodes)
    requires disk'[sup.BBlock(b)] ==
      if sup.BBlock(b) in logged then Updated(sup, disk[sup.BBlock(b)], t, sup.BBlock(b)) else disk[sup.BBlock(b)]
    ensures BlockBit(disk'[sup.BBlock(b)], b % BPB) == t.bitmap[b]
  {
    var x := sup.BBlock(b);
    assert BitLogged(sup, s, t, logged, b);
    assert s.bitmap[b] == BlockBit(disk[x], b % BPB);
    if x in logged {
      assert b == BPB * (x - sup.bmapstart) + b % BPB;
      PutBitsReads(disk[x], t.bitmap, BPB * (x - sup.bmapstart), b % BPB);
    }
  }

  lemma ReplayedInode(sup: Super, disk: seq<Block>, s: Snapshot, t: Snapshot, logged: set<nat>, disk': seq<Block>,
                      i: nat)
    requires Shows(sup, disk, s) && AllLogged(sup, s, t, logged) && |disk'| == sup.size && i < sup.ninodes
    requires AllStorable(t.dinodes)
    requires disk'[sup.IBlock(i)] ==
      if sup.IBlock(i) in logged then Updated(sup, disk[sup.IBlock(i)], t, sup.IBlock(i)) else disk[sup.IBlock(i)]
    ensures InodeIn(disk'[sup.IBlock(i)], i % IPB) == t.dinodes[i]
  {
    var x := sup.IBlock(i);
    assert InodeLogged(sup, s, t, logged, i);
    assert s.dinodes[i] == InodeIn(disk[x], i % IPB);
    if x in logged {
      assert Updated(sup, disk[x], t, x) == PutInodes(disk[x], t.dinodes, IPB * (x - sup.inodestart));
      assert i == IPB * (x - sup.inodestart) + i % IPB;
      InodesRoundTrip(disk[x], t.dinodes, IPB * (x - sup.inodestart), i % IPB);
    }
  }
}
