/** The block allocator and the inode code of fs.c, working in place. */
module FsCode {
  import opened Common
  import opened Blocks
  import opened FsModel
  import opened FsLemmas
  import opened FsImage

  /** No block is free. */
  ghost predicate Full(bitmap: seq<bool>) {
    forall b :: 0 <= b < |bitmap| ==> bitmap[b]
  }

  /** The in-memory copy of an inode, locked by its user. */
  class InCore {
    const inum: nat
    var ty: short
    var nlink: short
    var size: nat
    var addrs: Addrs
    var ref: int
    var valid: bool

    constructor (i: nat, d: Inode)
      ensures inum == i && Value() == d && ref == 1 && valid
    {
      inum, ty, nlink, size, addrs, ref, valid := i, d.ty, d.nlink, d.size, d.addrs, 1, true;
    }

    function Value(): (v: Inode)
      reads this
    {
      Inode(ty, nlink, size, addrs)
    }
  }

  class FileSys {
    const sup: Super
    var bitmap: seq<bool>
    var blocks: seq<Block>       // block contents as the cache shows them
    var dinodes: seq<Inode>      // the inodes on disk
    var calls: seq<nat>          // what log_write was called for, in order
    ghost var logged: set<nat>   // the same as a set
    ghost var owner: map<nat, Slot>
    ghost var begun: Snapshot    // how things were at begin_op

    constructor (s: Super, bits: seq<bool>, data: seq<Block>, inodes: seq<Inode>, ghost own: map<nat, Slot>)
      requires |bits| == |data| == s.size
      ensures sup == s && bitmap == bits && blocks == data && dinodes == inodes && owner == own
      ensures logged == {} && calls == [] && begun == Snap() && Tracked()
    {
      sup, bitmap, blocks, dinodes, owner, calls, logged := s, bits, data, inodes, own, [], {};
      begun := Snapshot(bits, data, inodes);
      NothingToLog(s, Snapshot(bits, data, inodes));
    }

    function Snap(): (s: Snapshot)
      reads this
    {
      Snapshot(bitmap, blocks, dinodes)
    }

    /** Whatever the operation under way has changed, it has logged. */
    ghost predicate Tracked()
      reads this
    {
      AllLogged(sup, begun, Snap(), logged) && Recorded(calls, logged)
    }

    /** begin_op, as far as these fields are concerned. */
    method BeginOp()
      requires |bitmap| == |blocks| == sup.size
      modifies `logged, `calls, `begun
      ensures logged == {} && calls == [] && begun == Snap() && Tracked()
    {
      calls, logged := [], {};
      begun := Snap();
      NothingToLog(sup, begun);
    }

    /** All inodes, with the in-memory copy in its place. */
    ghost function Inos(ip: InCore): (r: seq<Inode>)
      reads this, ip
      requires ip.inum < |dinodes|
    {
      dinodes[ip.inum := ip.Value()]
    }

    ghost predicate Ok(ip: InCore)
      reads this, ip
    {
      && ip.inum < |dinodes| && Tracked()
      && Owned(sup, bitmap, blocks, Inos(ip), owner) && AllMapped(blocks, Inos(ip))
    }

    /** balloc: the lowest free block, marked and zeroed. */
    method Balloc() returns (r: Outcome<nat>)
      requires |bitmap| == |blocks| == sup.size
      modifies `bitmap, `blocks, `logged, `calls
      ensures r.Panic? ==> Full(bitmap) && bitmap == old(bitmap) && blocks == old(blocks)
      ensures r.Panic? ==> logged == old(logged) && calls == old(calls)
      ensures r.Done? ==>
        && r.value < sup.size && !old(bitmap)[r.value] && (forall b :: 0 <= b < r.value ==> old(bitmap)[b])
        && bitmap == old(bitmap)[r.value := true] && blocks == old(blocks)[r.value := ZERO_BLOCK]
        && logged == old(logged) + {sup.BBlock(r.value), r.value}
        && calls == old(calls) + [sup.BBlock(r.value), r.value]
    {
      var b := 0;
      while b < sup.size
        invariant 0 <= b && b % BPB == 0
        invariant forall x :: 0 <= x < b && x < sup.size ==> bitmap[x]
        invariant bitmap == old(bitmap) && blocks == old(blocks) && logged == old(logged) && calls == old(calls)
      {
        var bi := 0;
        while bi < BPB && b + bi < sup.size
          invariant 0 <= bi <= BPB
          invariant forall x :: 0 <= x < b + bi && x < sup.size ==> bitmap[x]
          invariant bitmap == old(bitmap) && blocks == old(blocks) && logged == old(logged) && calls == old(calls)
        {
          if !bitmap[b + bi] {
            bitmap := bitmap[b + bi := true];
            calls, logged := calls + [b / BPB + sup.bmapstart], logged + {b / BPB + sup.bmapstart};
            blocks := blocks[b + bi := ZERO_BLOCK];
            calls, logged := calls + [b + bi], logged + {b + bi};
            assert sup.BBlock(b + bi) == b / BPB + sup.bmapstart;
            return Done(b + bi);
          }
          bi := bi + 1;
        }
        b := b + BPB;
      }
      return Panic;
    }

    /** bfree: clears the bit of a block; freeing a free block panics. */
    method Bfree(b: nat) returns (r: Outcome<()>)
      requires b < |bitmap|
      modifies `bitmap, `logged, `calls
      ensures r.Panic? <==> !old(bitmap)[b]
      ensures r.Done? ==> bitmap == old(bitmap)[b := false] && logged == old(logged) + {sup.BBlock(b)}
      ensures r.Done? ==> calls == old(calls) + [sup.BBlock(b)]
      ensures old(Tracked()) ==> Tracked()
    {
      if !bitmap[b] {
        return Panic;
      }
      if Tracked() {
        LogBit(sup, begun, Snap(), logged, b, false);
      }
      bitmap := bitmap[b := false];
      calls, logged := calls + [sup.BBlock(b)], logged + {sup.BBlock(b)};
      return Done(());
    }

    /** iupdate: copies the in-memory inode to disk. */
    method Iupdate(ip: InCore)
      requires ip.inum < |dinodes|
      modifies `dinodes, `logged, `calls
      ensures dinodes == old(dinodes)[ip.inum := ip.Value()] && logged == old(logged) + {sup.IBlock(ip.inum)}
      ensures calls == old(calls) + [sup.IBlock(ip.inum)]
      ensures old(Tracked()) && Storable(ip.Value()) ==> Tracked()
    {
      if Tracked() && Storable(ip.Value()) {
        LogInode(sup, begun, Snap(), logged, ip.inum, ip.Value());
      }
      dinodes := dinodes[ip.inum := Inode(ip.ty, ip.nlink, ip.size, ip.addrs)];
      calls, logged := calls + [sup.IBlock(ip.inum)], logged + {sup.IBlock(ip.inum)};
    }

    /** The address slot of an inode, filled with a fresh block if it is empty. */
    method AddrFor(ip: InCore, k: nat) returns (r: Outcome<nat>, ghost maps: set<nat>)
      requires Ok(ip) && k <= NDIRECT
      modifies `bitmap, `blocks, `logged, `calls, `owner, ip`addrs
      ensures r.Panic? ==> Full(bitmap)
      ensures r.Done? ==>
        && Ok(ip) && r.value == ip.addrs[k] && 0 < r.value < sup.size
        && SameBytes(old(blocks), old(Inos(ip)), blocks, Inos(ip))
        && SlotsKept(old(blocks), old(ip.Value()), blocks, ip.Value())
        && Within(logged, old(logged), {r.value}, {}, maps) && |maps| <= 1
      ensures old(ip.addrs)[k] != 0 ==>
        && r.Done? && ip.addrs == old(ip.addrs) && bitmap == old(bitmap) && blocks == old(blocks)
        && logged == old(logged) && calls == old(calls) && owner == old(owner) && maps == {}
    {
      maps := {};
      ghost var inos := Inos(ip);
      assert inos[ip.inum] == ip.Value();
      SlotInRange(sup, bitmap, blocks, inos, owner, ip.inum, k);
      if ip.addrs[k] != 0 {
        return Done(ip.addrs[k]), maps;
      }
      ghost var bitmap0, blocks0 := bitmap, blocks;
      var b := Balloc();
      if b.Panic? {
        return Panic, maps;
      }
      FreeUnowned(sup, bitmap0, blocks0, inos, owner, b.value);
      GrantLogged(sup, begun, Snapshot(bitmap0, blocks0, dinodes), old(logged), b.value);
      GrantAddr(sup, bitmap0, blocks0, inos, owner, ip.inum, k, b.value);
      ip.addrs := ip.addrs[k := b.value];
      owner := owner[b.value := Slot(ip.inum, k)];
      maps := {sup.BBlock(b.value)};
      assert Inos(ip) == inos[ip.inum := WithAddr(inos[ip.inum], k, b.value)];
      KeptFromMoved(blocks0, inos, blocks, Inos(ip), Slot(ip.inum, k), b.value, ip.inum);
      return Done(b.value), maps;
    }

    /** The entry of the indirect block, filled with a fresh block if it is empty. */
    method EntryFor(ip: InCore, e: nat) returns (r: Outcome<nat>, ghost maps: set<nat>)
      requires Ok(ip) && e < NINDIRECT && ip.addrs[NDIRECT] != 0
      modifies `bitmap, `blocks, `logged, `calls, `owner
      ensures r.Panic? ==> Full(bitmap)
      ensures r.Done? ==>
        && Ok(ip) && r.value == SlotAddr(blocks, ip.Value(), NDIRECT + 1 + e) && 0 < r.value < sup.size
        && SameBytes(old(blocks), old(Inos(ip)), blocks, Inos(ip))
        && SlotsKept(old(blocks), old(ip.Value()), blocks, ip.Value())
        && Within(logged, old(logged), {r.value}, {ip.addrs[NDIRECT]}, maps) && |maps| <= 1
      ensures old(SlotAddr(blocks, ip.Value(), NDIRECT + 1 + e)) != 0 ==>
        && r.Done? && bitmap == old(bitmap) && blocks == old(blocks)
        && logged == old(logged) && calls == old(calls) && owner == old(owner) && maps == {}
    {
      maps := {};
      ghost var inos := Inos(ip);
      assert inos[ip.inum] == ip.Value();
      var t := ip.addrs[NDIRECT];
      SlotInRange(sup, bitmap, blocks, inos, owner, ip.inum, NDIRECT);
      SlotInRange(sup, bitmap, blocks, inos, owner, ip.inum, NDIRECT + 1 + e);
      assert SlotAddr(blocks, inos[ip.inum], NDIRECT) == t;
      var a := Word(blocks[t], e);
      if a != 0 {
        return Done(a), maps;
      }
      ghost var bitmap0, blocks0 := bitmap, blocks;
      var b := Balloc();
      if b.Panic? {
        return Panic, maps;
      }
      EntryGranted(sup, begun, Snapshot(bitmap0, blocks0, dinodes), old(logged), inos, owner, ip.inum, e, b.value);
      blocks := blocks[t := SetWord(blocks[t], e, b.value)];
      calls, logged := calls + [t], logged + {t};
      owner := owner[b.value := Slot(ip.inum, NDIRECT + 1 + e)];
      maps := {sup.BBlock(b.value)};
      return Done(b.value), maps;
    }

    /** bmap: the address of the bn-th block of a file, allocating what is missing. No file
        reads differently afterwards. */
    method Bmap(ip: InCore, bn: nat) returns (r: Outcome<nat>, ghost maps: set<nat>)
      requires Ok(ip)
      modifies `bitmap, `blocks, `logged, `calls, `owner, ip`addrs
      ensures r.Panic? && bn < MAXFILE ==> Full(bitmap)
      ensures r.Done? ==>
        && Ok(ip) && bn < MAXFILE && r.value == SlotAddr(blocks, ip.Value(), SlotOf(bn)) && 0 < r.value < sup.size
        && SameBytes(old(blocks), old(Inos(ip)), blocks, Inos(ip))
        && SlotsKept(old(blocks), old(ip.Value()), blocks, ip.Value())
        && Within(logged, old(logged), {r.value}, Tables(ip.Value(), bn), maps)
        && |maps| <= (if bn >= NDIRECT && old(ip.addrs)[NDIRECT] == 0 then 2 else 1)
      ensures bn < MAXFILE && old(SlotAddr(blocks, ip.Value(), SlotOf(bn))) != 0 ==>
        && r.Done? && ip.addrs == old(ip.addrs) && bitmap == old(bitmap) && blocks == old(blocks)
        && logged == old(logged) && calls == old(calls) && owner == old(owner) && maps == {}
    {
      if bn < NDIRECT {
        r, maps := AddrFor(ip, bn);
        return;
      }
      if bn - NDIRECT < NINDIRECT {
        ghost var more;
        r, maps := AddrFor(ip, NDIRECT);
        if r.Panic? {
          return;
        }
        ghost var blocks1, inos1, v1 := blocks, Inos(ip), ip.Value();
        r, more := EntryFor(ip, bn - NDIRECT);
        if r.Done? {
          SameBytesTrans(old(blocks), old(Inos(ip)), blocks1, inos1, blocks, Inos(ip));
          SlotsKeptTrans(old(blocks), old(ip.Value()), blocks1, v1, blocks, ip.Value());
        }
        maps := maps + more;
        return;
      }
      return Panic, {};
    }

    /** One turn of writei's loop: bytes that fit into one block. */
    method WriteChunk(ip: InCore, off: nat, data: seq<byte>)
      returns (r: Outcome<()>, ghost a: nat, ghost maps: set<nat>)
      requires Ok(ip) && 0 < |data| && Offset(off) + |data| <= BSIZE && off + |data| <= MAXBYTES
      modifies `bitmap, `blocks, `logged, `calls, `owner, ip`addrs
      ensures r.Panic? ==> Full(bitmap)
      ensures r.Done? ==>
        && Ok(ip)
        && ChunkWritten(old(blocks), old(Inos(ip)), old(logged), blocks, Inos(ip), logged, ip.inum, off, data, a, maps)
    {
      var bn := BlockOf(off);
      a, maps := 0, {};
      var at: Outcome<nat>;
      at, maps := Bmap(ip, bn);
      if at.Panic? {
        return Panic, a, maps;
      }
      ghost var blocks1 := blocks;
      var o := Offset(off);
      var blk := blocks[at.value];
      var patched: Block := blk[..o] + data + blk[o + |data|..];
      DataWrite(sup, bitmap, blocks, Inos(ip), owner, ip.inum, bn, patched);
      SlotInRange(sup, bitmap, blocks, Inos(ip), owner, ip.inum, SlotOf(bn));
      LogBlock(sup, begun, Snap(), logged, at.value, patched);
      blocks := blocks[at.value := patched];
      calls, logged := calls + [at.value], logged + {at.value};
      a := at.value;
      r := Done(());
      PatchSplices(blocks1, Inos(ip), blocks, ip.inum, off, data, patched);
      SplicedAfterSame(old(blocks), old(Inos(ip)), blocks1, blocks, Inos(ip), ip.inum, off, data);
      SameSlotsMapped(blocks1, blocks, Inos(ip));
      assert Inos(ip)[ip.inum] == ip.Value();
    }

    /** One turn of writei's loop, and how far the write has come then. */
    method PlaceChunk(ip: InCore, src: seq<byte>, off: nat, tot: nat, ghost blocks0: seq<Block>,
                      ghost inos0: seq<Inode>, ghost logged0: set<nat>,
                      ghost data: set<nat>, ghost maps: set<nat>)
      returns (r: Outcome<nat>, ghost data': set<nat>, ghost maps': set<nat>)
      requires Ok(ip) && Progress(blocks0, inos0, logged0, blocks, Inos(ip), logged, ip.inum, off, src, tot, data, maps)
      requires tot < |src|
      modifies `bitmap, `blocks, `logged, `calls, `owner, ip`addrs
      ensures r.Panic? ==> Full(bitmap)
      ensures r.Done? ==>
        && r.value > 0 && Ok(ip)
        && Progress(blocks0, inos0, logged0, blocks, Inos(ip), logged, ip.inum, off, src, tot + r.value, data', maps')
    {
      data', maps' := data, maps;
      var m := Fit(off + tot, |src| - tot);
      ghost var blocks1, inos1, logged1 := blocks, Inos(ip), logged;
      assert NoHoles(blocks1, inos1[ip.inum]);
      ghost var a, more;
      var done: Outcome<()>;
      done, a, more := WriteChunk(ip, off + tot, src[tot..tot + m]);
      if done.Panic? {
        return Panic, data', maps';
      }
      ChunkStep(blocks0, inos0, logged0, blocks1, inos1, logged1, blocks, Inos(ip), logged, ip.inum, off, src, tot, m,
                data, maps, a, more);
      return Done(m), data + {a}, maps + more;
    }

    /** writei's loop: every byte of src lands at its place. */
    method WriteBytes(ip: InCore, src: seq<byte>, off: nat)
      returns (r: Outcome<()>, ghost data: set<nat>, ghost maps: set<nat>)
      requires Ok(ip) && off <= ip.size && off + |src| <= MAXBYTES
      modifies `bitmap, `blocks, `logged, `calls, `owner, ip`addrs
      ensures r.Panic? ==> Full(bitmap)
      ensures r.Done? ==>
        && Ok(ip) && BytesPlaced(old(blocks), old(Inos(ip)), blocks, Inos(ip), ip.inum, off, src)
        && BlocksLogged(old(ip.Value()), old(logged), ip.Value(), logged, off, |src|, data, maps)
    {
      data, maps := {}, {};
      var tot := 0;
      ghost var inos0 := Inos(ip);
      assert NoHoles(blocks, inos0[ip.inum]);
      assert Covered(blocks, inos0[ip.inum], off);
      assert src[..0] == [];
      while tot < |src|
        invariant Ok(ip)
        invariant Progress(old(blocks), inos0, old(logged), blocks, Inos(ip), logged, ip.inum,
                           off, src, tot, data, maps)
      {
        var m: Outcome<nat>;
        m, data, maps := PlaceChunk(ip, src, off, tot, old(blocks), inos0, old(logged), data, maps);
        if m.Panic? {
          return Panic, data, maps;
        }
        tot := tot + m.value;
      }
      assert src[..tot] == src;
      r := Done(());
    }

    ghost predicate Stored(ip: InCore)
      reads this, ip
    {
      ip.inum < |dinodes| && dinodes[ip.inum] == ip.Value()
    }

    /** The end of writei: a write that passed the end of the file grows it. */
    method Grow(ip: InCore, end: nat)
      requires Ok(ip) && Covered(blocks, ip.Value(), end) && ip.size < end <= MAXBYTES
      modifies `dinodes, `logged, `calls, ip`size
      ensures Ok(ip) && Stored(ip) && ip.size == end
      ensures Inos(ip) == old(Inos(ip))[ip.inum := old(ip.Value()).(size := end)]
      ensures logged == old(logged) + {sup.IBlock(ip.inum)} && calls == old(calls) + [sup.IBlock(ip.inum)]
      ensures forall p :: 0 <= p < MAXBYTES ==> ByteAt(blocks, ip.Value(), p) == ByteAt(blocks, old(ip.Value()), p)
    {
      ghost var inos, v := Inos(ip), ip.Value();
      ip.size := end;
      ResizeOk(sup, bitmap, blocks, inos, owner, ip.inum, v.(size := end));
      assert Inos(ip) == inos[ip.inum := v.(size := end)];
      SizeCovered(blocks, v, end);
      OwnedStorable(sup, bitmap, blocks, Inos(ip), owner, ip.inum);
      Iupdate(ip);
      assert Inos(ip) == inos[ip.inum := v.(size := end)];
    }

    /** writei after its checks. */
    method WriteAll(ip: InCore, src: seq<byte>, off: nat) returns (r: Outcome<()>)
      requires Ok(ip) && Stored(ip) && off <= ip.size && off + |src| <= MAXBYTES
      modifies `bitmap, `blocks, `dinodes, `logged, `calls, `owner, ip`addrs, ip`size
      ensures r.Panic? ==> Full(bitmap)
      ensures r.Done? ==>
        && Ok(ip) && Stored(ip) && OthersKept(old(blocks), old(dinodes), blocks, dinodes, ip.inum)
        && old(ip.size) <= MAXBYTES && ip.size <= MAXBYTES
        && Contents(blocks, ip.Value()) == Overwrite(old(Contents(blocks, ip.Value())), off, src)
        && |logged - old(logged)| <= LogBound(off, |src|) && |Early(calls) - old(logged)| < LogBound(off, |src|)
    {
      ghost var inos0 := Inos(ip);
      assert inos0 == dinodes;
      SizesFit(blocks, inos0);
      ghost var data, maps;
      r, data, maps := WriteBytes(ip, src, off);
      if r.Panic? {
        return;
      }
      CountCalls(calls, logged, old(logged), data, Indirect(ip.Value()), maps, sup.IBlock(ip.inum));
      ghost var inos1 := Inos(ip);
      if |src| > 0 && off + |src| > ip.size {
        Grow(ip, off + |src|);
        SplicedResize(old(blocks), inos0, blocks, inos1, ip.inum, off, src, ip.Value());
      }
      SplicedContents(old(blocks), inos0, blocks, Inos(ip), ip.inum, off, src);
      assert dinodes == Inos(ip);
      SplicedKeepsOthers(old(blocks), inos0, blocks, dinodes, ip.inum, off, src);
    }

    /** writei: `src` is written over the file's bytes at `off`, or nothing is. */
    method Writei(ip: InCore, src: seq<byte>, off: nat, device: int) returns (r: Outcome<int>)
      requires Ok(ip) && Stored(ip) && off < UINT && |src| < UINT
      modifies `bitmap, `blocks, `dinodes, `logged, `calls, `owner, ip`addrs, ip`size
      ensures r.Panic? ==> Full(bitmap)
      ensures r.Done? ==> Ok(ip) && Stored(ip) && OthersKept(old(blocks), old(dinodes), blocks, dinodes, ip.inum)
      ensures ip.ty == T_DEV || WriteFails(old(ip.size), off, |src|) ==>
        && r == Done(if ip.ty == T_DEV then device else -1)
        && bitmap == old(bitmap) && blocks == old(blocks) && dinodes == old(dinodes)
        && logged == old(logged) && calls == old(calls)
      ensures r.Done? && ip.ty != T_DEV && !WriteFails(old(ip.size), off, |src|) ==>
        && r.value == |src| && old(ip.size) <= MAXBYTES && ip.size <= MAXBYTES && off <= old(ip.size)
        && Contents(blocks, ip.Value()) == Overwrite(old(Contents(blocks, ip.Value())), off, src)
        && |logged - old(logged)| <= LogBound(off, |src|) && |Early(calls) - old(logged)| < LogBound(off, |src|)
    {
      SizesFit(blocks, Inos(ip));
      assert Inos(ip) == dinodes;
      if ip.ty == T_DEV {
        return Done(device);
      }
      WriteFailsIff(ip.size, off, |src|);
      if off > ip.size || Add32(off, |src|) < off {
        return Done(-1);
      }
      if Add32(off, |src|) > MAXBYTES {
        return Done(-1);
      }
      var done := WriteAll(ip, src, off);
      if done.Panic? {
        return Panic;
      }
      r := Done(|src|);
    }

    /** readi: the file's bytes from `off`, up to n of them. It allocates nothing. */
    method Readi(ip: InCore, off: nat, n: nat, device: int) returns (r: Outcome<int>, dst: seq<byte>)
      requires Ok(ip) && off < UINT && n < UINT
      modifies `bitmap, `blocks, `logged, `calls, `owner, ip`addrs
      ensures bitmap == old(bitmap) && blocks == old(blocks) && owner == old(owner)
      ensures logged == old(logged) && calls == old(calls)
      ensures ip.addrs == old(ip.addrs)
      ensures ip.ty == T_DEV ==> r == Done(device) && dst == []
      ensures ip.ty != T_DEV && (off > ip.size || off + n >= UINT) ==> r == Done(-1) && dst == []
      ensures ip.ty != T_DEV && off <= ip.size && off + n < UINT ==>
        var end := if off + n < ip.size then off + n else ip.size;
        ip.size <= MAXBYTES && dst == Contents(blocks, ip.Value())[off..end] && r == Done(|dst|)
    {
      dst := [];
      ghost var inos := Inos(ip);
      assert inos[ip.inum] == ip.Value() && NoHoles(blocks, ip.Value());
      if ip.ty == T_DEV {
        return Done(device), dst;
      }
      SumWraps(off, n);
      if off > ip.size || Add32(off, n) < off {
        return Done(-1), dst;
      }
      var n' := if Add32(off, n) > ip.size then ip.size - off else n;
      dst := ReadBytes(ip, off, n');
      r := Done(n');
    }

    /** readi's loop. */
    method ReadBytes(ip: InCore, off: nat, n: nat) returns (dst: seq<byte>)
      requires Ok(ip) && off + n <= ip.size <= MAXBYTES
      modifies `bitmap, `blocks, `logged, `calls, `owner, ip`addrs
      ensures bitmap == old(bitmap) && blocks == old(blocks) && owner == old(owner)
      ensures logged == old(logged) && calls == old(calls)
      ensures ip.addrs == old(ip.addrs)
      ensures dst == Contents(blocks, ip.Value())[off..off + n]
    {
      assert NoHoles(blocks, ip.Value()) by { assert Inos(ip)[ip.inum] == ip.Value(); }
      ghost var whole := Contents(blocks, ip.Value());
      dst := [];
      var tot := 0;
      while tot < n
        invariant 0 <= tot <= n && dst == whole[off..off + tot]
        invariant bitmap == old(bitmap) && blocks == old(blocks) && owner == old(owner)
        invariant logged == old(logged) && calls == old(calls)
        invariant Ok(ip) && ip.addrs == old(ip.addrs)
      {
        var m := Fit(off + tot, n - tot);
        var part := ReadChunk(ip, off + tot, m);
        SliceMore(whole, off, tot, m);
        dst := dst + part;
        tot := tot + m;
      }
    }

    /** One turn of readi's loop: bytes of one block. */
    method ReadChunk(ip: InCore, pos: nat, m: nat) returns (part: seq<byte>)
      requires Ok(ip) && 0 < m && pos + m <= ip.size <= MAXBYTES && Offset(pos) + m <= BSIZE
      requires NoHoles(blocks, ip.Value())
      modifies `bitmap, `blocks, `logged, `calls, `owner, ip`addrs
      ensures bitmap == old(bitmap) && blocks == old(blocks) && owner == old(owner)
      ensures logged == old(logged) && calls == old(calls)
      ensures Ok(ip) && ip.addrs == old(ip.addrs)
      ensures part == Contents(blocks, ip.Value())[pos..pos + m]
    {
      assert Mapped(blocks, ip.Value(), BlockOf(pos));
      var at, _ := Bmap(ip, BlockOf(pos));
      BlockSlice(blocks, ip.Value(), pos, m);
      return blocks[at.value][Offset(pos)..Offset(pos) + m];
    }

    /** itrunc: gives back every block of the inode. It never frees a free block. */
    method Itrunc(ip: InCore)
      requires Ok(ip)
      modifies `bitmap, `dinodes, `logged, `calls, `owner, ip`addrs, ip`size
      ensures Ok(ip) && Stored(ip) && ip.Value() == Emptied(old(ip.Value()))
      ensures ip.size == 0 && forall k :: 0 <= k <= NDIRECT ==> ip.addrs[k] == 0
      ensures dinodes == old(dinodes)[ip.inum := ip.Value()] && owner == Disown(old(owner), ip.inum)
      ensures |bitmap| == old(|bitmap|) && forall b :: 0 <= b < |bitmap| ==>
        (bitmap[b] <==> old(bitmap)[b] && !(b in old(owner) && old(owner)[b].i == ip.inum))
      ensures logged == old(logged) + MapsOf(sup, old(owner), ip.inum) + {sup.IBlock(ip.inum)}
    {
      ghost var inos0, bits0 := Inos(ip), bitmap;
      FreeAll(ip);
      ip.size := 0;
      ReleaseAll(sup, bits0, blocks, inos0, owner, ip.inum, bitmap, ip.Value());
      owner := Disown(owner, ip.inum);
      assert inos0[ip.inum := ip.Value()] == Inos(ip);
      OwnedStorable(sup, bitmap, blocks, Inos(ip), owner, ip.inum);
      Iupdate(ip);
      assert inos0[ip.inum := ip.Value()] == Inos(ip);
    }

    /** The part of itrunc that frees blocks. */
    method FreeAll(ip: InCore)
      requires Ok(ip)
      modifies `bitmap, `logged, `calls, ip`addrs
      ensures Tracked() && forall k :: 0 <= k <= NDIRECT ==> ip.addrs[k] == 0
      ensures |bitmap| == old(|bitmap|) && forall b :: 0 <= b < |bitmap| ==>
        (bitmap[b] <==> old(bitmap)[b] && !(b in owner && owner[b].i == ip.inum))
      ensures logged == old(logged) + MapsOf(sup, owner, ip.inum)
    {
      ghost var inos0, v0, bits0 := Inos(ip), ip.Value(), bitmap;
      assert inos0[ip.inum] == v0;
      ghost var done := FreeDirect(ip, inos0, v0, bits0);
      if ip.addrs[NDIRECT] != 0 {
        done := FreeIndirect(ip, inos0, v0, bits0, done);
        ip.addrs := ip.addrs[NDIRECT := 0];
      }
      AllCleared(sup, bits0, blocks, inos0, owner, ip.inum, bitmap, done);
      MapsAll(sup, bits0, blocks, inos0, owner, ip.inum, done);
    }

    /** Frees the block of slot k of inode i, if the slot has one; it is in use, so bfree does not panic. */
    method FreeSlot(a: nat, ghost i: nat, ghost k: nat, ghost inos0: seq<Inode>, ghost bits0: seq<bool>,
                    ghost done: set<nat>, ghost logged0: set<nat>)
      requires Owned(sup, bits0, blocks, inos0, owner) && i < |inos0| && k < NSLOT && k !in done
      requires a == SlotAddr(blocks, inos0[i], k) && Cleared(bits0, bitmap, owner, i, done) && Tracked()
      requires logged == logged0 + MapsIn(sup, owner, i, done)
      modifies `bitmap, `logged, `calls
      ensures Tracked() && Cleared(bits0, bitmap, owner, i, done + {k})
      ensures logged == logged0 + MapsIn(sup, owner, i, done + {k})
    {
      ClearSlot(sup, bits0, blocks, inos0, owner, i, k, bitmap, done);
      MapsMore(sup, bits0, blocks, inos0, owner, i, k, done);
      if a != 0 {
        var freed := Bfree(a);
        assert freed.Done?;
      }
    }

    /** The part of itrunc that frees the direct blocks. */
    method FreeDirect(ip: InCore, ghost inos0: seq<Inode>, ghost v0: Inode, ghost bits0: seq<bool>)
      returns (ghost done: set<nat>)
      requires Owned(sup, bits0, blocks, inos0, owner) && ip.inum < |inos0| && inos0[ip.inum] == v0 == ip.Value()
      requires bitmap == bits0 && Tracked()
      modifies `bitmap, `logged, `calls, ip`addrs
      ensures Tracked() && Cleared(bits0, bitmap, owner, ip.inum, done) && forall k :: k in done <==> 0 <= k < NDIRECT
      ensures logged == old(logged) + MapsIn(sup, owner, ip.inum, done)
      ensures forall k :: 0 <= k <= NDIRECT ==> ip.addrs[k] == if k < NDIRECT then 0 else v0.addrs[k]
    {
      done := {};
      var i := 0;
      while i < NDIRECT
        invariant Tracked() && 0 <= i <= NDIRECT && Cleared(bits0, bitmap, owner, ip.inum, done)
        invariant logged == old(logged) + MapsIn(sup, owner, ip.inum, done)
        invariant forall k :: k in done <==> 0 <= k < i
        invariant forall k :: 0 <= k <= NDIRECT ==> ip.addrs[k] == if k < i then 0 else v0.addrs[k]
      {
        FreeSlot(ip.addrs[i], ip.inum, i, inos0, bits0, done, old(logged));
        ip.addrs := ip.addrs[i := 0];
        done := done + {i};
        i := i + 1;
      }
    }

    /** The part of itrunc that frees the blocks listed in the indirect block, then that block. */
    method FreeIndirect(ip: InCore, ghost inos0: seq<Inode>, ghost v0: Inode, ghost bits0: seq<bool>,
                        ghost done0: set<nat>) returns (ghost done: set<nat>)
      requires Owned(sup, bits0, blocks, inos0, owner) && ip.inum < |inos0| && inos0[ip.inum] == v0
      requires Cleared(bits0, bitmap, owner, ip.inum, done0) && (forall k :: k in done0 <==> 0 <= k < NDIRECT)
      requires v0.addrs[NDIRECT] == ip.addrs[NDIRECT] != 0 && Tracked() && MapsIn(sup, owner, ip.inum, done0) <= logged
      modifies `bitmap, `logged, `calls
      ensures Tracked()
      ensures Cleared(bits0, bitmap, owner, ip.inum, done) && forall k :: k in done <==> 0 <= k < NSLOT
      ensures logged == old(logged) + MapsIn(sup, owner, ip.inum, done)
    {
      done := done0;
      SlotInRange(sup, bits0, blocks, inos0, owner, ip.inum, NDIRECT);
      var t := ip.addrs[NDIRECT];
      assert SlotAddr(blocks, inos0[ip.inum], NDIRECT) == t;
      var j := 0;
      while j < NINDIRECT
        invariant Tracked() && 0 <= j <= NINDIRECT && Cleared(bits0, bitmap, owner, ip.inum, done)
        invariant logged == old(logged) + MapsIn(sup, owner, ip.inum, done)
        invariant forall k :: k in done <==> 0 <= k < NDIRECT || NDIRECT < k <= NDIRECT + j
      {
        FreeSlot(Word(blocks[t], j), ip.inum, NDIRECT + 1 + j, inos0, bits0, done, old(logged));
        done := done + {NDIRECT + 1 + j};
        j := j + 1;
      }
      FreeSlot(t, ip.inum, NDIRECT, inos0, bits0, done, old(logged));
      done := done + {NDIRECT};
    }

    /** iput: drops a reference; the last one to an unlinked inode frees the inode and its blocks. The
        fields of an inode that is not valid mean nothing, and are left alone. */
    method Iput(ip: InCore)
      requires ip.valid ==> Ok(ip) && Stored(ip)
      modifies `bitmap, `dinodes, `logged, `calls, `owner, ip`ty, ip`addrs, ip`size, ip`ref, ip`valid
      ensures old(ip.valid) ==> Ok(ip) && Stored(ip)
      ensures ip.ref == old(ip.ref) - 1
      ensures
        if old(ip.valid && ip.nlink == 0 && ip.ref == 1) then
          && ip.Value() == Emptied(old(ip.Value())).(ty := 0) && !ip.valid
          && owner == Disown(old(owner), ip.inum) && dinodes == old(dinodes)[ip.inum := ip.Value()]
          && Early(calls) == logged == old(logged) + MapsOf(sup, old(owner), ip.inum) + {sup.IBlock(ip.inum)}
        else
          && ip.Value() == old(ip.Value()) && ip.valid == old(ip.valid)
          && bitmap == old(bitmap) && dinodes == old(dinodes) && owner == old(owner)
          && logged == old(logged) && calls == old(calls)
    {
      if ip.valid && ip.nlink == 0 {
        var r := ip.ref;
        if r == 1 {
          Itrunc(ip);
          ghost var inos, v := Inos(ip), ip.Value();
          ip.ty := 0;
          ResizeOk(sup, bitmap, blocks, inos, owner, ip.inum, ip.Value());
          assert Inos(ip) == inos[ip.inum := ip.Value()];
          OwnedStorable(sup, bitmap, blocks, Inos(ip), owner, ip.inum);
          EarlyIs(calls, logged, sup.IBlock(ip.inum));
          Iupdate(ip);
          assert Inos(ip) == inos[ip.inum := ip.Value()];
          ip.valid := false;
        }
      }
      ip.ref := ip.ref - 1;
    }

    /** One chunk of filewrite, between begin_op and end_op: it logs at most MAXOPBLOCKS blocks. For a
        device, the answer of its driver is all that happens. */
    method WriteOp(f: OpenFile, ip: InCore, src: seq<byte>, device: int) returns (r: Outcome<int>)
      requires Ok(ip) && Stored(ip) && f.off < UINT && |src| <= CHUNK
      modifies `bitmap, `blocks, `dinodes, `logged, `calls, `owner, `begun, ip`addrs, ip`size, f`off
      ensures r.Panic? ==> Full(bitmap) && ip.ty != T_DEV
      ensures r.Done? ==>
        && Ok(ip) && Stored(ip) && |logged| <= MAXOPBLOCKS && |Early(calls)| < MAXOPBLOCKS
        && begun == old(Snap()) && f.off < UINT
        && OthersKept(old(blocks), old(dinodes), blocks, dinodes, ip.inum)
        && old(ip.size) <= MAXBYTES && ip.size <= MAXBYTES
      ensures ip.ty == T_DEV ==>
        && r == Done(device) && Snap() == old(Snap())
        && f.off == if device > 0 then Add32(old(f.off), device) else old(f.off)
      ensures ip.ty != T_DEV && WriteFails(old(ip.size), old(f.off), |src|) ==>
        r == Done(-1) && f.off == old(f.off) && Snap() == old(Snap()) && calls == []
      ensures r.Done? && ip.ty != T_DEV && !WriteFails(old(ip.size), old(f.off), |src|) ==>
        && r.value == |src| && old(f.off) <= old(ip.size) && f.off == old(f.off) + |src| <= MAXBYTES
        && WrittenSoFar(old(Contents(blocks, ip.Value())), old(f.off), src, |src|, Contents(blocks, ip.Value()))
    {
      BeginOp();
      assert NoHoles(blocks, Inos(ip)[ip.inum]);
      r := Writei(ip, src, f.off, device);
      if r.Panic? {
        return;
      }
      assert NoHoles(blocks, Inos(ip)[ip.inum]);
      assert logged - {} == logged && Early(calls) - {} == Early(calls);
      f.Advance(r.value);
      ChunkFitsOp(old(f.off), |src|);
      if ip.ty != T_DEV && !WriteFails(old(ip.size), old(f.off), |src|) {
        WriteFailsIff(old(ip.size), old(f.off), |src|);
        WholeWritten(old(Contents(blocks, ip.Value())), old(f.off), src, Contents(blocks, ip.Value()));
      }
    }

    /** The state of a chunked write after i bytes. */
    ghost predicate Chunked(f: OpenFile, ip: InCore, addr: seq<byte>, i: nat, blocks0: seq<Block>, inos0: seq<Inode>,
                            before: seq<byte>, off0: nat)
      reads this, f, ip
    {
      && i <= |addr| && f.off == off0 + i && f.off < UINT && (i < |addr| ==> AtChunk(i))
      && Ok(ip) && Stored(ip) && ip.size <= MAXBYTES
      && OthersKept(blocks0, inos0, blocks, dinodes, ip.inum)
      && WrittenSoFar(before, off0, addr, i, Contents(blocks, ip.Value()))
    }

    /** One turn of filewrite's loop. */
    method WriteNext(f: OpenFile, ip: InCore, addr: seq<byte>, i: nat, ghost blocks0: seq<Block>,
                     ghost inos0: seq<Inode>, ghost before: seq<byte>, ghost off0: nat)
      returns (w: Outcome<int>)
      requires Chunked(f, ip, addr, i, blocks0, inos0, before, off0) && i < |addr| && ip.ty != T_DEV
      modifies `bitmap, `blocks, `dinodes, `logged, `calls, `owner, `begun, ip`addrs, ip`size, f`off
      ensures w.Panic? ==> Full(bitmap)
      ensures w.Done? ==> |logged| <= MAXOPBLOCKS && (w.value == -1 || w.value == NextChunk(i, |addr|))
      ensures w.Done? ==> Chunked(f, ip, addr, if w.value < 0 then i else i + w.value, blocks0, inos0, before, off0)
      ensures w.Done? && w.value < 0 ==> WriteFails(ip.size, f.off, NextChunk(i, |addr|))
    {
      var part := addr[i..i + NextChunk(i, |addr|)];
      w := WriteOp(f, ip, part, 0);
      if w.Done? {
        OthersKeptTrans(blocks0, inos0, old(blocks), old(dinodes), blocks, dinodes, ip.inum);
        if w.value >= 0 {
          WrittenMore(before, off0, addr, i, part, old(f.off), old(Contents(blocks, ip.Value())),
                      Contents(blocks, ip.Value()));
        }
      }
    }

    /** The loop of filewrite: chunk after chunk, each an operation of its own. `most` is the
        largest number of blocks that one of them logged. */
    method WriteChunks(f: OpenFile, ip: InCore, addr: seq<byte>)
      returns (r: Outcome<int>, ghost most: nat, ghost k: nat)
      requires Ok(ip) && Stored(ip) && ip.ty != T_DEV && f.off < UINT && ip.size <= MAXBYTES
      modifies `bitmap, `blocks, `dinodes, `logged, `calls, `owner, `begun, ip`addrs, ip`size, f`off
      ensures r.Panic? ==> Full(bitmap)
      ensures r.Done? ==>
        && Chunked(f, ip, addr, k, old(blocks), old(dinodes), old(Contents(blocks, ip.Value())), old(f.off))
        && most <= MAXOPBLOCKS && ChunksEnd(ip.size, f.off, k, |addr|, r.value)
    {
      most, k := 0, 0;
      ghost var before := Contents(blocks, ip.Value());
      assert Inos(ip) == dinodes;
      NothingWritten(before, f.off, addr, blocks, dinodes, ip.inum);
      var i := 0;
      while i < |addr|
        invariant Chunked(f, ip, addr, i, old(blocks), old(dinodes), before, old(f.off)) && most <= MAXOPBLOCKS
      {
        var w := WriteNext(f, ip, addr, i, old(blocks), old(dinodes), before, old(f.off));
        if w.Panic? {
          return Panic, most, i;
        }
        most := if |logged| > most then |logged| else most;
        if w.value < 0 {
          return Done(-1), most, i;
        }
        i := i + w.value;
      }
      return Done(|addr|), most, i;
    }

    /** The loop of filewrite to a device, whose driver answers device(i) for the chunk at i. */
    method DeviceChunks(f: OpenFile, ip: InCore, addr: seq<byte>, device: nat -> int)
      returns (r: Outcome<int>, ghost k: nat)
      requires Ok(ip) && Stored(ip) && ip.ty == T_DEV && f.off < UINT
      modifies `bitmap, `blocks, `dinodes, `logged, `calls, `owner, `begun, ip`addrs, ip`size, f`off
      ensures Snap() == old(Snap()) && DeviceEnds(device, |addr|, k, r)
    {
      var i := 0;
      while i < |addr|
        invariant Ok(ip) && Stored(ip) && f.off < UINT && Snap() == old(Snap())
        invariant i <= |addr| && Answered(device, |addr|, i) && (i < |addr| ==> AtChunk(i))
      {
        var n1 := NextChunk(i, |addr|);
        var w := WriteOp(f, ip, addr[i..i + n1], device(i));
        if w.value < 0 {
          return Done(-1), i;
        }
        if w.value != n1 {
          return Panic, i;
        }
        AnsweredMore(device, |addr|, i);
        i := i + w.value;
      }
      return Done(|addr|), i;
    }

    /** filewrite to an inode. */
    method Filewrite(f: OpenFile, ip: InCore, addr: seq<byte>, device: nat -> int)
      returns (r: Outcome<int>, ghost most: nat, ghost k: nat)
      requires Ok(ip) && Stored(ip) && f.off < UINT
      modifies `bitmap, `blocks, `dinodes, `logged, `calls, `owner, `begun, ip`addrs, ip`size, f`off
      ensures r.Panic? ==> Full(bitmap) || ip.ty == T_DEV
      ensures !f.writable ==> r == Done(-1) && f.off == old(f.off) && Snap() == old(Snap())
      ensures f.writable && ip.ty == T_DEV ==> Snap() == old(Snap()) && DeviceEnds(device, |addr|, k, r)
      ensures r.Done? && f.writable && ip.ty != T_DEV ==>
        && Ok(ip) && Stored(ip) && most <= MAXOPBLOCKS && old(ip.size) <= MAXBYTES && ip.size <= MAXBYTES
        && OthersKept(old(blocks), old(dinodes), blocks, dinodes, ip.inum)
        && k <= |addr| && f.off == old(f.off) + k && ChunksEnd(ip.size, f.off, k, |addr|, r.value)
        && (k == |addr| ==> r.value == |addr|)
        && (k < |addr| ==>
              r.value == -1 && k % 1536 == 0
              && (f.off > ip.size || f.off + (if |addr| - k < 1536 then |addr| - k else 1536) > 71680))
        && WrittenSoFar(old(Contents(blocks, ip.Value())), old(f.off), addr, k, Contents(blocks, ip.Value()))
    {
      most, k := 0, 0;
      if !f.writable {
        return Done(-1), most, k;
      }
      assert NoHoles(blocks, Inos(ip)[ip.inum]);
      if ip.ty == T_DEV {
        r, k := DeviceChunks(f, ip, addr, device);
      } else {
        r, most, k := WriteChunks(f, ip, addr);
        if r.Done? && k < |addr| {
          ChunkSize(k, |addr|);
          WriteFailsIff(ip.size, f.off, NextChunk(k, |addr|));
        }
      }
    }
  }

  /** The driver has taken every chunk before i in full. */
  ghost predicate Answered(device: nat -> int, n: nat, i: nat) {
    forall j: nat {:trigger device(j)} :: j < i && j < n && AtChunk(j) ==> device(j) == NextChunk(j, n)
  }

  lemma AnsweredMore(device: nat -> int, n: nat, i: nat)
    requires Answered(device, n, i) && i < n && AtChunk(i) && device(i) == NextChunk(i, n)
    ensures Answered(device, n, i + NextChunk(i, n))
  {
    forall j: nat | i < j < i + NextChunk(i, n) ensures !AtChunk(j) {
      InsideChunk(i, j);
    }
  }

  lemma InsideChunk(i: nat, j: nat)
    requires AtChunk(i) && i < j < i + CHUNK
    ensures !AtChunk(j)
  {
    assert (j - i) % 1536 == j - i;
  }

  /** How filewrite to a device ends after k of n bytes: all taken, an error of the driver, or the
      "short filewrite" panic on a chunk that it did not take in full. */
  ghost predicate DeviceEnds(device: nat -> int, n: nat, k: nat, r: Outcome<int>) {
    && k <= n && Answered(device, n, k) && (k < n ==> AtChunk(k))
    && if k == n then r == Done(n)
       else if device(k) < 0 then r == Done(-1)
       else r == Panic && device(k) != NextChunk(k, n)
  }

  /** How a chunked write of n bytes ends after k of them, at offset off of a file of this size:
      all done, or refused at a chunk that the file cannot take. */
  ghost predicate ChunksEnd(size: nat, off: nat, k: nat, n: nat, result: int)
    requires k <= n
  {
    if k == n then result == n else result == -1 && AtChunk(k) && WriteFails(size, off, NextChunk(k, n))
  }

  /** An open file: its offset, and whether it may be written. */
  class OpenFile {
    var off: nat
    const writable: bool

    constructor (canWrite: bool)
      ensures off == 0 && writable == canWrite
    {
      off, writable := 0, canWrite;
    }

    /** The offset moves by a result, as an unsigned 32-bit number; an error does not move it. */
    method Advance(n: int)
      requires off < UINT
      modifies `off
      ensures off < UINT && off == if n > 0 then Add32(old(off), n) else old(off)
      ensures 0 <= n && old(off) + n < UINT ==> off == old(off) + n
    {
      if n > 0 {
        off := Add32(off, n);
      }
    }
  }
}
