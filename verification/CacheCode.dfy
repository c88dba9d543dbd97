/** The buffer cache of bio.c over the memory disk of memide.c. Each method is one stretch that
    runs under bcache.lock or under the buffer's own lock, so any interleaving of calls is a
    sequence of these methods. */
module CacheCode {
  import opened Common
  import opened Blocks
  import opened CacheRing
  import opened CacheView

  class Cache {
    var bufs: seq<Buf>
    var next: seq<nat>             // links of the list; index HEAD is the list head
    var prev: seq<nat>
    var disk: seq<Block>

    ghost var nodes: seq<nat>      // the list, from the head on
    ghost var holders: map<nat, nat>   // which buffer each use has a reference to
    ghost var owner: map<nat, nat>     // which use holds a buffer's lock
    ghost var latest: seq<Block>   // the latest logged or written contents of each block
    ghost var stamp: seq<nat>      // when each buffer's last use ended
    ghost var clock: nat

    ghost predicate Valid()
      reads this
    {
      && |bufs| == NBUF && Complete(nodes) && Ring(nodes, next, prev) && |next| == NBUF + 1
      && Unique(bufs) && View(bufs, disk, latest) && Counted(bufs, holders, owner)
      && |stamp| == NBUF && ByRelease(nodes, stamp) && (forall b :: 0 <= b < NBUF ==> stamp[b] <= clock)
    }

    /** binit: all buffers empty, each put in front of those before it. */
    constructor (image: seq<Block>)
      ensures Valid() && disk == image && latest == image && holders == map[] && owner == map[]
      ensures forall b :: 0 <= b < NBUF ==> bufs[b].Idle()
    {
      var nx: seq<nat> := seq(NBUF + 1, _ => HEAD);
      var pv: seq<nat> := seq(NBUF + 1, _ => HEAD);
      ghost var list: seq<nat> := [HEAD];
      assert LinkOk(list, nx, pv, 0);
      var b := 0;
      while b < NBUF
        invariant 0 <= b <= NBUF && |list| == b + 1 && list[0] == HEAD && |nx| == NBUF + 1
        invariant Ring(list, nx, pv) && forall i :: 1 <= i <= b ==> list[i] == b - i
      {
        PushFront(list, nx, pv, b);
        ghost var before := list;
        nx := nx[b := nx[HEAD]];
        pv := pv[b := HEAD];
        pv := pv[nx[HEAD] := b];
        nx := nx[HEAD := b];
        list := [HEAD, b] + list[1..];
        b := b + 1;
      }
      bufs := seq(NBUF, _ => Buf(0, 0, false, false, 0, false, ZERO_BLOCK));
      next, prev, disk, nodes := nx, pv, image, list;
      holders, owner, latest, stamp, clock := map[], map[], image, seq(NBUF, _ => 0), 0;
      forall c | 0 <= c < NBUF ensures c in list {
        assert list[NBUF - c] == c;
      }
      assert forall c :: Refs(map[], c) == {};
    }

    /** bget's first loop: the buffer that caches the block, if there is one. */
    method Lookup(d: nat, n: nat) returns (b: nat)
      requires Valid()
      ensures b == HEAD ==> forall a :: 0 <= a < NBUF ==> !bufs[a].Caches(d, n)
      ensures b != HEAD ==> b < NBUF && bufs[b].Caches(d, n)
    {
      assert LinkOk(nodes, next, prev, 0);
      b := next[HEAD];
      ghost var i := Succ(0, |nodes|);
      while b != HEAD
        invariant 0 <= i < |nodes| && b == nodes[i]
        invariant forall k :: 1 <= k < (if i == 0 then |nodes| else i) ==> !bufs[nodes[k]].Caches(d, n)
        decreases if i == 0 then 0 else |nodes| - i
      {
        if bufs[b].dev == d && bufs[b].blockno == n {
          return;
        }
        assert LinkOk(nodes, next, prev, i);
        b := next[b];
        i := Succ(i, |nodes|);
      }
      forall a | 0 <= a < NBUF ensures !bufs[a].Caches(d, n) {
        assert a in nodes;
        var k :| 0 <= k < |nodes| && nodes[k] == a;
      }
    }

    /** bget's second loop, backwards: the idle buffer released least recently. */
    method Victim() returns (b: nat)
      requires Valid()
      ensures b == HEAD ==> forall a :: 0 <= a < NBUF ==> !bufs[a].Idle()
      ensures b != HEAD ==>
        b < NBUF && bufs[b].Idle() && forall a :: 0 <= a < NBUF && bufs[a].Idle() ==> stamp[b] <= stamp[a]
    {
      ghost var i := |nodes| - 1;
      assert LinkOk(nodes, next, prev, i);
      b := prev[HEAD];
      while b != HEAD
        invariant 0 <= i < |nodes| && b == nodes[i]
        invariant forall k :: i < k < |nodes| ==> !bufs[nodes[k]].Idle()
        decreases i
      {
        if bufs[b].refcnt == 0 && !bufs[b].dirty {
          forall a | 0 <= a < NBUF && bufs[a].Idle() ensures stamp[b] <= stamp[a] {
            assert a in nodes;
            var k :| 0 <= k < |nodes| && nodes[k] == a;
          }
          return;
        }
        assert LinkOk(nodes, next, prev, i - 1);
        b := prev[b];
        i := i - 1;
      }
      forall a | 0 <= a < NBUF ensures !bufs[a].Idle() {
        assert a in nodes;
        var k :| 0 <= k < |nodes| && nodes[k] == a;
      }
    }

    /** bget under bcache.lock: the use h gets a reference to the buffer of the block. A cached
        block keeps its buffer; otherwise the idle, clean buffer released least recently is taken.
        A pinned buffer is never taken. */
    method Bget(d: nat, n: nat, ghost h: nat) returns (r: Outcome<nat>)
      requires Valid() && h !in holders
      modifies `bufs, `holders
      ensures r.Panic? ==> bufs == old(bufs) && holders == old(holders)
      ensures r.Panic? <==> (forall a :: 0 <= a < NBUF ==> !old(bufs)[a].Caches(d, n) && !old(bufs)[a].Idle())
      ensures r.Done? ==>
        Valid() && r.value < NBUF && holders == old(holders)[h := r.value] && bufs[r.value].Caches(d, n)
      ensures r.Done? && (exists a :: 0 <= a < NBUF && old(bufs)[a].Caches(d, n)) ==>
        bufs == old(bufs)[r.value := old(bufs)[r.value].(refcnt := old(bufs)[r.value].refcnt + 1)]
      ensures r.Done? && (forall a :: 0 <= a < NBUF ==> !old(bufs)[a].Caches(d, n)) ==>
        && old(bufs)[r.value].Idle()
        && (forall a :: 0 <= a < NBUF && old(bufs)[a].Idle() ==> stamp[r.value] <= stamp[a])
        && bufs == old(bufs)[r.value := Buf(d, n, false, false, 1, false, old(bufs)[r.value].data)]
    {
      var b := Lookup(d, n);
      if b != HEAD {
        var buf := bufs[b].(refcnt := bufs[b].refcnt + 1);
        AddCounted(bufs, holders, owner, h, b, buf);
        ReplaceView(bufs, disk, latest, b, buf);
        bufs := bufs[b := buf];
        holders := holders[h := b];
        return Done(b);
      }
      b := Victim();
      if b == HEAD {
        return Panic;
      }
      IdleUnlocked(bufs, holders, owner, b);
      var buf := Buf(d, n, false, false, 1, bufs[b].locked, bufs[b].data);
      AddCounted(bufs, holders, owner, h, b, buf);
      ReplaceView(bufs, disk, latest, b, buf);
      bufs := bufs[b := buf];
      holders := holders[h := b];
      return Done(b);
    }

    /** acquiresleep on the buffer of a use: taken if free, otherwise the caller goes on sleeping. */
    method Lock(b: nat, ghost h: nat) returns (ok: bool)
      requires Valid() && h in holders && holders[h] == b
      modifies `bufs, `owner
      ensures Valid() && (ok <==> !old(bufs)[b].locked)
      ensures ok ==> owner == old(owner)[b := h] && bufs == old(bufs)[b := old(bufs)[b].(locked := true)]
      ensures !ok ==> owner == old(owner) && bufs == old(bufs)
    {
      if bufs[b].locked {
        return false;
      }
      LockCounted(bufs, holders, owner, h);
      ReplaceView(bufs, disk, latest, b, bufs[b].(locked := true));
      bufs := bufs[b := bufs[b].(locked := true)];
      owner := owner[b := h];
      return true;
    }

    /** The rest of bread, with the buffer locked: its data are the latest contents of the block. A
        buffer that was logged without being read goes to disk instead, as iderw has it. */
    method Fill(b: nat, ghost h: nat) returns (r: Outcome<()>)
      requires Valid() && b in owner && owner[b] == h && b < NBUF
      modifies `bufs, `disk
      ensures r.Panic? <==> !old(bufs)[b].valid && !OnDisk(old(bufs)[b], |old(disk)|)
      ensures r.Panic? ==> bufs == old(bufs) && disk == old(disk)
      ensures r.Done? ==> Valid() && old(bufs)[b].blockno < |latest| && |disk| == |old(disk)|
      ensures r.Done? ==> bufs[b].valid && bufs[b].data == latest[old(bufs)[b].blockno]
      ensures r.Done? ==>
        if !old(bufs)[b].valid && old(bufs)[b].dirty then
          && disk == old(disk)[old(bufs)[b].blockno := old(bufs)[b].data]
          && bufs == old(bufs)[b := old(bufs)[b].(valid := true, dirty := false)]
        else
          && disk == old(disk)
          && bufs == old(bufs)[b := old(bufs)[b].(valid := true, data := latest[old(bufs)[b].blockno])]
    {
      if !bufs[b].valid {
        if bufs[b].dev != ROOTDEV || bufs[b].blockno >= |disk| {
          return Panic;
        }
        if bufs[b].dirty {
          StoreView(bufs, disk, latest, b, bufs[b].data, true);
          assert latest[bufs[b].blockno := bufs[b].data] == latest;
          disk := disk[bufs[b].blockno := bufs[b].data];
          bufs := bufs[b := bufs[b].(dirty := false, valid := true)];
        } else {
          var buf := bufs[b].(data := disk[bufs[b].blockno], valid := true);
          UnpinnedOnDisk(bufs, disk, latest, b);
          ReplaceView(bufs, disk, latest, b, buf);
          bufs := bufs[b := buf];
        }
      }
      return Done(());
    }

    /** The holder changes the data and hands the buffer to log_write, which pins it. */
    method LogWrite(b: nat, data: Block, ghost h: nat)
      requires Valid() && b in owner && owner[b] == h && b < NBUF
      modifies `bufs, `latest
      ensures Valid() && latest == Newest(old(latest), old(bufs)[b], data)
      ensures bufs == old(bufs)[b := old(bufs)[b].(data := data, dirty := true)]
    {
      LogView(bufs, disk, latest, b, data);
      SameUse(bufs, holders, owner, b, Stored(bufs[b], data, false));
      latest := Newest(latest, bufs[b], data);
      bufs := bufs[b := bufs[b].(data := data, dirty := true)];
    }

    /** The holder changes the data and calls bwrite: the block goes to disk and the pin ends. It
        panics exactly on a buffer for no block of the disk. */
    method Bwrite(b: nat, data: Block, ghost h: nat) returns (r: Outcome<()>)
      requires Valid() && b in owner && owner[b] == h && b < NBUF
      modifies `bufs, `latest, `disk
      ensures r.Panic? <==> !OnDisk(old(bufs)[b], |old(disk)|)
      ensures r.Done? ==> Valid() && |old(latest)| == |old(disk)| && latest == old(latest)[old(bufs)[b].blockno := data]
      ensures r.Done? ==> disk == old(disk)[old(bufs)[b].blockno := data]
      ensures r.Done? ==> bufs == old(bufs)[b := old(bufs)[b].(data := data, dirty := false, valid := true)]
    {
      bufs := bufs[b := bufs[b].(data := data, dirty := true)];
      if bufs[b].dev != ROOTDEV || bufs[b].blockno >= |disk| {
        return Panic;
      }
      StoreView(old(bufs), disk, latest, b, data, true);
      latest := latest[bufs[b].blockno := data];
      disk := disk[bufs[b].blockno := bufs[b].data];
      bufs := bufs[b := bufs[b].(dirty := false, valid := true)];
      assert bufs == old(bufs)[b := old(bufs)[b].(data := data, dirty := false, valid := true)];
      return Done(());
    }

    /** releasesleep, the first half of brelse. */
    method Unlock(b: nat, ghost h: nat)
      requires Valid() && b in owner && owner[b] == h && b < NBUF
      modifies `bufs, `owner
      ensures Valid() && owner == old(owner) - {b} && bufs == old(bufs)[b := old(bufs)[b].(locked := false)]
    {
      UnlockCounted(bufs, holders, owner, b);
      ReplaceView(bufs, disk, latest, b, bufs[b].(locked := false));
      bufs := bufs[b := bufs[b].(locked := false)];
      owner := owner - {b};
    }

    /** The six link assignments of brelse: out of the list, then in behind the head. */
    method Relink(b: nat)
      requires CanMove(next, prev, HEAD, b)
      modifies `next, `prev
      ensures next == FrontNext(old(next), old(prev), HEAD, b) && prev == FrontPrev(old(next), old(prev), HEAD, b)
    {
      var after, before := next[b], prev[b];
      prev := prev[after := before];
      next := next[before := after];
      var first := next[HEAD];
      next := next[b := first];
      prev := prev[b := HEAD];
      prev := prev[first := b];
      next := next[HEAD := b];
    }

    /** Moves a buffer to the front of the list and stamps it. */
    method ToFront(b: nat)
      requires Valid() && b < NBUF
      modifies `next, `prev, `nodes, `clock, `stamp
      ensures Valid() && stamp == old(stamp)[b := clock] && clock == old(clock) + 1 && nodes[1] == b
    {
      ghost var moved := ReleaseLast(nodes, next, prev, stamp, b, clock + 1);
      Relink(b);
      nodes, clock, stamp := moved, clock + 1, stamp[b := clock + 1];
    }

    /** The second half of brelse: the last use of a buffer puts it at the front of the list. */
    method Drop(b: nat, ghost h: nat)
      requires Valid() && h in holders && holders[h] == b && (b in owner ==> owner[b] != h)
      modifies `bufs, `holders, `next, `prev, `nodes, `clock, `stamp
      ensures Valid() && holders == old(holders) - {h} && old(bufs)[b].refcnt > 0
      ensures bufs == old(bufs)[b := old(bufs)[b].(refcnt := old(bufs)[b].refcnt - 1)]
      ensures bufs[b].refcnt == 0 ==> stamp == old(stamp)[b := clock] && clock == old(clock) + 1 && nodes[1] == b
      ensures bufs[b].refcnt > 0 ==> nodes == old(nodes) && stamp == old(stamp)
    {
      DropCounted(bufs, holders, owner, h);
      var buf := bufs[b].(refcnt := bufs[b].refcnt - 1);
      ReplaceView(bufs, disk, latest, b, buf);
      bufs := bufs[b := buf];
      holders := holders - {h};
      if bufs[b].refcnt == 0 {
        ToFront(b);
      }
    }
  }
}
