/** What the buffers of the cache show of the disk, and who uses them. */
module CacheView {
  import opened Common
  import opened Blocks
  import opened CacheRing

  const HEAD: nat := 30            // the list head, after the buffers
  const ROOTDEV: nat := 1

  datatype Buf = Buf(dev: nat, blockno: nat, valid: bool, dirty: bool, refcnt: nat, locked: bool, data: Block) {
    predicate Caches(d: nat, n: nat) { dev == d && blockno == n }
    predicate Idle() { refcnt == 0 && !dirty }
  }

  /** At most one buffer per block of a real device. */
  ghost predicate Unique(bufs: seq<Buf>) {
    forall a, b {:trigger bufs[a], bufs[b]} :: 0 <= a < b < |bufs| && bufs[a].dev != 0 ==>
      !bufs[b].Caches(bufs[a].dev, bufs[a].blockno)
  }

  /** The buffer is for a block that the disk has. */
  predicate OnDisk(b: Buf, n: nat) {
    b.dev == ROOTDEV && b.blockno < n
  }

  /** A buffer that was filled is for a block of the disk, and one that was filled or logged shows
      the latest contents of its block. */
  ghost predicate BufOk(b: Buf, latest: seq<Block>) {
    && (b.valid ==> OnDisk(b, |latest|))
    && ((b.valid || b.dirty) && OnDisk(b, |latest|) ==> b.data == latest[b.blockno])
  }

  /** Some buffer holds contents of block n that are not on disk yet. */
  ghost predicate Pinned(bufs: seq<Buf>, n: nat) {
    exists a :: 0 <= a < |bufs| && bufs[a].dirty && bufs[a].Caches(ROOTDEV, n)
  }

  /** Buffers show the latest contents of their blocks, and so does the disk wherever no buffer
      is pinned. */
  ghost predicate View(bufs: seq<Buf>, disk: seq<Block>, latest: seq<Block>) {
    && |disk| == |latest|
    && (forall a :: 0 <= a < |bufs| ==> BufOk(bufs[a], latest))
    && (forall n :: 0 <= n < |disk| ==> disk[n] == latest[n] || Pinned(bufs, n))
  }

  /** The uses of buffer b. */
  function Refs(holders: map<nat, nat>, b: nat): (r: set<nat>) {
    set h | h in holders && holders[h] == b
  }

  /** Reference counts count the uses, and a lock is held by one of them. */
  ghost predicate Counted(bufs: seq<Buf>, holders: map<nat, nat>, owner: map<nat, nat>) {
    && (forall h :: h in holders ==> holders[h] < |bufs|)
    && (forall b :: 0 <= b < |bufs| ==> bufs[b].refcnt == |Refs(holders, b)|)
    && (forall b :: 0 <= b < |bufs| ==> (bufs[b].locked <==> b in owner))
    && (forall b :: b in owner ==> owner[b] in holders && holders[owner[b]] == b)
  }

  /** The list runs from the most recently released buffer to the least recently released one. */
  ghost predicate ByRelease(nodes: seq<nat>, stamp: seq<nat>) {
    forall i, j {:trigger nodes[i], nodes[j]} :: 1 <= i < j < |nodes| && nodes[i] < |stamp| && nodes[j] < |stamp| ==>
      stamp[nodes[i]] > stamp[nodes[j]] || stamp[nodes[i]] == stamp[nodes[j]] == 0
  }

  /** The list holds every buffer once, behind the head. */
  ghost predicate Complete(nodes: seq<nat>) {
    && |nodes| == NBUF + 1 && nodes[0] == HEAD && Distinct(nodes)
    && (forall i :: 1 <= i < |nodes| ==> nodes[i] < NBUF)
    && (forall b :: 0 <= b < NBUF ==> b in nodes)
  }

  // ----- steps on values -----

  lemma RefsAdd(holders: map<nat, nat>, h: nat, b: nat)
    requires h !in holders
    ensures Refs(holders[h := b], b) == Refs(holders, b) + {h} && |Refs(holders[h := b], b)| == |Refs(holders, b)| + 1
    ensures forall c :: c != b ==> Refs(holders[h := b], c) == Refs(holders, c)
  {
  }

  lemma RefsDrop(holders: map<nat, nat>, h: nat)
    requires h in holders
    ensures |Refs(holders - {h}, holders[h])| == |Refs(holders, holders[h])| - 1
    ensures forall c :: c != holders[h] ==> Refs(holders - {h}, c) == Refs(holders, c)
  {
    assert Refs(holders, holders[h]) == Refs(holders - {h}, holders[h]) + {h};
  }

  lemma AddCounted(bufs: seq<Buf>, holders: map<nat, nat>, owner: map<nat, nat>, h: nat, b: nat, buf: Buf)
    requires Counted(bufs, holders, owner) && h !in holders && b < |bufs|
    requires buf.refcnt == bufs[b].refcnt + 1 && buf.locked == bufs[b].locked
    ensures Counted(bufs[b := buf], holders[h := b], owner)
  {
    RefsAdd(holders, h, b);
  }

  /** A buffer that nobody uses is not locked. */
  lemma IdleUnlocked(bufs: seq<Buf>, holders: map<nat, nat>, owner: map<nat, nat>, b: nat)
    requires Counted(bufs, holders, owner) && b < |bufs| && bufs[b].refcnt == 0
    ensures !bufs[b].locked
  {
    assert b in owner ==> owner[b] in Refs(holders, b);
  }

  /** Changing a buffer that is not pinned, without changing what it shows, keeps the view. */
  lemma ReplaceView(bufs: seq<Buf>, disk: seq<Block>, latest: seq<Block>, b: nat, buf: Buf)
    requires View(bufs, disk, latest) && b < |bufs| && BufOk(buf, latest)
    requires bufs[b].dirty ==> buf.dirty && buf.dev == bufs[b].dev && buf.blockno == bufs[b].blockno
    ensures View(bufs[b := buf], disk, latest)
  {
    var bufs' := bufs[b := buf];
    forall n | 0 <= n < |disk| && disk[n] != latest[n] ensures Pinned(bufs', n) {
      var a :| 0 <= a < |bufs| && bufs[a].dirty && bufs[a].Caches(ROOTDEV, n);
      assert bufs'[a].dirty && bufs'[a].Caches(ROOTDEV, n);
    }
  }

  /** A block whose only buffer is not pinned is up to date on disk. */
  lemma UnpinnedOnDisk(bufs: seq<Buf>, disk: seq<Block>, latest: seq<Block>, b: nat)
    requires View(bufs, disk, latest) && Unique(bufs) && b < |bufs| && !bufs[b].dirty && bufs[b].dev == ROOTDEV
    requires bufs[b].blockno < |disk|
    ensures disk[bufs[b].blockno] == latest[bufs[b].blockno]
  {
    forall a | 0 <= a < |bufs| && bufs[a].dirty ensures !bufs[a].Caches(ROOTDEV, bufs[b].blockno) {
      assert a < b ==> !bufs[b].Caches(bufs[a].dev, bufs[a].blockno);
    }
  }

  /** A buffer with new data: pinned, or written through. */
  function Stored(b: Buf, data: Block, through: bool): Buf {
    if through then b.(data := data, dirty := false, valid := true) else b.(data := data, dirty := true)
  }

  /** New contents for the block of buffer b: pinned in the cache, or written through. */
  lemma StoreView(bufs: seq<Buf>, disk: seq<Block>, latest: seq<Block>, b: nat, data: Block, through: bool)
    requires View(bufs, disk, latest) && Unique(bufs) && b < |bufs| && OnDisk(bufs[b], |disk|)
    ensures View(bufs[b := Stored(bufs[b], data, through)],
                 if through then disk[bufs[b].blockno := data] else disk, latest[bufs[b].blockno := data])
  {
    var n := bufs[b].blockno;
    var bufs' := bufs[b := Stored(bufs[b], data, through)];
    var disk', latest' := if through then disk[n := data] else disk, latest[n := data];
    forall a | 0 <= a < |bufs| ensures BufOk(bufs'[a], latest') {
      assert BufOk(bufs[a], latest);
      if a < b {
        assert !bufs[b].Caches(bufs[a].dev, bufs[a].blockno) || bufs[a].dev == 0;
      } else if b < a {
        assert !bufs[a].Caches(bufs[b].dev, bufs[b].blockno);
      }
    }
    forall m | 0 <= m < |disk'| && disk'[m] != latest'[m] ensures Pinned(bufs', m) {
      if m == n {
        assert bufs'[b].dirty && bufs'[b].Caches(ROOTDEV, m);
      } else {
        var a :| 0 <= a < |bufs| && bufs[a].dirty && bufs[a].Caches(ROOTDEV, m);
        assert bufs'[a].dirty && bufs'[a].Caches(ROOTDEV, m);
      }
    }
  }

  /** The latest contents once the block of buffer b has new ones; a buffer for no block of the disk
      changes none. */
  function Newest(latest: seq<Block>, b: Buf, data: Block): seq<Block> {
    if OnDisk(b, |latest|) then latest[b.blockno := data] else latest
  }

  /** log_write, whatever the buffer: it keeps the view and pins. */
  lemma LogView(bufs: seq<Buf>, disk: seq<Block>, latest: seq<Block>, b: nat, data: Block)
    requires View(bufs, disk, latest) && Unique(bufs) && b < |bufs|
    ensures View(bufs[b := Stored(bufs[b], data, false)], disk, Newest(latest, bufs[b], data))
  {
    if OnDisk(bufs[b], |disk|) {
      StoreView(bufs, disk, latest, b, data, false);
    } else {
      ReplaceView(bufs, disk, latest, b, Stored(bufs[b], data, false));
    }
  }

  /** New data, and other flags, matter neither to uniqueness nor to the counts. */
  lemma SameUse(bufs: seq<Buf>, holders: map<nat, nat>, owner: map<nat, nat>, b: nat, buf: Buf)
    requires Unique(bufs) && Counted(bufs, holders, owner) && b < |bufs|
    requires buf.dev == bufs[b].dev && buf.blockno == bufs[b].blockno
    requires buf.refcnt == bufs[b].refcnt && buf.locked == bufs[b].locked
    ensures Unique(bufs[b := buf]) && Counted(bufs[b := buf], holders, owner)
  {
  }

  lemma LockCounted(bufs: seq<Buf>, holders: map<nat, nat>, owner: map<nat, nat>, h: nat)
    requires Counted(bufs, holders, owner) && h in holders && !bufs[holders[h]].locked
    ensures Counted(bufs[holders[h] := bufs[holders[h]].(locked := true)], holders, owner[holders[h] := h])
  {
  }

  lemma UnlockCounted(bufs: seq<Buf>, holders: map<nat, nat>, owner: map<nat, nat>, b: nat)
    requires Counted(bufs, holders, owner) && b < |bufs| && b in owner
    ensures Counted(bufs[b := bufs[b].(locked := false)], holders, owner - {b})
  {
  }

  lemma DropCounted(bufs: seq<Buf>, holders: map<nat, nat>, owner: map<nat, nat>, h: nat)
    requires Counted(bufs, holders, owner) && h in holders
    requires forall b :: b in owner ==> owner[b] != h
    ensures bufs[holders[h]].refcnt > 0
    ensures Counted(bufs[holders[h] := bufs[holders[h]].(refcnt := bufs[holders[h]].refcnt - 1)], holders - {h}, owner)
  {
    assert h in Refs(holders, holders[h]);
    RefsDrop(holders, h);
  }

  /** Where each position of the list comes from when position i moves to the front. */
  function From(i: nat, k: nat): (j: nat)
    requires i > 0
  {
    if k == 0 then 0 else if k == 1 then i else if k <= i then k - 1 else k
  }

  lemma MovedAt(nodes: seq<nat>, i: nat, k: nat)
    requires 0 < i < |nodes| && k < |nodes|
    ensures |MovedFront(nodes, i)| == |nodes| && From(i, k) < |nodes| && MovedFront(nodes, i)[k] == nodes[From(i, k)]
  {
  }

  /** The list with one buffer moved to the front still holds every buffer once. */
  lemma MovedComplete(nodes: seq<nat>, i: nat)
    requires Complete(nodes) && 0 < i < |nodes|
    ensures Complete(MovedFront(nodes, i))
  {
    var r := MovedFront(nodes, i);
    forall k | 1 <= k < |r| ensures r[k] < NBUF {
      MovedAt(nodes, i, k);
    }
    forall j, k | 0 <= j < k < |r| ensures r[j] != r[k] {
      MovedAt(nodes, i, j);
      MovedAt(nodes, i, k);
    }
    forall b | 0 <= b < NBUF ensures b in r {
      assert b in nodes;
      var k :| 0 <= k < |nodes| && nodes[k] == b;
      var k' := if k == i then 1 else if 1 <= k < i then k + 1 else k;
      MovedAt(nodes, i, k');
      assert r[k'] == b;
    }
  }

  /** It is in the order of release once that buffer has the newest stamp. */
  lemma MovedByRelease(nodes: seq<nat>, stamp: seq<nat>, i: nat, now: nat)
    requires Complete(nodes) && |stamp| == NBUF && ByRelease(nodes, stamp) && 0 < i < |nodes|
    requires forall b :: 0 <= b < NBUF ==> stamp[b] < now
    ensures ByRelease(MovedFront(nodes, i), stamp[nodes[i] := now])
  {
    var r, stamp' := MovedFront(nodes, i), stamp[nodes[i] := now];
    forall j, k | 1 <= j < k < |r| ensures stamp'[r[j]] > stamp'[r[k]] || stamp'[r[j]] == stamp'[r[k]] == 0 {
      MovedAt(nodes, i, j);
      MovedAt(nodes, i, k);
    }
  }

  /** Moving buffer b to the front and stamping it: the new list. */
  lemma ReleaseLast(nodes: seq<nat>, next: seq<nat>, prev: seq<nat>, stamp: seq<nat>, b: nat, now: nat)
    returns (moved: seq<nat>)
    requires Complete(nodes) && Ring(nodes, next, prev) && |stamp| == NBUF && ByRelease(nodes, stamp) && b < NBUF
    requires forall c :: 0 <= c < NBUF ==> stamp[c] < now
    ensures CanMove(next, prev, HEAD, b) && Ring(moved, FrontNext(next, prev, HEAD, b), FrontPrev(next, prev, HEAD, b))
    ensures Complete(moved) && ByRelease(moved, stamp[b := now]) && moved[1] == b
  {
    assert b in nodes;
    var i :| 0 <= i < |nodes| && nodes[i] == b;
    moved := MovedFront(nodes, i);
    MoveFront(nodes, next, prev, i);
    MovedComplete(nodes, i);
    MovedByRelease(nodes, stamp, i, now);
    MovedAt(nodes, i, 1);
  }
}
