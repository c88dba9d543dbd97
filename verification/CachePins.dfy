/** Blocks pinned in the thirty buffers of bio.c, and what reading, logging and writing a block needs of them. */
module CachePins {
  import opened Common
  import opened Blocks
  import opened CacheView
  import opened CacheCode
  import opened LogModel

  /** Exactly the blocks in p are pinned, by buffers that have been read. */
  ghost predicate Pins(bufs: seq<Buf>, p: set<nat>) {
    && (forall a {:trigger PinOk(bufs[a], p)} :: 0 <= a < |bufs| ==> PinOk(bufs[a], p))
    && (forall n {:trigger Pinned(bufs, n)} :: n in p ==> Pinned(bufs, n))
  }

  ghost predicate PinOk(b: Buf, p: set<nat>) {
    b.dirty ==> b.valid && b.dev == ROOTDEV && b.blockno in p
  }

  /** The blocks that the first n buffers pin. */
  ghost function Held(bufs: seq<Buf>, n: nat): (r: seq<nat>)
    requires n <= |bufs|
    ensures |r| <= n && (|r| == n <==> forall a :: 0 <= a < n ==> bufs[a].dirty)
    ensures forall a :: 0 <= a < n && bufs[a].dirty ==> bufs[a].blockno in r
  {
    if n == 0 then [] else Held(bufs, n - 1) + if bufs[n - 1].dirty then [bufs[n - 1].blockno] else []
  }

  lemma {:induction false} HeldBy(bufs: seq<Buf>, n: nat, i: nat)
    requires n <= |bufs| && i < |Held(bufs, n)|
    ensures exists a :: 0 <= a < n && bufs[a].dirty && bufs[a].blockno == Held(bufs, n)[i]
  {
    if i < |Held(bufs, n - 1)| {
      HeldBy(bufs, n - 1, i);
    }
  }

  lemma {:induction false} HeldOnce(bufs: seq<Buf>, p: set<nat>, n: nat)
    requires Unique(bufs) && n <= |bufs| && forall a :: 0 <= a < |bufs| ==> PinOk(bufs[a], p)
    ensures Distinct(Held(bufs, n))
  {
    if n > 0 {
      HeldOnce(bufs, p, n - 1);
      var held := Held(bufs, n - 1);
      forall i | 0 <= i < |held| ensures bufs[n - 1].dirty ==> held[i] != bufs[n - 1].blockno {
        HeldBy(bufs, n - 1, i);
      }
    }
  }

  lemma HeldIs(bufs: seq<Buf>, p: set<nat>)
    requires Pins(bufs, p)
    ensures Members(Held(bufs, |bufs|)) == p
  {
    forall n | n in p ensures n in Held(bufs, |bufs|) {
      assert Pinned(bufs, n);
    }
    var held := Held(bufs, |bufs|);
    forall i | 0 <= i < |held| ensures held[i] in p {
      HeldBy(bufs, |bufs|, i);
      var a :| 0 <= a < |bufs| && bufs[a].dirty && bufs[a].blockno == held[i];
      assert PinOk(bufs[a], p);
    }
  }

  /** With nobody using a buffer, all of them are taken exactly if as many blocks are pinned. */
  lemma AllTaken(bufs: seq<Buf>, p: set<nat>)
    requires Unique(bufs) && Pins(bufs, p) && forall a :: 0 <= a < |bufs| ==> bufs[a].refcnt == 0
    ensures |p| <= |bufs|
    ensures |p| == |bufs| <==> forall a :: 0 <= a < |bufs| ==> !bufs[a].Idle()
  {
    HeldIs(bufs, p);
    HeldOnce(bufs, p, |bufs|);
    ListSize(Held(bufs, |bufs|));
  }

  /** There is no buffer for block n. */
  ghost predicate NoBuffer(bufs: seq<Buf>, n: nat) {
    forall a :: 0 <= a < |bufs| ==> !bufs[a].Caches(ROOTDEV, n) && !bufs[a].Idle()
  }

  /** With nobody using a buffer that is so exactly if all are pinned, for other blocks. */
  lemma NoBufferIff(bufs: seq<Buf>, p: set<nat>, n: nat)
    requires Unique(bufs) && Pins(bufs, p) && forall a :: 0 <= a < |bufs| ==> bufs[a].refcnt == 0
    ensures NoBuffer(bufs, n) <==> |p| == |bufs| && n !in p
  {
    AllTaken(bufs, p);
    if n in p {
      assert Pinned(bufs, n);
    } else if |p| == |bufs| {
      forall a | 0 <= a < |bufs| ensures !bufs[a].Caches(ROOTDEV, n) {
        assert PinOk(bufs[a], p);
      }
    }
  }

  /** A pinned block, or any block while nothing is pinned and one buffer is in use, has a buffer. */
  lemma SecondBuffer(bufs: seq<Buf>, p: set<nat>, t: nat, n: nat)
    requires Pins(bufs, p) && |bufs| == NBUF && (n in p || p == {})
    requires forall a :: 0 <= a < |bufs| && a != t ==> bufs[a].refcnt == 0
    ensures !NoBuffer(bufs, n)
  {
    if n in p {
      assert Pinned(bufs, n);
    } else {
      var a := if t == 0 then 1 else 0;
      assert PinOk(bufs[a], p);
      assert bufs[a].Idle();
    }
  }

  /** A buffer changes that does not pin, or still pins the same block. */
  lemma PinsReplace(bufs: seq<Buf>, p: set<nat>, b: nat, buf: Buf)
    requires Pins(bufs, p) && b < |bufs| && buf.dirty == bufs[b].dirty
    requires buf.dirty ==> (bufs[b].valid ==> buf.valid) && buf.Caches(bufs[b].dev, bufs[b].blockno)
    ensures Pins(bufs[b := buf], p)
  {
    var bufs' := bufs[b := buf];
    forall a | 0 <= a < |bufs'| ensures PinOk(bufs'[a], p) {
      assert PinOk(bufs[a], p);
    }
    forall n | n in p ensures Pinned(bufs', n) {
      assert Pinned(bufs, n);
      var a :| 0 <= a < |bufs| && bufs[a].dirty && bufs[a].Caches(ROOTDEV, n);
      assert bufs'[a].dirty && bufs'[a].Caches(ROOTDEV, n);
    }
  }

  /** bget: a reference to the buffer of the block, and its lock. */
  method Grab(bc: Cache, n: nat, ghost h: nat, ghost p: set<nat>) returns (r: Outcome<nat>)
    requires bc.Valid() && Pins(bc.bufs, p) && h !in bc.holders
    requires forall b :: b in bc.owner && b < NBUF ==> !bc.bufs[b].Caches(ROOTDEV, n)
    modifies bc`bufs, bc`holders, bc`owner
    ensures r.Panic? <==> NoBuffer(old(bc.bufs), n)
    ensures r.Done? ==> bc.Valid() && Pins(bc.bufs, p) && r.value < NBUF && bc.bufs[r.value].Caches(ROOTDEV, n)
    ensures r.Done? ==>
      && bc.holders == old(bc.holders)[h := r.value] && bc.owner == old(bc.owner)[r.value := h]
      && r.value !in old(bc.owner) && OthersSame(old(bc.bufs), bc.bufs, r.value)
  {
    r := bc.Bget(ROOTDEV, n, h);
    if r.Panic? {
      return;
    }
    var b := r.value;
    ghost var bufs1 := bc.bufs;
    assert bufs1 == old(bc.bufs)[b := bufs1[b]];
    PinsReplace(old(bc.bufs), p, b, bufs1[b]);
    assert !bufs1[b].locked;
    var ok := bc.Lock(b, h);
    PinsReplace(bufs1, p, b, bc.bufs[b]);
  }

  /** All buffers but b are the same. */
  ghost predicate OthersSame(bufs: seq<Buf>, bufs': seq<Buf>, b: nat) {
    |bufs'| == |bufs| && forall a :: 0 <= a < |bufs| && a != b ==> bufs'[a] == bufs[a]
  }

  /** bread: the buffer of the block, locked, with its latest contents. */
  method Bread(bc: Cache, n: nat, ghost h: nat, ghost p: set<nat>) returns (r: Outcome<nat>)
    requires bc.Valid() && Pins(bc.bufs, p) && h !in bc.holders && n < |bc.disk|
    requires forall b :: b in bc.owner && b < NBUF ==> !bc.bufs[b].Caches(ROOTDEV, n)
    modifies bc`bufs, bc`holders, bc`owner, bc`disk
    ensures r.Panic? <==> NoBuffer(old(bc.bufs), n)
    ensures r.Done? ==> bc.Valid() && Pins(bc.bufs, p) && bc.disk == old(bc.disk) && r.value < NBUF
    ensures r.Done? ==>
      && bc.holders == old(bc.holders)[h := r.value] && bc.owner == old(bc.owner)[r.value := h]
      && r.value !in old(bc.owner) && OthersSame(old(bc.bufs), bc.bufs, r.value)
    ensures r.Done? ==>
      && bc.bufs[r.value].Caches(ROOTDEV, n) && bc.bufs[r.value].valid && n < |bc.latest|
      && bc.bufs[r.value].data == bc.latest[n]
  {
    r := Grab(bc, n, h, p);
    if r.Panic? {
      return;
    }
    ghost var bufs1 := bc.bufs;
    assert PinOk(bufs1[r.value], p);
    var filled := bc.Fill(r.value, h);
    PinsReplace(bufs1, p, r.value, bc.bufs[r.value]);
  }

  /** brelse. */
  method Brelse(bc: Cache, b: nat, ghost h: nat, ghost p: set<nat>)
    requires bc.Valid() && Pins(bc.bufs, p) && b < NBUF && b in bc.owner && bc.owner[b] == h
    modifies bc`bufs, bc`holders, bc`owner, bc`next, bc`prev, bc`nodes, bc`clock, bc`stamp
    ensures bc.Valid() && Pins(bc.bufs, p) && bc.holders == old(bc.holders) - {h} && bc.owner == old(bc.owner) - {b}
    ensures OthersSame(old(bc.bufs), bc.bufs, b)
  {
    ghost var bufs0 := bc.bufs;
    bc.Unlock(b, h);
    PinsReplace(bufs0, p, b, bc.bufs[b]);
    ghost var bufs1 := bc.bufs;
    bc.Drop(b, h);
    PinsReplace(bufs1, p, b, bc.bufs[b]);
  }

  /** A buffer written through pins its block no longer. */
  lemma PinsWritten(bufs: seq<Buf>, p: set<nat>, b: nat, buf: Buf)
    requires Pins(bufs, p) && Unique(bufs) && b < |bufs| && bufs[b].dev == ROOTDEV && !buf.dirty
    ensures Pins(bufs[b := buf], p - {bufs[b].blockno})
  {
    var bufs', q := bufs[b := buf], p - {bufs[b].blockno};
    forall a | 0 <= a < |bufs'| ensures PinOk(bufs'[a], q) {
      assert PinOk(bufs[a], p);
      assert a < b ==> bufs[a].dev == ROOTDEV ==> bufs[a].blockno != bufs[b].blockno;
      assert b < a ==> bufs[a].dev == ROOTDEV ==> bufs[a].blockno != bufs[b].blockno;
    }
    forall n | n in q ensures Pinned(bufs', n) {
      assert Pinned(bufs, n);
      var a :| 0 <= a < |bufs| && bufs[a].dirty && bufs[a].Caches(ROOTDEV, n);
      assert bufs'[a].dirty && bufs'[a].Caches(ROOTDEV, n);
    }
  }

  /** A buffer logged pins its block. */
  lemma PinsLogged(bufs: seq<Buf>, p: set<nat>, b: nat, buf: Buf)
    requires Pins(bufs, p) && b < |bufs| && bufs[b].dev == ROOTDEV
    requires buf.dirty && buf.valid && buf.Caches(ROOTDEV, bufs[b].blockno)
    ensures Pins(bufs[b := buf], p + {bufs[b].blockno})
  {
    var bufs', q := bufs[b := buf], p + {bufs[b].blockno};
    forall a | 0 <= a < |bufs'| ensures PinOk(bufs'[a], q) {
      assert PinOk(bufs[a], p);
    }
    forall n | n in q ensures Pinned(bufs', n) {
      if n == bufs[b].blockno {
        assert bufs'[b].dirty && bufs'[b].Caches(ROOTDEV, n);
      } else {
        assert Pinned(bufs, n);
        var a :| 0 <= a < |bufs| && bufs[a].dirty && bufs[a].Caches(ROOTDEV, n);
        assert bufs'[a].dirty && bufs'[a].Caches(ROOTDEV, n);
      }
    }
  }

  /** Nobody uses a buffer, and the blocks in p are pinned. */
  ghost predicate Quiet(bc: Cache, p: set<nat>)
    reads bc
  {
    bc.Valid() && bc.holders == map[] && bc.owner == map[] && Pins(bc.bufs, p)
  }

  lemma QuietCounts(bc: Cache, p: set<nat>, n: nat)
    requires Quiet(bc, p)
    ensures (forall a :: 0 <= a < NBUF ==> bc.bufs[a].refcnt == 0)
    ensures NoBuffer(bc.bufs, n) <==> |p| == NBUF && n !in p
  {
    assert forall a :: Refs(map[], a) == {};
    NoBufferIff(bc.bufs, p, n);
  }

  /** bread and brelse: the contents of a block. There is a buffer for it unless all are pinned for others. */
  method ReadBlock(bc: Cache, n: nat, ghost p: set<nat>) returns (r: Outcome<Block>)
    requires Quiet(bc, p) && n < |bc.disk|
    modifies bc
    ensures r.Panic? <==> |p| == NBUF && n !in p
    ensures r.Done? ==>
      && Quiet(bc, p) && bc.disk == old(bc.disk) && bc.latest == old(bc.latest)
      && n < |bc.latest| && r.value == bc.latest[n]
  {
    QuietCounts(bc, p, n);
    var b := Bread(bc, n, 0, p);
    if b.Panic? {
      return Panic;
    }
    r := Done(bc.bufs[b.value].data);
    Brelse(bc, b.value, 0, p);
  }

  /** bread, a change of the data, log_write and brelse: the block is pinned. */
  method PinBlock(bc: Cache, n: nat, data: Block, ghost p: set<nat>) returns (r: Outcome<()>)
    requires Quiet(bc, p) && n < |bc.disk|
    modifies bc
    ensures r.Panic? <==> |p| == NBUF && n !in p
    ensures r.Done? ==>
      && Quiet(bc, p + {n}) && bc.disk == old(bc.disk) && |old(bc.latest)| == |bc.disk|
      && bc.latest == old(bc.latest)[n := data]
  {
    QuietCounts(bc, p, n);
    var b := Bread(bc, n, 0, p);
    if b.Panic? {
      return Panic;
    }
    PinsLogged(bc.bufs, p, b.value, bc.bufs[b.value].(data := data, dirty := true));
    bc.LogWrite(b.value, data, 0);
    Brelse(bc, b.value, 0, p + {n});
    return Done(());
  }

  /** write_head: the header goes to disk. */
  method WriteHeader(bc: Cache, start: nat, lh: seq<nat>, ghost p: set<nat>) returns (r: Outcome<()>)
    requires Quiet(bc, p) && start < |bc.disk| && Entries(lh)
    modifies bc
    ensures r.Panic? <==> |p| == NBUF && start !in p
    ensures r.Done? ==> |old(bc.latest)| == |old(bc.disk)| && var head := PutHeader(old(bc.latest)[start], lh, |lh|);
      && Quiet(bc, p - {start})
      && bc.disk == old(bc.disk)[start := head] && bc.latest == old(bc.latest)[start := head]
  {
    QuietCounts(bc, p, start);
    var b := Bread(bc, start, 0, p);
    if b.Panic? {
      return Panic;
    }
    var head := PutHeader(bc.bufs[b.value].data, lh, |lh|);
    PinsWritten(bc.bufs, p, b.value, bc.bufs[b.value].(data := head, dirty := false, valid := true));
    var w := bc.Bwrite(b.value, head, 0);
    Brelse(bc, b.value, 0, p - {start});
    return Done(());
  }

  /** Use h has the locked buffer b, filled, for block n. */
  ghost predicate Holds(bc: Cache, b: nat, h: nat, n: nat)
    reads bc
  {
    && bc.Valid() && b < NBUF && b in bc.owner && bc.owner[b] == h && n < |bc.latest| == |bc.disk|
    && bc.bufs[b].Caches(ROOTDEV, n) && bc.bufs[b].valid && bc.bufs[b].data == bc.latest[n]
  }

  /** The two reads of a turn of write_log or of install_trans. */
  method ReadBoth(bc: Cache, slot: nat, home: nat, ghost p: set<nat>) returns (r: Outcome<(nat, nat)>)
    requires Quiet(bc, p) && slot < |bc.disk| && home < |bc.disk| && slot != home
    requires slot !in p && (home in p || p == {})
    modifies bc`bufs, bc`holders, bc`owner, bc`disk
    ensures r.Panic? <==> |p| == NBUF
    ensures r.Done? ==>
      && r.value.0 != r.value.1 && Holds(bc, r.value.0, 0, slot) && Holds(bc, r.value.1, 1, home) && Pins(bc.bufs, p)
      && bc.holders == map[0 := r.value.0, 1 := r.value.1] && bc.owner == map[r.value.0 := 0, r.value.1 := 1]
      && bc.disk == old(bc.disk)
  {
    QuietCounts(bc, p, slot);
    var s := Bread(bc, slot, 0, p);
    if s.Panic? {
      return Panic;
    }
    SecondBuffer(bc.bufs, p, s.value, home);
    var d := Bread(bc, home, 1, p);
    return Done((s.value, d.value));
  }

  /** bwrite of the one, brelse of both. */
  method WriteOne(bc: Cache, s: nat, d: nat, to: nat, data: Block, ghost slot: nat, ghost home: nat, ghost p: set<nat>)
    requires s != d && Holds(bc, s, 0, slot) && Holds(bc, d, 1, home) && Pins(bc.bufs, p) && (to == s || to == d)
    requires bc.holders == map[0 := s, 1 := d] && bc.owner == map[s := 0, d := 1]
    modifies bc
    ensures var n := if to == s then slot else home;
      && Quiet(bc, p - {n}) && bc.disk == old(bc.disk)[n := data] && bc.latest == old(bc.latest)[n := data]
  {
    ghost var n := if to == s then slot else home;
    PinsWritten(bc.bufs, p, to, bc.bufs[to].(data := data, dirty := false, valid := true));
    var w := bc.Bwrite(to, data, if to == s then 0 else 1);
    Brelse(bc, d, 1, p - {n});
    Brelse(bc, s, 0, p - {n});
  }

  /** One turn of write_log (toLog) or of install_trans: the slot and the home block are read, one is
      copied over the other and written. */
  method CopyBlock(bc: Cache, slot: nat, home: nat, toLog: bool, ghost p: set<nat>) returns (r: Outcome<()>)
    requires Quiet(bc, p) && slot < |bc.disk| && home < |bc.disk| && slot != home
    requires slot !in p && (home in p || p == {})
    requires |bc.latest| == |bc.disk|
    modifies bc
    ensures r.Panic? <==> |p| == NBUF
    ensures r.Done? ==> var from, to := if toLog then home else slot, if toLog then slot else home;
      && Quiet(bc, p - {to})
      && bc.disk == old(bc.disk)[to := old(bc.latest)[from]] && bc.latest == old(bc.latest)[to := old(bc.latest)[from]]
  {
    var both := ReadBoth(bc, slot, home, p);
    if both.Panic? {
      return Panic;
    }
    var (s, d) := both.value;
    if toLog {
      WriteOne(bc, s, d, s, bc.bufs[d].data, slot, home, p);
    } else {
      WriteOne(bc, s, d, d, bc.bufs[s].data, slot, home, p);
    }
    return Done(());
  }

  /** A cache that nobody has used yet. */
  lemma NothingPinned(bc: Cache)
    requires bc.Valid() && bc.holders == map[] && bc.owner == map[]
    requires forall b :: 0 <= b < NBUF ==> bc.bufs[b].Idle()
    ensures Quiet(bc, {})
  {
  }
}
