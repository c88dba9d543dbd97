/** How the headers in memory represent the free list, and how free and live blocks share
    the units obtained from the system. */
module HeapLinks {
  import opened Common
  import opened HeapModel

  /** The address that the header of block i points to: the next block, or the first. */
  function NextAddr(fs: seq<Blk>, i: nat): (a: nat)
    requires i < |fs|
  {
    if i + 1 < |fs| then fs[i + 1].addr else fs[0].addr
  }

  /** How many steps along the ring lead from position i to position j. */
  function Dist(i: nat, j: nat, n: nat): (d: int)
    requires i < n && j < n
  {
    if j >= i then j - i else n - i + j
  }

  ghost predicate NodeOk(fs: seq<Blk>, ptr: map<nat, nat>, size: map<nat, nat>, i: nat)
    requires i < |fs|
  {
    var a := fs[i].addr;
    a in ptr && a in size && size[a] == fs[i].size && ptr[a] == NextAddr(fs, i)
  }

  /** The headers in memory form the ring of these blocks. */
  ghost predicate Linked(fs: seq<Blk>, ptr: map<nat, nat>, size: map<nat, nat>) {
    forall i {:trigger NodeOk(fs, ptr, size, i)} :: 0 <= i < |fs| ==> NodeOk(fs, ptr, size, i)
  }

  ghost predicate Apart(fs: seq<Blk>) {
    forall i, j :: 0 <= i < j < |fs| ==> fs[i].addr != fs[j].addr
  }

  ghost predicate Absent(fs: seq<Blk>, a: nat) {
    forall i :: 0 <= i < |fs| ==> fs[i].addr != a
  }

  lemma OrderedApart(fs: seq<Blk>)
    requires GapsBut(fs, -1, -1)
    ensures Apart(fs)
  {
    forall i, j | 0 <= i < j < |fs| ensures fs[i].addr != fs[j].addr {
      Far(fs, i, j);
    }
  }

  lemma LinkPut(fs: seq<Blk>, ptr: map<nat, nat>, size: map<nat, nat>, t: nat, b: Blk)
    requires Linked(fs, ptr, size) && Apart(fs) && Absent(fs, b.addr) && t < |fs|
    requires b.addr in size && size[b.addr] == b.size
    ensures Linked(PutAfter(fs, t, b), ptr[b.addr := NextAddr(fs, t)][fs[t].addr := b.addr], size)
    ensures Apart(PutAfter(fs, t, b))
  {
    var r, ptr' := PutAfter(fs, t, b), ptr[b.addr := NextAddr(fs, t)][fs[t].addr := b.addr];
    forall i | 0 <= i < |r| ensures NodeOk(r, ptr', size, i) {
      if i <= t {
        assert NodeOk(fs, ptr, size, i) && r[i] == fs[i];
      } else if i > t + 1 {
        assert NodeOk(fs, ptr, size, i - 1) && r[i] == fs[i - 1];
      }
    }
  }

  lemma LinkMerge(fs: seq<Blk>, ptr: map<nat, nat>, size: map<nat, nat>, i: nat)
    requires Linked(fs, ptr, size) && Apart(fs) && i + 1 < |fs|
    ensures fs[i].addr in size && fs[i + 1].addr in size && fs[i + 1].addr in ptr
    ensures Linked(Merge(fs, i), ptr[fs[i].addr := ptr[fs[i + 1].addr]],
                   size[fs[i].addr := size[fs[i].addr] + size[fs[i + 1].addr]])
    ensures Apart(Merge(fs, i))
  {
    assert NodeOk(fs, ptr, size, i) && NodeOk(fs, ptr, size, i + 1);
    var r := Merge(fs, i);
    var ptr', size' := ptr[fs[i].addr := ptr[fs[i + 1].addr]],
        size[fs[i].addr := size[fs[i].addr] + size[fs[i + 1].addr]];
    forall k | 0 <= k < |r| ensures NodeOk(r, ptr', size', k) {
      if k < i {
        assert NodeOk(fs, ptr, size, k) && r[k] == fs[k];
      } else if k > i {
        assert NodeOk(fs, ptr, size, k + 1) && r[k] == fs[k + 1];
      }
    }
  }

  /** The headers after free has linked the block at bp in behind the one at p. */
  function FreedSizes(size: map<nat, nat>, ptr: map<nat, nat>, p: nat, bp: nat): (r: map<nat, nat>)
    requires p in ptr && p in size && bp in size && ptr[p] in size && ptr[p] in ptr
  {
    var next := ptr[p];
    var size1 := if bp + size[bp] == next then size[bp := size[bp] + size[next]] else size;
    if p + size1[p] == bp then size1[p := size1[p] + size1[bp]] else size1
  }

  function FreedLinks(size: map<nat, nat>, ptr: map<nat, nat>, p: nat, bp: nat): (r: map<nat, nat>)
    requires p in ptr && p in size && bp in size && ptr[p] in size && ptr[p] in ptr && p != bp
  {
    var next := ptr[p];
    var ptr1 := ptr[bp := if bp + size[bp] == next then ptr[next] else next][p := bp];
    if p + size[p] == bp then ptr1[p := ptr1[bp]] else ptr1
  }

  /** Where the block lands, and when it touches the next one. */
  lemma PutTouches(fs: seq<Blk>, t: nat, b: Blk)
    requires Ordered(fs) && FitsAfter(fs, t, b)
    ensures var s0 := PutAfter(fs, t, b);
      && |s0| == |fs| + 1 && s0[t] == fs[t] && s0[t + 1] == b
      && (t + 2 < |s0| ==> s0[t + 2].addr == NextAddr(fs, t))
      && (t + 2 < |s0| && Touch(s0, t + 1) <==> b.addr + b.size == NextAddr(fs, t))
  {
    Far2(fs, 0, t);
  }

  lemma LinkNext(fs: seq<Blk>, ptr: map<nat, nat>, size: map<nat, nat>, t: nat, b: Blk)
    requires Ordered(fs) && Linked(fs, ptr, size) && FitsAfter(fs, t, b) && Absent(fs, b.addr)
    requires b.addr in size && size[b.addr] == b.size
    ensures var next := NextAddr(fs, t);
      && fs[t].addr in size && next in size && next in ptr && var joins := b.addr + b.size == next;
      var s1 := MergeIfTouching(PutAfter(fs, t, b), t + 1);
      && Linked(s1, ptr[b.addr := if joins then ptr[next] else next][fs[t].addr := b.addr],
                if joins then size[b.addr := b.size + size[next]] else size)
      && Apart(s1) && s1[t] == fs[t] && |s1| > t + 1 && s1[t + 1].addr == b.addr
  {
    var p, next := fs[t].addr, NextAddr(fs, t);
    assert NodeOk(fs, ptr, size, t) && NodeOk(fs, ptr, size, if t + 1 < |fs| then t + 1 else 0);
    OrderedApart(fs);
    PutTouches(fs, t, b);
    var s0, ptr0 := PutAfter(fs, t, b), ptr[b.addr := next][p := b.addr];
    LinkPut(fs, ptr, size, t, b);
    if b.addr + b.size == next {
      LinkMerge(s0, ptr0, size, t + 1);
      var after: nat := ptr[next];
      assert ptr0[b.addr := after] == ptr[b.addr := after][p := b.addr];
    }
  }

  /** They are the headers of the list with the block inserted. */
  lemma FreedLinked(fs: seq<Blk>, ptr: map<nat, nat>, size: map<nat, nat>, t: nat, b: Blk)
    requires Ordered(fs) && Linked(fs, ptr, size) && FitsAfter(fs, t, b) && Absent(fs, b.addr)
    requires b.addr in size && size[b.addr] == b.size
    ensures var p := fs[t].addr;
      && p in ptr && p in size && ptr[p] in size && ptr[p] in ptr
      && Linked(Insert(fs, t, b), FreedLinks(size, ptr, p, b.addr), FreedSizes(size, ptr, p, b.addr))
  {
    LinkNext(fs, ptr, size, t, b);
    assert NodeOk(fs, ptr, size, t);
    var p, next := fs[t].addr, NextAddr(fs, t);
    var joins := b.addr + b.size == next;
    var ptr1 := ptr[b.addr := if joins then ptr[next] else next][p := b.addr];
    var size1 := if joins then size[b.addr := b.size + size[next]] else size;
    LinkBefore(MergeIfTouching(PutAfter(fs, t, b), t + 1), ptr1, size1, t, p, b.addr);
  }

  /** The second merge of free. */
  lemma LinkBefore(s1: seq<Blk>, ptr1: map<nat, nat>, size1: map<nat, nat>, t: nat, p: nat, bp: nat)
    requires Linked(s1, ptr1, size1) && Apart(s1) && t + 1 < |s1| && s1[t].addr == p && s1[t + 1].addr == bp
    ensures p in ptr1 && p in size1 && bp in ptr1 && bp in size1
    ensures var joins := p + size1[p] == bp;
      Linked(MergeIfTouching(s1, t), if joins then ptr1[p := ptr1[bp]] else ptr1,
             if joins then size1[p := size1[p] + size1[bp]] else size1)
  {
    assert NodeOk(s1, ptr1, size1, t) && NodeOk(s1, ptr1, size1, t + 1);
    if p + size1[p] == bp {
      LinkMerge(s1, ptr1, size1, t);
    }
  }

  lemma LinkRemove(fs: seq<Blk>, ptr: map<nat, nat>, size: map<nat, nat>, i: nat)
    requires Linked(fs, ptr, size) && Apart(fs) && 1 <= i < |fs|
    ensures fs[i].addr in ptr
    ensures Linked(fs[..i] + fs[i + 1..], ptr[fs[i - 1].addr := ptr[fs[i].addr]], size)
  {
    assert NodeOk(fs, ptr, size, i) && NodeOk(fs, ptr, size, i - 1);
    var r, ptr' := fs[..i] + fs[i + 1..], ptr[fs[i - 1].addr := ptr[fs[i].addr]];
    forall k | 0 <= k < |r| ensures NodeOk(r, ptr', size, k) {
      if k < i {
        assert NodeOk(fs, ptr, size, k) && r[k] == fs[k];
      } else {
        assert NodeOk(fs, ptr, size, k + 1) && r[k] == fs[k + 1];
      }
    }
  }

  lemma LinkShrink(fs: seq<Blk>, ptr: map<nat, nat>, size: map<nat, nat>, i: nat, b: Blk, a: nat, n: nat)
    requires Linked(fs, ptr, size) && Apart(fs) && i < |fs| && b.addr == fs[i].addr && Absent(fs, a)
    ensures Linked(fs[i := b], ptr, size[b.addr := b.size][a := n])
  {
    var r, size' := fs[i := b], size[b.addr := b.size][a := n];
    forall k | 0 <= k < |r| ensures NodeOk(r, ptr, size', k) {
      assert NodeOk(fs, ptr, size, k);
    }
  }

  // ----- blocks handed out -----

  /** Live blocks are not empty, lie above the base and share no unit. */
  ghost predicate LiveOk(live: seq<Blk>) {
    && (forall i :: 0 <= i < |live| ==> live[i].size > 0 && live[i].addr > BASE)
    && (forall i, j {:trigger Clear(live[i], live[j])} :: 0 <= i < j < |live| ==> Clear(live[i], live[j]))
  }

  ghost predicate LiveSizes(live: seq<Blk>, size: map<nat, nat>) {
    forall i :: 0 <= i < |live| ==> live[i].addr in size && size[live[i].addr] == live[i].size
  }

  /** Every unit obtained from sbrk is in exactly one free or live block. */
  ghost predicate Partition(fs: seq<Blk>, live: seq<Blk>, region: set<nat>) {
    && Ordered(fs) && LiveOk(live)
    && Units(fs) !! Units(live) && region == Units(fs) + Units(live)
  }

  lemma WithoutOk(live: seq<Blk>, i: nat)
    requires LiveOk(live) && i < |live|
    ensures LiveOk(Without(live, i))
  {
    var r := Without(live, i);
    assert forall k :: 0 <= k < |r| ==> r[k] == if k < i then live[k] else live[k + 1];
  }

  lemma WithoutUnits(live: seq<Blk>, i: nat)
    requires i < |live|
    ensures Units(live) == Units(Without(live, i)) + Range(live[i].addr, live[i].size)
  {
    UnitsSplit(live, i);
    UnitsConcat(live[..i], live[i + 1..]);
  }

  lemma WithoutClear(live: seq<Blk>, i: nat)
    requires LiveOk(live) && i < |live|
    ensures Units(Without(live, i)) !! Range(live[i].addr, live[i].size)
  {
    var r := Without(live, i);
    forall u | u in Units(r) ensures u !in Range(live[i].addr, live[i].size) {
      UnitsMember(r, u);
      var k :| 0 <= k < |r| && r[k].addr <= u < r[k].addr + r[k].size;
      var k' := if k < i then k else k + 1;
      assert r[k] == live[k'];
      assert if k' < i then Clear(live[k'], live[i]) else Clear(live[i], live[k']);
    }
  }

  lemma LiveAdd(live: seq<Blk>, b: Blk)
    requires LiveOk(live) && b.size > 0 && b.addr > BASE && Range(b.addr, b.size) !! Units(live)
    ensures LiveOk(live + [b]) && Units(live + [b]) == Units(live) + Range(b.addr, b.size)
  {
    UnitsConcat(live, [b]);
    UnitsOne(b);
    forall i | 0 <= i < |live| ensures Clear(live[i], b) {
      UnitsMember(live, b.addr);
      UnitsMember(live, live[i].addr);
      assert live[i].addr in Units(live);
    }
  }

  // ----- where a block goes -----

  /** Position t is the last one below address a. */
  ghost predicate SpotAt(fs: seq<Blk>, a: nat, t: nat) {
    t < |fs| && fs[t].addr < a && (t + 1 < |fs| ==> a < fs[t + 1].addr)
  }

  lemma {:induction false} FindSpot(fs: seq<Blk>, a: nat, n: nat) returns (t: nat)
    requires Ordered(fs) && a > BASE && Absent(fs, a) && 0 < n <= |fs|
    requires n < |fs| ==> a < fs[n].addr
    ensures SpotAt(fs, a, t)
    decreases n
  {
    if fs[n - 1].addr < a {
      t := n - 1;
    } else {
      t := FindSpot(fs, a, n - 1);
    }
  }

  lemma SpotUnique(fs: seq<Blk>, a: nat, t: nat, k: nat)
    requires Ordered(fs) && SpotAt(fs, a, t) && SpotAt(fs, a, k)
    ensures t == k
  {
    if t < k {
      Far2(fs, t + 1, k);
    } else if k < t {
      Far2(fs, k + 1, t);
    }
  }

  lemma Far2(fs: seq<Blk>, i: nat, j: nat)
    requires Ordered(fs) && i <= j < |fs|
    ensures fs[i].addr <= fs[j].addr
  {
    if i < j {
      Far(fs, i, j);
    }
  }

  /** A block that shares no unit with the free blocks fits where its address belongs. */
  lemma SpotFits(fs: seq<Blk>, b: Blk, t: nat)
    requires Ordered(fs) && b.size > 0 && Range(b.addr, b.size) !! Units(fs) && SpotAt(fs, b.addr, t)
    ensures FitsAfter(fs, t, b)
  {
    UnitsMember(fs, b.addr);
    assert b.addr !in Units(fs);
    if t + 1 < |fs| {
      UnitsMember(fs, fs[t + 1].addr);
      assert fs[t + 1].addr in Units(fs);
    }
  }

  /** Inserting a block leaves some free block at least as large. */
  lemma InsertHasRoom(fs: seq<Blk>, t: nat, b: Blk) returns (j: nat)
    requires t < |fs|
    ensures j < |Insert(fs, t, b)| && Insert(fs, t, b)[j].size >= b.size
    ensures t < |Insert(fs, t, b)| && Insert(fs, t, b)[t].addr == fs[t].addr
  {
    var s0 := PutAfter(fs, t, b);
    var s1 := MergeIfTouching(s0, t + 1);
    assert s1[t] == fs[t] && s1[t + 1].size >= b.size;
    j := if Touch(s1, t) then t else t + 1;
  }

  /** A live block starts at no other block's address. */
  lemma LiveElsewhere(fs: seq<Blk>, live: seq<Blk>, t: nat, i: nat, k: nat)
    requires Ordered(fs) && LiveOk(live) && Units(fs) !! Units(live) && i < |live| && k < |live| && t < |fs|
    ensures live[k].addr != fs[t].addr && (i != k ==> live[k].addr != live[i].addr)
  {
    UnitsMember(live, live[k].addr);
    UnitsMember(fs, fs[t].addr);
    assert live[k].addr in Units(live);
    if i < k {
      assert Clear(live[i], live[k]);
    } else if k < i {
      assert Clear(live[k], live[i]);
    }
  }

  lemma SizeElsewhere(size: map<nat, nat>, ptr: map<nat, nat>, p: nat, bp: nat, x: nat)
    requires p in ptr && p in size && bp in size && ptr[p] in size && ptr[p] in ptr && x in size && x != p && x != bp
    ensures x in FreedSizes(size, ptr, p, bp) && FreedSizes(size, ptr, p, bp)[x] == size[x]
  {
  }

  /** Freeing one live block leaves the headers of the others alone. */
  lemma FreedLive(fs: seq<Blk>, live: seq<Blk>, ptr: map<nat, nat>, size: map<nat, nat>, t: nat, i: nat)
    requires Ordered(fs) && LiveOk(live) && LiveSizes(live, size) && Units(fs) !! Units(live) && i < |live| && t < |fs|
    requires var p := fs[t].addr; p in ptr && p in size && ptr[p] in size && ptr[p] in ptr
    ensures LiveSizes(Without(live, i), FreedSizes(size, ptr, fs[t].addr, live[i].addr))
  {
    var r, size' := Without(live, i), FreedSizes(size, ptr, fs[t].addr, live[i].addr);
    forall k | 0 <= k < |r| ensures r[k].addr in size' && size'[r[k].addr] == r[k].size {
      var k' := if k < i then k else k + 1;
      assert r[k] == live[k'];
      LiveElsewhere(fs, live, t, i, k');
      SizeElsewhere(size, ptr, fs[t].addr, live[i].addr, live[k'].addr);
    }
  }

  /** What free does to the whole heap. */
  lemma FreeBlock(fs: seq<Blk>, live: seq<Blk>, region: set<nat>, ptr: map<nat, nat>, size: map<nat, nat>, t: nat,
                  i: nat)
    requires Partition(fs, live, region) && Linked(fs, ptr, size) && LiveSizes(live, size)
    requires i < |live| && SpotAt(fs, live[i].addr, t)
    ensures var p, b := fs[t].addr, live[i];
      && FitsAfter(fs, t, b) && Partition(Insert(fs, t, b), Without(live, i), region)
      && t < |Insert(fs, t, b)| && Insert(fs, t, b)[t].addr == p && p != b.addr
      && Units(Insert(fs, t, b)) == Units(fs) + Range(b.addr, b.size)
      && p in ptr && p in size && ptr[p] in size && ptr[p] in ptr
      && Linked(Insert(fs, t, b), FreedLinks(size, ptr, p, b.addr), FreedSizes(size, ptr, p, b.addr))
      && LiveSizes(Without(live, i), FreedSizes(size, ptr, p, b.addr))
  {
    var b := live[i];
    WithoutOk(live, i);
    WithoutUnits(live, i);
    WithoutClear(live, i);
    SpotFits(fs, b, t);
    LiveAbsent(fs, live, i);
    FreedLinked(fs, ptr, size, t, b);
    FreedLive(fs, live, ptr, size, t, i);
    InsertOrdered(fs, t, b);
    InsertUnits(fs, t, b);
    var _ := InsertHasRoom(fs, t, b);
  }

  lemma LiveAbsent(fs: seq<Blk>, live: seq<Blk>, i: nat)
    requires Ordered(fs) && LiveOk(live) && Units(fs) !! Units(live) && i < |live|
    ensures Absent(fs, live[i].addr)
  {
    forall t | 0 <= t < |fs| ensures fs[t].addr != live[i].addr {
      LiveElsewhere(fs, live, t, i, i);
    }
  }

  // ----- new memory and allocation -----

  /** Memory at `addr` lies above everything obtained so far. */
  ghost predicate Fresh(addr: nat, region: set<nat>) {
    addr > BASE && forall u :: u in region ==> u < addr
  }

  /** New memory counts as a live block until it is freed into the list. */
  lemma GrowHeap(fs: seq<Blk>, live: seq<Blk>, region: set<nat>, ptr: map<nat, nat>, size: map<nat, nat>, b: Blk)
    requires Partition(fs, live, region) && Linked(fs, ptr, size) && LiveSizes(live, size)
    requires Fresh(b.addr, region) && b.size > 0
    ensures Partition(fs, live + [b], region + Range(b.addr, b.size))
    ensures Linked(fs, ptr, size[b.addr := b.size]) && LiveSizes(live + [b], size[b.addr := b.size])
  {
    LiveAdd(live, b);
    forall i | 0 <= i < |fs| ensures fs[i].addr != b.addr && NodeOk(fs, ptr, size[b.addr := b.size], i) {
      UnitsMember(fs, fs[i].addr);
      assert NodeOk(fs, ptr, size, i);
    }
    forall i | 0 <= i < |live| ensures live[i].addr != b.addr {
      UnitsMember(live, live[i].addr);
    }
  }

  /** What taking n units off free block i does to the whole heap. */
  lemma TakeBlock(fs: seq<Blk>, live: seq<Blk>, region: set<nat>, i: nat, n: nat)
    requires Partition(fs, live, region) && 1 <= i < |fs| && 0 < n <= fs[i].size
    ensures Partition(Carve(fs, i, n), live + [Blk(CarvedAt(fs, i, n), n)], region)
  {
    var a := CarvedAt(fs, i, n);
    CarveOrdered(fs, i, n);
    CarveUnits(fs, i, n);
    CarveDisjoint(fs, i, n);
    Far(fs, 0, i);
    LiveAdd(live, Blk(a, n));
  }

  /** An address inside block i, past its start, is nobody's header. */
  lemma InsideAbsent(fs: seq<Blk>, i: nat, a: nat)
    requires Ordered(fs) && i < |fs| && fs[i].addr < a < fs[i].addr + fs[i].size
    ensures Absent(fs, a)
  {
    forall k | 0 <= k < |fs| ensures fs[k].addr != a {
      if k < i {
        Far(fs, k, i);
      } else if i < k {
        Far(fs, i, k);
      }
    }
  }

  /** The links and sizes after malloc has taken n units of block i. */
  function TakenLinks(fs: seq<Blk>, ptr: map<nat, nat>, i: nat, n: nat): (r: map<nat, nat>)
    requires 1 <= i < |fs| && fs[i].addr in ptr
  {
    if fs[i].size == n then ptr[fs[i - 1].addr := ptr[fs[i].addr]] else ptr
  }

  function TakenSizes(fs: seq<Blk>, size: map<nat, nat>, i: nat, n: nat): (r: map<nat, nat>)
    requires i < |fs| && n <= fs[i].size
  {
    if fs[i].size == n then size else size[fs[i].addr := fs[i].size - n][CarvedAt(fs, i, n) := n]
  }

  lemma TakenLinked(fs: seq<Blk>, ptr: map<nat, nat>, size: map<nat, nat>, i: nat, n: nat)
    requires Ordered(fs) && Linked(fs, ptr, size) && 1 <= i < |fs| && 0 < n <= fs[i].size
    ensures fs[i].addr in ptr && Linked(Carve(fs, i, n), TakenLinks(fs, ptr, i, n), TakenSizes(fs, size, i, n))
  {
    OrderedApart(fs);
    assert NodeOk(fs, ptr, size, i);
    if fs[i].size == n {
      LinkRemove(fs, ptr, size, i);
    } else {
      InsideAbsent(fs, i, CarvedAt(fs, i, n));
      LinkShrink(fs, ptr, size, i, Blk(fs[i].addr, fs[i].size - n), CarvedAt(fs, i, n), n);
    }
  }

  /** They are the headers of what is left, and of the block handed out. */
  lemma Taken(fs: seq<Blk>, live: seq<Blk>, region: set<nat>, ptr: map<nat, nat>, size: map<nat, nat>, i: nat, n: nat)
    requires Partition(fs, live, region) && Linked(fs, ptr, size) && LiveSizes(live, size)
    requires 1 <= i < |fs| && 0 < n <= fs[i].size
    ensures fs[i].addr in ptr && fs[i].addr in size && size[fs[i].addr] == fs[i].size
    ensures Partition(Carve(fs, i, n), live + [Blk(CarvedAt(fs, i, n), n)], region)
    ensures Linked(Carve(fs, i, n), TakenLinks(fs, ptr, i, n), TakenSizes(fs, size, i, n))
    ensures LiveSizes(live + [Blk(CarvedAt(fs, i, n), n)], TakenSizes(fs, size, i, n))
  {
    assert NodeOk(fs, ptr, size, i);
    TakeBlock(fs, live, region, i, n);
    TakenLinked(fs, ptr, size, i, n);
    TakeLiveSizes(fs, live, size, TakenSizes(fs, size, i, n), i, n);
  }

  lemma TakeLiveSizes(fs: seq<Blk>, live: seq<Blk>, size: map<nat, nat>, size': map<nat, nat>, i: nat, n: nat)
    requires Ordered(fs) && LiveOk(live) && Units(fs) !! Units(live) && LiveSizes(live, size) && i < |fs|
    requires 0 < n <= fs[i].size
    requires var a := CarvedAt(fs, i, n); a in size' && size'[a] == n
    requires forall x :: x in size && x != fs[i].addr && x != CarvedAt(fs, i, n) ==> x in size' && size'[x] == size[x]
    ensures LiveSizes(live + [Blk(CarvedAt(fs, i, n), n)], size')
  {
    var a := CarvedAt(fs, i, n);
    forall k | 0 <= k < |live| ensures live[k].addr != a && live[k].addr != fs[i].addr {
      UnitsMember(live, live[k].addr);
      assert live[k].addr in Units(live);
      UnitsMember(fs, a);
      UnitsMember(fs, fs[i].addr);
    }
  }

  /** Conservation: free and live units together are the units obtained from sbrk. */
  lemma Conservation(fs: seq<Blk>, live: seq<Blk>, region: set<nat>)
    requires Partition(fs, live, region)
    ensures Total(fs) + Total(live) == |region|
  {
    forall i, j | 0 <= i < j < |fs| ensures Clear(fs[i], fs[j]) {
      Far(fs, i, j);
    }
    TotalUnits(fs);
    TotalUnits(live);
  }
}
