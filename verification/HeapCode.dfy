/** malloc and free of umalloc.c, rewriting linked headers in place. */
module HeapCode {
  import opened Common
  import opened HeapModel
  import opened HeapLinks

  const NALLOC: nat := 4096        // the least number of units asked of sbrk
  const MAX_REQUEST: nat := 0x7FFF_FFF0
  const LIMIT: nat := 0x1000_0000  // KERNBASE in units: where user memory ends

  /** What sbrk answers: a refusal, or the address of the new memory. */
  datatype Brk = Refused | At(addr: nat)

  /** The units for a request of nbytes, in 32-bit arithmetic, header included. */
  function NUnits(nbytes: nat): (n: nat) {
    Low32(nbytes + 7) / 8 + 1
  }

  /** A block of n units has room for the request behind its header. */
  predicate HasRoom(n: nat, nbytes: nat) {
    8 * (n - 1) >= nbytes
  }

  /** The block has room for the request exactly when adding to nbytes does not wrap around. */
  lemma RoomIff(nbytes: nat)
    requires nbytes < UINT
    ensures HasRoom(NUnits(nbytes), nbytes) <==> nbytes <= UINT - 8
    ensures nbytes <= UINT - 8 ==> nbytes <= 8 * (NUnits(nbytes) - 1) < nbytes + 8
  {
    if nbytes <= UINT - 8 {
      assert Low32(nbytes + 7) == nbytes + 7;
    } else {
      assert Low32(nbytes + 7) == nbytes + 7 - UINT;
    }
  }

  /** How many units morecore asks for when n are needed. */
  function GrowBy(n: nat): (nu: nat) {
    if n < NALLOC then NALLOC else n
  }

  /** The byte count that sbrk receives for n units, as a signed 32-bit value. */
  function SbrkArg(n: nat): (b: int) {
    var w := Low32(n * 8);
    if w < 0x8000_0000 then w else w - UINT
  }

  /** The byte count that morecore passes on is the true one, and positive, up to MAX_REQUEST and
      for the requests whose count has wrapped around; in between it is zero or negative. */
  lemma SbrkArgIs(nbytes: nat)
    requires nbytes < UINT
    ensures var n := NUnits(nbytes); var arg := SbrkArg(GrowBy(n));
      && -0x8000_0000 <= arg < 0x8000_0000 && arg % 8 == 0
      && if MAX_REQUEST < nbytes <= UINT - 8 then arg <= 0 && n >= LIMIT else arg == 8 * GrowBy(n)
  {
    var n := NUnits(nbytes);
    if nbytes <= UINT - 8 {
      assert Low32(nbytes + 7) == nbytes + 7;
    } else {
      assert Low32(nbytes + 7) == nbytes + 7 - UINT;
    }
    assert 8 * n <= UINT;
    Wrapped(8 * GrowBy(n));
  }

  lemma Wrapped(x: nat)
    requires x <= UINT && x % 8 == 0
    ensures Low32(x) == if x == UINT then 0 else x
  {
  }

  /** When sbrk succeeds for n bytes in a process of top units. */
  predicate Grants(top: nat, n: int, oom: bool) {
    if n > 0 then !oom && 8 * top + n < 8 * LIMIT else 8 * top + n != 0
  }

  /** An amount that is zero, or that takes the 32-bit sum around to above the size: sbrk changes nothing. */
  predicate NoChange(top: nat, n: int) {
    n <= 0 && Low32(8 * top + n) >= 8 * top
  }

  class Heap {
    var ptr: map<nat, nat>         // the link of the header at an address
    var size: map<nat, nat>        // its size field
    var freep: nat                 // 0 before the first call
    var top: nat                   // the size of the process, in units
    var mapped: nat                // the units below this one are backed by memory

    ghost var fs: seq<Blk>         // the free ring, from the base on
    ghost var at: nat              // the position of freep in it
    ghost var live: seq<Blk>       // blocks handed out
    ghost var region: set<nat>     // units obtained from sbrk

    ghost predicate Ring()
      reads this
    {
      && Partition(fs, live, region) && Linked(fs, ptr, size) && LiveSizes(live, size)
      && at < |fs| && fs[at].addr == freep
    }

    ghost predicate Valid()
      reads this
    {
      if freep == 0 then fs == [] && live == [] && region == {} else Ring()
    }

    /** The process has the memory that its size says, and the heap lies below it. */
    ghost predicate Backed()
      reads this
    {
      mapped == top < LIMIT && Fresh(top, region)
    }

    /** Block b lies in memory that the process has. */
    predicate Obtained(b: Blk)
      reads this
    {
      b.addr + b.size <= mapped
    }

    constructor (sz: nat)
      requires BASE < sz < LIMIT
      ensures Valid() && Backed() && region == {} && live == [] && top == sz && freep == 0
    {
      ptr, size, freep, fs, at, live, region := map[], map[], 0, [], 0, [], {};
      top, mapped := sz, sz;
    }

    /** sbrk: growproc with its 32-bit sum, and the old size as the result. A negative amount that
        wraps above the size changes nothing and still succeeds. */
    method Sbrk(n: int, oom: bool) returns (r: Brk)
      requires BASE < mapped == top < LIMIT && -0x8000_0000 <= n < 0x8000_0000 && n % 8 == 0
      modifies `top, `mapped
      ensures r == if Grants(old(top), n, oom) then At(old(top)) else Refused
      ensures r.Refused? <==>
        if n > 0 then oom || 8 * old(top) + n >= 0x8000_0000 else 8 * old(top) + n == 0
      ensures n > 0 ==> top == mapped == if r.At? then old(top) + n / 8 else old(top)
      ensures n <= 0 && 8 * old(top) + n > 0 ==> top == mapped == (8 * old(top) + n) / 8
      ensures 8 * old(top) + n == 0 ==> top == old(top) && mapped == 0
      ensures 8 * old(top) + n < 0 ==> top == mapped == old(top)
      ensures NoChange(old(top), n) ==> top == mapped == old(top)
    {
      var addr := top;
      if n > 0 {
        var newsz := Low32(8 * top + n);
        if oom || newsz >= 8 * LIMIT {
          return Refused;
        }
        top, mapped := newsz / 8, newsz / 8;
      } else if n < 0 {
        var newsz := Low32(8 * top + n);
        if newsz < 8 * top {
          mapped := newsz / 8;
          if newsz == 0 {
            return Refused;
          }
          top := newsz / 8;
        }
      }
      return At(addr);
    }

    /** The search loop of free: the free block after which bp belongs. */
    method Search(bp: nat) returns (p: nat, ghost t: nat)
      requires Ring() && bp > BASE && Absent(fs, bp)
      ensures SpotAt(fs, bp, t) && p == fs[t].addr
    {
      t := FindSpot(fs, bp, |fs|);
      p := freep;
      ghost var k := at;
      assert NodeOk(fs, ptr, size, k);
      while !(bp > p && bp < ptr[p])
        invariant 0 <= k < |fs| && p == fs[k].addr && NodeOk(fs, ptr, size, k)
        decreases Dist(k, t, |fs|)
      {
        if k + 1 < |fs| {
          Far(fs, k, k + 1);
        }
        Far2(fs, 0, k);
        if p >= ptr[p] && (bp > p || bp < ptr[p]) {
          break;
        }
        p := ptr[p];
        k := Succ(k, |fs|);
        assert NodeOk(fs, ptr, size, k);
      }
      assert SpotAt(fs, bp, k);
      SpotUnique(fs, bp, t, k);
    }

    /** The end of free: links the block at bp in behind p, merging where blocks touch. */
    method LinkIn(p: nat, bp: nat)
      requires p in ptr && p in size && bp in size && ptr[p] in size && ptr[p] in ptr && p != bp
      modifies `ptr, `size
      ensures ptr == FreedLinks(old(size), old(ptr), p, bp) && size == FreedSizes(old(size), old(ptr), p, bp)
    {
      var next := ptr[p];
      if bp + size[bp] == next {
        size := size[bp := size[bp] + size[next]];
        ptr := ptr[bp := ptr[next]];
      } else {
        ptr := ptr[bp := next];
      }
      if p + size[p] == bp {
        size := size[p := size[p] + size[bp]];
        ptr := ptr[p := ptr[bp]];
      } else {
        ptr := ptr[p := bp];
      }
    }

    /** free: the block whose header lies before ap goes back to the free list. Its units become
        free, merged with free neighbours, and nothing else changes. */
    method Free(ap: nat, ghost i: nat) returns (ghost t: nat)
      requires Ring() && i < |live| && ap == live[i].addr + 1
      modifies `ptr, `size, `freep, `fs, `at, `live
      ensures Ring() && live == Without(old(live), i) && region == old(region)
      ensures t < |old(fs)| && FitsAfter(old(fs), t, old(live)[i]) && fs == Insert(old(fs), t, old(live)[i])
      ensures freep == old(fs)[t].addr && Units(fs) == old(Units(fs)) + Range(ap - 1, old(live)[i].size)
    {
      var bp := ap - 1;
      LiveAbsent(fs, live, i);
      var p;
      p, t := Search(bp);
      PutBack(p, bp, i, t);
    }

    /** The part of free after its search. */
    method PutBack(p: nat, bp: nat, ghost i: nat, ghost t: nat)
      requires Ring() && i < |live| && bp == live[i].addr && SpotAt(fs, bp, t) && fs[t].addr == p
      modifies `ptr, `size, `freep, `fs, `at, `live
      ensures Ring() && live == Without(old(live), i) && region == old(region) && freep == p
      ensures FitsAfter(old(fs), t, old(live)[i]) && fs == Insert(old(fs), t, old(live)[i])
      ensures Units(fs) == old(Units(fs)) + Range(bp, old(live)[i].size)
    {
      ghost var b := live[i];
      FreeBlock(fs, live, region, ptr, size, t, i);
      LinkIn(p, bp);
      freep := p;
      fs, at, live := Insert(fs, t, b), t, Without(live, i);
    }

    /** Memory at hp enters the heap and is freed into the list. */
    method AddCore(hp: nat, nu: nat) returns (ghost j: nat)
      requires Ring() && Fresh(hp, region) && nu > 0
      modifies `ptr, `size, `freep, `fs, `at, `live, `region
      ensures Ring() && live == old(live) && region == old(region) + Range(hp, nu) && freep != 0
      ensures j < |fs| && fs[j].size >= nu
    {
      GrowHeap(fs, live, region, ptr, size, Blk(hp, nu));
      ghost var fs0 := fs;
      size := size[hp := nu];
      live := live + [Blk(hp, nu)];
      region := region + Range(hp, nu);
      ghost var t := Free(hp + 1, |live| - 1);
      j := InsertHasRoom(fs0, t, Blk(hp, nu));
      Far2(fs0, 0, t);
    }

    /** morecore: asks sbrk for at least NALLOC units and frees them into the list. */
    method MoreCore(nu0: nat, oom: bool) returns (p: nat, ghost j: nat)
      requires Ring() && Backed() && nu0 > 0
      requires -0x8000_0000 <= SbrkArg(GrowBy(nu0)) < 0x8000_0000 && SbrkArg(GrowBy(nu0)) % 8 == 0
      modifies this
      ensures Ring() && live == old(live) && mapped < LIMIT
      ensures p == 0 <==> !Grants(old(top), SbrkArg(GrowBy(nu0)), oom)
      ensures p == 0 ==> fs == old(fs) && region == old(region) && freep == old(freep) && at == old(at)
      ensures p != 0 ==> p == freep && region == old(region) + Range(old(top), GrowBy(nu0))
      ensures p != 0 ==> region == old(region) + Range(old(top), if nu0 < 4096 then 4096 else nu0)
      ensures p != 0 ==> j < |fs| && fs[j].size >= nu0
      ensures SbrkArg(GrowBy(nu0)) == 8 * GrowBy(nu0) ==> Backed()
      ensures NoChange(old(top), SbrkArg(GrowBy(nu0))) ==> top == mapped == old(top)
    {
      j := 0;
      ghost var region0, top0 := region, top;
      var nu := GrowBy(nu0);
      var brk := Sbrk(SbrkArg(nu), oom);
      if brk.Refused? {
        return 0, j;
      }
      j := AddCore(brk.addr, nu);
      StillBelow(region0, top0, nu);
      return freep, j;
    }

    /** The part of malloc that takes n units from block i, found behind prevp. */
    method Take(prevp: nat, p: nat, n: nat, ghost i: nat) returns (q: nat)
      requires Ring() && 1 <= i < |fs| && fs[i].addr == p && fs[i - 1].addr == prevp && 0 < n <= fs[i].size
      modifies `ptr, `size, `freep, `fs, `at, `live
      ensures Ring() && q == CarvedAt(old(fs), i, n) && fs == Carve(old(fs), i, n) && freep == prevp
      ensures live == old(live) + [Blk(q, n)] && region == old(region)
      ensures q + n == old(fs)[i].addr + old(fs)[i].size
    {
      Taken(fs, live, region, ptr, size, i, n);
      q := p;
      if size[p] == n {
        ptr := ptr[prevp := ptr[p]];
      } else {
        size := size[p := size[p] - n];
        q := p + size[p];
        size := size[q := n];
      }
      freep := prevp;
      fs, at, live := Carve(fs, i, n), i - 1, live + [Blk(q, n)];
      CarveKeepsFront(old(fs), i, n);
    }

    /** One circuit of malloc's loop, from the block after freep around to freep itself: the
        first block that is large enough, and the block before it. */
    method FindFit(nunits: nat) returns (found: bool, prevp: nat, p: nat, ghost i: nat)
      requires Ring() && nunits > 0
      ensures found ==> 1 <= i < |fs| && p == fs[i].addr && prevp == fs[i - 1].addr && fs[i].size >= nunits
      ensures !found ==> TooSmall(fs, nunits)
      ensures found ==> FirstFit(fs, at, i, nunits)
    {
      ghost var k: nat := at;
      prevp := freep;
      assert NodeOk(fs, ptr, size, k);
      p := ptr[prevp];
      while true
        invariant k < |fs| && prevp == fs[k].addr && p == NextAddr(fs, k) && Passed(fs, at, k, nunits)
        decreases |fs| - Dist(at, k, |fs|)
      {
        i := Succ(k, |fs|);
        assert NodeOk(fs, ptr, size, i);
        if size[p] >= nunits {
          PassedFirst(fs, at, k, nunits);
          return true, prevp, p, i;
        }
        AddrPosition(fs, i, at);
        if p == freep {
          PassedAll(fs, at, k, nunits);
          return false, prevp, p, i;
        }
        prevp, p, k := p, ptr[p], i;
      }
    }

    /** The base header alone, linked to itself. */
    method InitBase()
      requires Valid() && freep == 0
      modifies `ptr, `size, `freep, `fs, `at
      ensures Ring() && fs == [Blk(BASE, 0)] && live == [] && region == {}
    {
      ptr, size, freep := ptr[BASE := BASE], size[BASE := 0], BASE;
      fs, at := [Blk(BASE, 0)], 0;
      UnitsOne(fs[0]);
      assert NodeOk(fs, ptr, size, 0);
    }

    /** malloc, given the number of units. */
    method MallocUnits(nunits: nat, oom: bool) returns (r: nat, ghost grew: bool, ghost i: nat)
      requires Ring() && Backed() && nunits > 0
      requires -0x8000_0000 <= SbrkArg(GrowBy(nunits)) < 0x8000_0000 && SbrkArg(GrowBy(nunits)) % 8 == 0
      modifies this
      ensures Ring() && mapped < LIMIT && (grew ==> TooSmall(old(fs), nunits))
      ensures r == 0 ==> live == old(live) && region == old(region)
      ensures r != 0 ==> live == old(live) + [Blk(r - 1, nunits)]
      ensures r != 0 ==> region == if grew then old(region) + Range(old(top), GrowBy(nunits)) else old(region)
      ensures r == 0 <==> TooSmall(old(fs), nunits) && !Grants(old(top), SbrkArg(GrowBy(nunits)), oom)
      ensures SbrkArg(GrowBy(nunits)) == 8 * GrowBy(nunits) ==> Backed()
      ensures NoChange(old(top), SbrkArg(GrowBy(nunits))) ==> top == mapped == old(top)
      ensures r != 0 && !grew ==> TakenFrom(old(fs), old(at), i, nunits, r) && freep == old(fs)[i - 1].addr
    {
      var prevp, p;
      grew, prevp, p, i := FindBlock(nunits, oom);
      if p == 0 {
        return 0, grew, i;
      }
      var q := Take(prevp, p, nunits, i);
      return q + 1, grew, i;
    }

    /** malloc's loop: a block that is large enough, after asking for more memory if there is none. */
    method FindBlock(nunits: nat, oom: bool) returns (ghost grew: bool, prevp: nat, p: nat, ghost i: nat)
      requires Ring() && Backed() && nunits > 0
      requires -0x8000_0000 <= SbrkArg(GrowBy(nunits)) < 0x8000_0000 && SbrkArg(GrowBy(nunits)) % 8 == 0
      modifies this
      ensures Ring() && live == old(live) && mapped < LIMIT && (grew ==> TooSmall(old(fs), nunits) && p != 0)
      ensures region == if grew then old(region) + Range(old(top), GrowBy(nunits)) else old(region)
      ensures p == 0 <==> TooSmall(old(fs), nunits) && !Grants(old(top), SbrkArg(GrowBy(nunits)), oom)
      ensures p != 0 ==> 1 <= i < |fs| && p == fs[i].addr && prevp == fs[i - 1].addr && fs[i].size >= nunits
      ensures p != 0 && !grew ==> fs == old(fs) && FirstFit(fs, old(at), i, nunits)
      ensures SbrkArg(GrowBy(nunits)) == 8 * GrowBy(nunits) ==> Backed()
      ensures NoChange(old(top), SbrkArg(GrowBy(nunits))) ==> top == mapped == old(top)
    {
      grew := false;
      var found;
      found, prevp, p, i := FindFit(nunits);
      if found {
        Far(fs, 0, i);
      } else {
        grew, prevp, p, i := GrowAndFind(nunits, oom);
      }
    }

    /** The turn of malloc's loop that asks for more memory; the next one then finds a block. */
    method GrowAndFind(nunits: nat, oom: bool) returns (grew: bool, prevp: nat, p: nat, ghost i: nat)
      requires Ring() && Backed() && nunits > 0
      requires -0x8000_0000 <= SbrkArg(GrowBy(nunits)) < 0x8000_0000 && SbrkArg(GrowBy(nunits)) % 8 == 0
      modifies this
      ensures Ring() && live == old(live) && mapped < LIMIT
      ensures grew <==> Grants(old(top), SbrkArg(GrowBy(nunits)), oom)
      ensures region == if grew then old(region) + Range(old(top), GrowBy(nunits)) else old(region)
      ensures if grew then p != 0 else p == 0
      ensures grew ==> 1 <= i < |fs| && p == fs[i].addr && prevp == fs[i - 1].addr && fs[i].size >= nunits
      ensures SbrkArg(GrowBy(nunits)) == 8 * GrowBy(nunits) ==> Backed()
      ensures NoChange(old(top), SbrkArg(GrowBy(nunits))) ==> top == mapped == old(top)
    {
      ghost var j;
      prevp := 0;
      p, j := MoreCore(nunits, oom);
      grew, i := p != 0, 0;
      if grew {
        var found;
        found, prevp, p, i := FindFit(nunits);
        assert found by { assert fs[j].size >= nunits; }
        Far(fs, 0, i);
      }
    }

    /** malloc: hands out a block of the units needed, from the free list or from new memory. It asks
        sbrk only when no free block is large enough, at most once. What it hands out lies in memory
        of the process and has room for the request exactly up to MAX_REQUEST; what comes from the free list
        is the end of the first block behind freep that is large enough. */
    method Malloc(nbytes: nat, oom: bool) returns (r: nat, ghost grew: bool, ghost i: nat)
      requires Valid() && Backed() && nbytes < UINT
      modifies this
      ensures Ring() && (grew ==> TooSmall(old(fs), NUnits(nbytes)))
      ensures r == 0 ==> live == old(live) && region == old(region)
      ensures r != 0 ==> live == old(live) + [Blk(r - 1, NUnits(nbytes))]
      ensures r != 0 ==> region == if grew then old(region) + Range(old(top), GrowBy(NUnits(nbytes))) else old(region)
      ensures r != 0 ==>
        (Obtained(Blk(r - 1, NUnits(nbytes))) && HasRoom(NUnits(nbytes), nbytes) <==> nbytes <= MAX_REQUEST)
      ensures r == 0 <==> TooSmall(old(fs), NUnits(nbytes)) && !Grants(old(top), SbrkArg(GrowBy(NUnits(nbytes))), oom)
      ensures !(MAX_REQUEST < nbytes <= UINT - 8) ==> Backed()
      ensures NoChange(old(top), SbrkArg(GrowBy(NUnits(nbytes)))) ==> top == mapped == old(top)
      ensures r != 0 && !grew ==>
        TakenFrom(old(fs), old(at), i, NUnits(nbytes), r) && freep == old(fs)[i - 1].addr
    {
      if freep == 0 {
        InitBase();
      }
      SbrkArgIs(nbytes);
      RoomIff(nbytes);
      r, grew, i := MallocUnits(NUnits(nbytes), oom);
      if r != 0 && Backed() {
        LiveAt(fs, live, region, |live| - 1, 0, top);
      }
    }
  }

  lemma StillBelow(region: set<nat>, top: nat, nu: nat)
    requires Fresh(top, region)
    ensures forall u :: u in region + Range(top, nu) ==> u < top + nu
  {
  }

  /** A live block lies where the heap does. */
  lemma LiveAt(fs: seq<Blk>, live: seq<Blk>, region: set<nat>, i: nat, lo: nat, hi: nat)
    requires Partition(fs, live, region) && i < |live| && forall u :: u in region ==> lo <= u < hi
    ensures lo <= live[i].addr && live[i].addr + live[i].size <= hi
  {
    var first, last := live[i].addr, live[i].addr + live[i].size - 1;
    UnitsMember(live, first);
    UnitsMember(live, last);
    assert first in Units(live) && last in Units(live);
  }

  /** A request that malloc answers with a block that is too short: the sum of nbytes and the
      rounding wraps around, and the block is a bare header. */
  method ShortAnswer() returns (h: Heap, r: nat)
    ensures r != 0 && h.live == [Blk(r - 1, 1)] && !HasRoom(1, 0xFFFF_FFFF)
  {
    h := new Heap(2);
    assert NUnits(0xFFFF_FFFF) == 1;
    ghost var grew, i;
    r, grew, i := h.Malloc(0xFFFF_FFFF, false);
  }

  /** A request that malloc answers with a block past the break: sbrk is asked for -2^31 bytes,
      which wraps above the size, and succeeds without adding memory. What the next call of morecore
      gets lies inside that block. */
  method PastTheBreak() returns (h: Heap, r: nat, next: Brk)
    ensures r != 0 && h.live == [Blk(r - 1, LIMIT)] && HasRoom(LIMIT, 0x7FFF_FFF1) && !h.Obtained(h.live[0])
    ensures next.At? && next.addr in Range(r - 1, LIMIT)
  {
    h := new Heap(2);
    assert NUnits(0x7FFF_FFF1) == LIMIT && SbrkArg(LIMIT) == -0x8000_0000 && NoChange(2, -0x8000_0000);
    ghost var grew, i;
    r, grew, i := h.Malloc(0x7FFF_FFF1, false);
    LiveAt(h.fs, h.live, h.region, 0, 2, 2 + LIMIT);
    next := h.Sbrk(8 * NALLOC, false);
  }

  ghost predicate TooSmall(fs: seq<Blk>, n: nat) {
    forall i :: 0 <= i < |fs| ==> fs[i].size < n
  }

  /** The blocks on the way from position f (not included) to position k are too small. */
  ghost predicate Passed(fs: seq<Blk>, f: nat, k: nat, n: nat)
    requires f < |fs| && k < |fs|
  {
    forall i :: 0 <= i < |fs| && 0 < Dist(f, i, |fs|) <= Dist(f, k, |fs|) ==> fs[i].size < n
  }

  /** The address r is that of the last n units of the first free block large enough. */
  ghost predicate TakenFrom(fs: seq<Blk>, at: nat, i: nat, n: nat, r: nat) {
    FirstFit(fs, at, i, n) && i >= 1 && r - 1 + n == fs[i].addr + fs[i].size
  }

  /** Going up from freep and around, block i is the first that is large enough. */
  ghost predicate FirstFit(fs: seq<Blk>, at: nat, i: nat, n: nat) {
    && at < |fs| && i < |fs| && fs[i].size >= n
    && forall k :: 0 <= k < |fs| && (if at < i then at < k < i else at < k || k < i) ==> fs[k].size < n
  }

  lemma PassedFirst(fs: seq<Blk>, f: nat, k: nat, n: nat)
    requires f < |fs| && k < |fs| && Passed(fs, f, k, n) && fs[Succ(k, |fs|)].size >= n
    ensures FirstFit(fs, f, Succ(k, |fs|), n)
  {
    var i := Succ(k, |fs|);
    forall j | 0 <= j < |fs| && (if f < i then f < j < i else f < j || j < i) ensures fs[j].size < n {
      assert 0 < Dist(f, j, |fs|) <= Dist(f, k, |fs|);
    }
  }

  lemma PassedAll(fs: seq<Blk>, f: nat, k: nat, n: nat)
    requires f < |fs| && k < |fs| && Passed(fs, f, k, n) && Succ(k, |fs|) == f && fs[f].size < n
    ensures TooSmall(fs, n)
  {
    forall i | 0 <= i < |fs| ensures fs[i].size < n {
      assert i != f ==> 0 < Dist(f, i, |fs|) <= Dist(f, k, |fs|);
    }
  }

  lemma AddrPosition(fs: seq<Blk>, i: nat, j: nat)
    requires Ordered(fs) && i < |fs| && j < |fs|
    ensures fs[i].addr == fs[j].addr <==> i == j
  {
    OrderedApart(fs);
  }
}
