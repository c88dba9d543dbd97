/** The free list of the user-level allocator, as a list of blocks in address order.
    Addresses and sizes count header units of 8 bytes. */
module HeapModel {
  import opened Common

  const BASE: nat := 1             // the static header that the list always contains

  /** A block: its header is at `addr`, and it spans `size` units, the header included. */
  datatype Blk = Blk(addr: nat, size: nat)

  /** The units that a block spans. */
  function Range(addr: nat, size: nat): (r: set<nat>)
    ensures forall u :: u in r <==> addr <= u < addr + size
  {
    Interval(addr, addr + size)
  }

  /** All units of a list of blocks. */
  function Units(fs: seq<Blk>): (r: set<nat>) {
    if fs == [] then {} else Range(fs[0].addr, fs[0].size) + Units(fs[1..])
  }

  lemma {:induction false} UnitsConcat(a: seq<Blk>, b: seq<Blk>)
    ensures Units(a + b) == Units(a) + Units(b)
  {
    if a == [] {
      assert a + b == b;
    } else {
      UnitsConcat(a[1..], b);
      assert (a + b)[1..] == a[1..] + b;
    }
  }

  lemma UnitsOne(b: Blk)
    ensures Units([b]) == Range(b.addr, b.size)
  {
    assert [b][1..] == [];
  }

  /** The list around position i. */
  lemma UnitsSplit(fs: seq<Blk>, i: nat)
    requires i < |fs|
    ensures Units(fs) == Units(fs[..i]) + Range(fs[i].addr, fs[i].size) + Units(fs[i + 1..])
  {
    assert fs == fs[..i] + fs[i..];
    UnitsConcat(fs[..i], fs[i..]);
    assert fs[i..][1..] == fs[i + 1..];
  }

  /** Block i ends before block i + 1 starts, with at least one unit between them. */
  ghost predicate Gap(fs: seq<Blk>, i: nat)
    requires i + 1 < |fs|
  {
    fs[i].addr + fs[i].size < fs[i + 1].addr
  }

  /** Block i ends where block i + 1 starts. */
  predicate Touch(fs: seq<Blk>, i: nat)
    requires i + 1 < |fs|
  {
    fs[i].addr + fs[i].size == fs[i + 1].addr
  }

  /** Blocks in address order, none touching the next, except perhaps at i and at j. */
  ghost predicate GapsBut(fs: seq<Blk>, i: int, j: int) {
    forall k {:trigger Gap(fs, k)} :: 0 <= k < |fs| - 1 ==> Gap(fs, k) || ((k == i || k == j) && Touch(fs, k))
  }

  /** The free list: the base first, address order, no other empty block, no two blocks that touch. */
  ghost predicate Ordered(fs: seq<Blk>) {
    && |fs| >= 1 && fs[0] == Blk(BASE, 0)
    && (forall i :: 1 <= i < |fs| ==> fs[i].size > 0)
    && GapsBut(fs, -1, -1)
  }

  /** Blocks further apart are in order too. */
  lemma {:induction false} Far(fs: seq<Blk>, i: nat, j: nat)
    requires GapsBut(fs, -1, -1) && i < j < |fs|
    ensures fs[i].addr + fs[i].size < fs[j].addr
  {
    assert Gap(fs, j - 1);
    if i < j - 1 {
      Far(fs, i, j - 1);
    }
  }

  lemma {:induction false} UnitsMember(fs: seq<Blk>, u: nat)
    ensures u in Units(fs) <==> exists i :: 0 <= i < |fs| && fs[i].addr <= u < fs[i].addr + fs[i].size
  {
    if fs != [] {
      UnitsMember(fs[1..], u);
      if u in Units(fs[1..]) {
        var i :| 0 <= i < |fs[1..]| && fs[1..][i].addr <= u < fs[1..][i].addr + fs[1..][i].size;
        assert fs[i + 1].addr <= u < fs[i + 1].addr + fs[i + 1].size;
      }
      if i :| 0 <= i < |fs| && fs[i].addr <= u < fs[i].addr + fs[i].size {
        if i > 0 {
          assert fs[1..][i - 1] == fs[i];
        }
      }
    }
  }

  // ----- giving a block back -----

  /** Block b lies between position t and the next, clear of both. */
  ghost predicate FitsAfter(fs: seq<Blk>, t: nat, b: Blk) {
    && t < |fs| && b.size > 0 && fs[t].addr < b.addr && fs[t].addr + fs[t].size <= b.addr
    && (t + 1 < |fs| ==> b.addr + b.size <= fs[t + 1].addr)
  }

  /** Blocks i and i + 1 made one. */
  function Merge(fs: seq<Blk>, i: nat): (r: seq<Blk>)
    requires i + 1 < |fs|
  {
    fs[..i] + [Blk(fs[i].addr, fs[i].size + fs[i + 1].size)] + fs[i + 2..]
  }

  function MergeIfTouching(fs: seq<Blk>, i: nat): (r: seq<Blk>) {
    if i + 1 < |fs| && Touch(fs, i) then Merge(fs, i) else fs
  }

  function PutAfter(fs: seq<Blk>, t: nat, b: Blk): (r: seq<Blk>)
    requires t < |fs|
  {
    fs[..t + 1] + [b] + fs[t + 1..]
  }

  /** The list with b put after position t, then merged with the next block and with the
      previous one where they touch. */
  function Insert(fs: seq<Blk>, t: nat, b: Blk): (r: seq<Blk>)
    requires t < |fs|
  {
    MergeIfTouching(MergeIfTouching(PutAfter(fs, t, b), t + 1), t)
  }

  lemma PutOrder(fs: seq<Blk>, t: nat, b: Blk)
    requires GapsBut(fs, -1, -1) && FitsAfter(fs, t, b)
    ensures GapsBut(PutAfter(fs, t, b), t, t + 1)
  {
    var r := PutAfter(fs, t, b);
    forall k | 0 <= k < |r| - 1 ensures Gap(r, k) || ((k == t || k == t + 1) && Touch(r, k)) {
      if k < t {
        assert Gap(fs, k);
      } else if k > t + 1 {
        assert Gap(fs, k - 1);
      }
    }
  }

  lemma MergeOrder(fs: seq<Blk>, i: nat, j: int)
    requires GapsBut(fs, i, j) && j < i
    ensures GapsBut(MergeIfTouching(fs, i), -1, j)
  {
    var r := MergeIfTouching(fs, i);
    forall k | 0 <= k < |r| - 1 ensures Gap(r, k) || (k == j && Touch(r, k)) {
      assert k < |fs| - 1;
      assert Gap(fs, k) || ((k == i || k == j) && Touch(fs, k));
      if r != fs && k >= i {
        assert Gap(fs, k + 1);
      }
    }
  }

  /** Insertion keeps the order, and no two blocks of the result touch. */
  lemma InsertOrdered(fs: seq<Blk>, t: nat, b: Blk)
    requires Ordered(fs) && FitsAfter(fs, t, b)
    ensures Ordered(Insert(fs, t, b))
  {
    var s0 := PutAfter(fs, t, b);
    var s1 := MergeIfTouching(s0, t + 1);
    PutOrder(fs, t, b);
    MergeOrder(s0, t + 1, t);
    MergeOrder(s1, t, -1);
    MergeKeepsShape(s0, t + 1);
    if t > 0 || !Touch(s1, t) {
      MergeKeepsShape(s1, t);
    }
  }

  lemma MergeKeepsShape(fs: seq<Blk>, i: nat)
    requires |fs| >= 1 && fs[0] == Blk(BASE, 0) && (forall k :: 1 <= k < |fs| ==> fs[k].size > 0)
    requires i > 0 || |fs| == 1 || !Touch(fs, 0)
    ensures var r := MergeIfTouching(fs, i);
      |r| >= 1 && r[0] == Blk(BASE, 0) && forall k :: 1 <= k < |r| ==> r[k].size > 0
  {
  }

  lemma RangeJoin(a: nat, n: nat, m: nat)
    ensures Range(a, n) + Range(a + n, m) == Range(a, n + m)
  {
  }

  /** The list around positions i and i + 1. */
  lemma UnitsSplitTwo(fs: seq<Blk>, i: nat)
    requires i + 1 < |fs|
    ensures Units(fs) ==
      Units(fs[..i]) + (Range(fs[i].addr, fs[i].size) + Range(fs[i + 1].addr, fs[i + 1].size)) + Units(fs[i + 2..])
  {
    UnitsSplit(fs, i);
    var tail := fs[i + 1..];
    assert tail[0] == fs[i + 1] && tail[1..] == fs[i + 2..];
  }

  lemma MergeUnits(fs: seq<Blk>, i: nat)
    ensures Units(MergeIfTouching(fs, i)) == Units(fs)
  {
    if i + 1 < |fs| && Touch(fs, i) {
      var r := Merge(fs, i);
      UnitsSplitTwo(fs, i);
      RangeJoin(fs[i].addr, fs[i].size, fs[i + 1].size);
      assert r[..i] == fs[..i] && r[i + 1..] == fs[i + 2..];
      UnitsSplit(r, i);
    }
  }

  lemma PutUnits(fs: seq<Blk>, t: nat, b: Blk)
    requires t < |fs|
    ensures Units(PutAfter(fs, t, b)) == Units(fs) + Range(b.addr, b.size)
  {
    var r, front, back := PutAfter(fs, t, b), fs[..t + 1], fs[t + 1..];
    assert r[..t + 1] == front && r[t + 1] == b && r[t + 2..] == back;
    UnitsSplit(r, t + 1);
    assert fs == front + back;
    UnitsConcat(front, back);
    UnionSwap(Units(front), Range(b.addr, b.size), Units(back));
  }

  lemma UnionSwap(a: set<nat>, b: set<nat>, c: set<nat>)
    ensures a + b + c == a + c + b
  {
  }

  /** Insertion adds exactly the units of the block. */
  lemma InsertUnits(fs: seq<Blk>, t: nat, b: Blk)
    requires t < |fs|
    ensures Units(Insert(fs, t, b)) == Units(fs) + Range(b.addr, b.size)
  {
    PutUnits(fs, t, b);
    MergeUnits(PutAfter(fs, t, b), t + 1);
    MergeUnits(MergeIfTouching(PutAfter(fs, t, b), t + 1), t);
  }

  // ----- taking a block out -----

  /** The list after n units have been taken from the end of block i. */
  function Carve(fs: seq<Blk>, i: nat, n: nat): (r: seq<Blk>)
    requires i < |fs| && n <= fs[i].size
  {
    if fs[i].size == n then fs[..i] + fs[i + 1..] else fs[i := Blk(fs[i].addr, fs[i].size - n)]
  }

  /** Where those units start. */
  function CarvedAt(fs: seq<Blk>, i: nat, n: nat): (a: nat)
    requires i < |fs| && n <= fs[i].size
  {
    fs[i].addr + fs[i].size - n
  }

  lemma CarveKeepsFront(fs: seq<Blk>, i: nat, n: nat)
    requires 1 <= i < |fs| && n <= fs[i].size
    ensures |Carve(fs, i, n)| >= i && Carve(fs, i, n)[i - 1] == fs[i - 1]
  {
  }

  lemma CarveOrdered(fs: seq<Blk>, i: nat, n: nat)
    requires Ordered(fs) && 1 <= i < |fs| && 0 < n <= fs[i].size
    ensures Ordered(Carve(fs, i, n))
  {
    var r := Carve(fs, i, n);
    forall k | 0 <= k < |r| - 1 ensures Gap(r, k) {
      assert Gap(fs, k);
      if fs[i].size == n && k >= i - 1 {
        assert Gap(fs, k + 1);
      }
    }
  }

  /** Carving divides the free units into those that stay free and those handed out. */
  lemma CarveUnits(fs: seq<Blk>, i: nat, n: nat)
    requires i < |fs| && 0 < n <= fs[i].size
    ensures Units(fs) == Units(Carve(fs, i, n)) + Range(CarvedAt(fs, i, n), n)
  {
    var r := Carve(fs, i, n);
    UnitsSplit(fs, i);
    if fs[i].size == n {
      UnitsConcat(fs[..i], fs[i + 1..]);
    } else {
      assert r[..i] == fs[..i] && r[i + 1..] == fs[i + 1..];
      UnitsSplit(r, i);
      RangeJoin(fs[i].addr, fs[i].size - n, n);
    }
  }

  lemma CarveDisjoint(fs: seq<Blk>, i: nat, n: nat)
    requires Ordered(fs) && 1 <= i < |fs| && 0 < n <= fs[i].size
    ensures Units(Carve(fs, i, n)) !! Range(CarvedAt(fs, i, n), n)
  {
    var r := Carve(fs, i, n);
    forall u | u in Units(r) ensures u !in Range(CarvedAt(fs, i, n), n) {
      UnitsMember(r, u);
      var j :| 0 <= j < |r| && r[j].addr <= u < r[j].addr + r[j].size;
      var j' := if fs[i].size == n && j >= i then j + 1 else j;
      if j' < i {
        Far(fs, j', i);
      } else if j' > i {
        Far(fs, i, j');
      }
    }
  }

  // ----- the list is determined by its units -----

  ghost predicate Spread(fs: seq<Blk>) {
    (forall i :: 0 <= i < |fs| ==> fs[i].size > 0) && GapsBut(fs, -1, -1)
  }

  lemma SpreadTail(fs: seq<Blk>)
    requires Spread(fs) && fs != []
    ensures Spread(fs[1..])
  {
    forall k | 0 <= k < |fs[1..]| - 1 ensures Gap(fs[1..], k) {
      assert Gap(fs, k + 1);
    }
  }

  /** The first block starts at the least unit and ends at the first unit missing after it. */
  lemma HeadUnits(fs: seq<Blk>, u: nat)
    requires Spread(fs) && fs != []
    ensures fs[0].addr in Units(fs) && fs[0].addr + fs[0].size !in Units(fs)
    ensures fs[0].addr <= u < fs[0].addr + fs[0].size ==> u in Units(fs)
    ensures u in Units(fs) ==> fs[0].addr <= u
    ensures u in Units(fs[1..]) <==> u in Units(fs) && u > fs[0].addr + fs[0].size
  {
    var end := fs[0].addr + fs[0].size;
    forall v | v in Units(fs[1..]) ensures v > end {
      UnitsMember(fs[1..], v);
      var i :| 0 <= i < |fs[1..]| && fs[1..][i].addr <= v < fs[1..][i].addr + fs[1..][i].size;
      Far(fs, 0, i + 1);
    }
  }

  lemma SameHead(a: seq<Blk>, b: seq<Blk>)
    requires Spread(a) && Spread(b) && a != [] && b != [] && Units(a) == Units(b)
    ensures a[0] == b[0]
  {
    HeadUnits(a, b[0].addr);
    HeadUnits(b, a[0].addr);
    HeadUnits(a, b[0].addr + b[0].size);
    HeadUnits(b, a[0].addr + a[0].size);
  }

  lemma {:induction false} SpreadUnique(a: seq<Blk>, b: seq<Blk>)
    requires Spread(a) && Spread(b) && Units(a) == Units(b)
    ensures a == b
  {
    if a == [] || b == [] {
      if a != [] {
        HeadUnits(a, 0);
      }
      if b != [] {
        HeadUnits(b, 0);
      }
    } else {
      SameHead(a, b);
      forall u: nat ensures u in Units(a[1..]) <==> u in Units(b[1..]) {
        HeadUnits(a, u);
        HeadUnits(b, u);
      }
      SpreadTail(a);
      SpreadTail(b);
      SpreadUnique(a[1..], b[1..]);
    }
  }

  /** Two free lists that cover the same units are the same list: what is free decides the
      list, not the order in which it became free. */
  lemma OrderedUnique(a: seq<Blk>, b: seq<Blk>)
    requires Ordered(a) && Ordered(b) && Units(a) == Units(b)
    ensures a == b
  {
    assert Units(a) == Units(a[1..]) && Units(b) == Units(b[1..]);
    forall k | 0 <= k < |a[1..]| - 1 ensures Gap(a[1..], k) {
      assert Gap(a, k + 1);
    }
    forall k | 0 <= k < |b[1..]| - 1 ensures Gap(b[1..], k) {
      assert Gap(b, k + 1);
    }
    SpreadUnique(a[1..], b[1..]);
  }

  lemma InsertTwice(fs: seq<Blk>, b: Blk, c: Blk, t: nat, t': nat)
    requires Ordered(fs) && FitsAfter(fs, t, b) && FitsAfter(Insert(fs, t, b), t', c)
    ensures Ordered(Insert(Insert(fs, t, b), t', c))
    ensures Units(Insert(Insert(fs, t, b), t', c)) == Units(fs) + Range(b.addr, b.size) + Range(c.addr, c.size)
  {
    InsertOrdered(fs, t, b);
    InsertUnits(fs, t, b);
    InsertOrdered(Insert(fs, t, b), t', c);
    InsertUnits(Insert(fs, t, b), t', c);
  }

  /** Freeing two blocks gives the same list in either order. */
  lemma FreeCommutes(fs: seq<Blk>, b: Blk, c: Blk, t: nat, t': nat, u: nat, u': nat)
    requires Ordered(fs) && FitsAfter(fs, t, b) && FitsAfter(Insert(fs, t, b), t', c)
    requires FitsAfter(fs, u, c) && FitsAfter(Insert(fs, u, c), u', b)
    ensures Insert(Insert(fs, t, b), t', c) == Insert(Insert(fs, u, c), u', b)
  {
    InsertTwice(fs, b, c, t, t');
    InsertTwice(fs, c, b, u, u');
    UnionSwap(Units(fs), Range(b.addr, b.size), Range(c.addr, c.size));
    OrderedUnique(Insert(Insert(fs, t, b), t', c), Insert(Insert(fs, u, c), u', b));
  }

  /** Freeing what was just allocated restores the list. */
  lemma FreeUndoesMalloc(fs: seq<Blk>, i: nat, n: nat, t: nat)
    requires Ordered(fs) && 1 <= i < |fs| && 0 < n <= fs[i].size
    requires FitsAfter(Carve(fs, i, n), t, Blk(CarvedAt(fs, i, n), n))
    ensures Insert(Carve(fs, i, n), t, Blk(CarvedAt(fs, i, n), n)) == fs
  {
    var b := Blk(CarvedAt(fs, i, n), n);
    CarveOrdered(fs, i, n);
    CarveUnits(fs, i, n);
    InsertOrdered(Carve(fs, i, n), t, b);
    InsertUnits(Carve(fs, i, n), t, b);
    OrderedUnique(Insert(Carve(fs, i, n), t, b), fs);
  }

  // ----- counting -----

  /** The units of a list, counted block by block. */
  function Total(fs: seq<Blk>): (n: nat) {
    if fs == [] then 0 else fs[0].size + Total(fs[1..])
  }

  /** Two blocks share no unit. */
  ghost predicate Clear(x: Blk, y: Blk) {
    x.addr + x.size <= y.addr || y.addr + y.size <= x.addr
  }

  ghost predicate AllClear(fs: seq<Blk>) {
    forall i, j {:trigger Clear(fs[i], fs[j])} :: 0 <= i < j < |fs| ==> Clear(fs[i], fs[j])
  }

  lemma FirstClear(fs: seq<Blk>)
    requires fs != [] && AllClear(fs)
    ensures AllClear(fs[1..]) && Range(fs[0].addr, fs[0].size) !! Units(fs[1..])
  {
    var rest := fs[1..];
    forall i, j | 0 <= i < j < |rest| ensures Clear(rest[i], rest[j]) {
      assert Clear(fs[i + 1], fs[j + 1]);
    }
    forall u | u in Units(rest) ensures u !in Range(fs[0].addr, fs[0].size) {
      UnitsMember(rest, u);
      var i :| 0 <= i < |rest| && rest[i].addr <= u < rest[i].addr + rest[i].size;
      assert Clear(fs[0], fs[i + 1]);
    }
  }

  /** Blocks that share no unit count each unit once. */
  lemma {:induction false} TotalUnits(fs: seq<Blk>)
    requires AllClear(fs)
    ensures |Units(fs)| == Total(fs)
  {
    if fs != [] {
      FirstClear(fs);
      TotalUnits(fs[1..]);
      IntervalSize(fs[0].addr, fs[0].addr + fs[0].size);
      DisjointSize(Range(fs[0].addr, fs[0].size), Units(fs[1..]));
    }
  }
}
