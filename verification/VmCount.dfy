/** How many pages the address-space operations take from the page allocator. */
module VmCount {
  import opened Common
  import opened VmModel

  /** The directory entries that pages lo up to hi fall into. */
  function Entries(lo: nat, hi: nat): set<nat> {
    if lo < hi then Interval(lo / 1024, (hi - 1) / 1024 + 1) else {}
  }

  /** Those of them that have no page table yet. */
  function Missing(mem: seq<Page>, pd: nat, lo: nat, hi: nat): set<nat>
    requires pd < |mem|
  {
    set d | d in Entries(lo, hi) && !Pde(mem, pd, d).flags.p
  }

  lemma EntriesMore(lo: nat, v: nat)
    requires lo <= v
    ensures Entries(lo, v + 1) == Entries(lo, v) + {v / 1024}
  {
  }

  lemma MissingMore(mem: seq<Page>, pd: nat, lo: nat, v: nat)
    requires pd < |mem| && lo <= v
    ensures var d := v / 1024;
      |Missing(mem, pd, lo, v + 1)| ==
        |Missing(mem, pd, lo, v)| + if Pde(mem, pd, d).flags.p || d in Entries(lo, v) then 0 else 1
  {
    var d, was, now := v / 1024, Missing(mem, pd, lo, v), Missing(mem, pd, lo, v + 1);
    EntriesMore(lo, v);
    if Pde(mem, pd, d).flags.p || d in Entries(lo, v) {
      assert now == was;
    } else {
      assert now == was + {d};
    }
  }

  lemma MissingGrows(mem: seq<Page>, pd: nat, lo: nat, v: nat, w: nat)
    requires pd < |mem| && lo <= v <= w
    ensures |Missing(mem, pd, lo, v)| <= |Missing(mem, pd, lo, w)|
  {
    SubsetSize(Missing(mem, pd, lo, v), Missing(mem, pd, lo, w));
  }

  /** What mapping pages lo up to hi takes: the pages and the tables that are missing. */
  function Cost(mem: seq<Page>, pd: nat, lo: nat, hi: nat): nat
    requires pd < |mem| && lo <= hi
  {
    hi - lo + |Missing(mem, pd, lo, hi)|
  }

  /** Directory pd now has a table at d, and tables where it had them. */
  ghost predicate TableAt(mem: seq<Page>, now: seq<Page>, pd: nat, d: nat)
    requires pd < |mem| == |now|
  {
    forall e: nat {:trigger Pde(now, pd, e)} :: Pde(now, pd, e).flags.p <==> Pde(mem, pd, e).flags.p || e == d
  }

  lemma TableSame(m0: seq<Page>, m1: seq<Page>, m2: seq<Page>, pd: nat, d: nat)
    requires pd < |m0| == |m1| == |m2| && TableAt(m1, m2, pd, d)
    requires forall e: nat {:trigger Pde(m1, pd, e)} :: Pde(m1, pd, e) == Pde(m0, pd, e)
    ensures TableAt(m0, m2, pd, d)
  {
    forall e: nat ensures Pde(m2, pd, e).flags.p <==> Pde(m0, pd, e).flags.p || e == d {
      assert Pde(m1, pd, e) == Pde(m0, pd, e);
    }
  }

  /** Of n0 free pages n are left: `pages` have gone into mappings and one into each missing table of
      pages lo up to v. */
  ghost predicate Paid(m0: seq<Page>, now: seq<Page>, n0: nat, n: nat, pd: nat, lo: nat, v: nat, pages: nat)
    requires pd < |m0| == |now|
  {
    && lo <= v && n + pages + |Missing(m0, pd, lo, v)| == n0
    && forall e: nat {:trigger Pde(now, pd, e)} ::
         Pde(now, pd, e).flags.p <==> Pde(m0, pd, e).flags.p || e in Entries(lo, v)
  }

  /** One more mapping: `more` pages, and a table if there was none. */
  lemma PaidNext(m0: seq<Page>, m1: seq<Page>, m2: seq<Page>, n0: nat, n1: nat, n2: nat, pd: nat, lo: nat, v: nat,
                 pages: nat, more: nat)
    requires pd < |m0| == |m1| == |m2| && Paid(m0, m1, n0, n1, pd, lo, v, pages) && TableAt(m1, m2, pd, v / 1024)
    requires n1 == n2 + more + if Pde(m1, pd, v / 1024).flags.p then 0 else 1
    ensures Paid(m0, m2, n0, n2, pd, lo, v + 1, pages + more)
  {
    MissingMore(m0, pd, lo, v);
    EntriesMore(lo, v);
    forall e: nat ensures Pde(m2, pd, e).flags.p <==> Pde(m0, pd, e).flags.p || e in Entries(lo, v + 1) {
      assert Pde(m1, pd, e).flags.p <==> Pde(m0, pd, e).flags.p || e in Entries(lo, v);
    }
  }

  /** A mapping that there is no memory for any more. */
  lemma PaidOut(m0: seq<Page>, m1: seq<Page>, n0: nat, n1: nat, pd: nat, lo: nat, v: nat, hi: nat, pages: nat,
                more: nat)
    requires pd < |m0| == |m1| && Paid(m0, m1, n0, n1, pd, lo, v, pages) && v < hi
    requires n1 < more + if Pde(m1, pd, v / 1024).flags.p then 0 else 1
    ensures n0 < pages + more + |Missing(m0, pd, lo, hi)|
  {
    MissingMore(m0, pd, lo, v);
    MissingGrows(m0, pd, lo, v + 1, hi);
  }

  // ---------------------------------------------------------------- allocuvm

  /** There is nothing in the way and memory for all of it. */
  ghost predicate Fits(mem: seq<Page>, n: nat, pd: nat, lo: nat, hi: nat)
    requires pd < |mem| && lo <= hi
  {
    Unmapped(mem, pd, lo, hi) && Cost(mem, pd, lo, hi) <= n
  }

  /** Page y is in the way and is reached with memory left. */
  ghost predicate MeetsAt(mem: seq<Page>, n: nat, pd: nat, lo: nat, y: nat)
    requires pd < |mem| && lo <= y
  {
    Lookup(mem, pd, y).flags.p && Unmapped(mem, pd, lo, y) && Cost(mem, pd, lo, y) < n
  }

  ghost predicate Meets(mem: seq<Page>, n: nat, pd: nat, lo: nat, hi: nat)
    requires pd < |mem|
  {
    exists y: nat {:trigger MeetsAt(mem, n, pd, lo, y)} :: lo <= y < hi && MeetsAt(mem, n, pd, lo, y)
  }

  /** Out of memory at page v, before anything in the way: neither of the two. */
  lemma ShortAt(mem: seq<Page>, n: nat, pd: nat, lo: nat, v: nat, hi: nat)
    requires pd < |mem| && lo <= v < hi && Unmapped(mem, pd, lo, v) && n < Cost(mem, pd, lo, v + 1)
    requires Lookup(mem, pd, v).flags.p ==> n <= Cost(mem, pd, lo, v)
    ensures !Fits(mem, n, pd, lo, hi) && !Meets(mem, n, pd, lo, hi)
  {
    MissingGrows(mem, pd, lo, v + 1, hi);
    forall y: nat | lo <= y < hi ensures !MeetsAt(mem, n, pd, lo, y) {
      if y > v {
        MissingGrows(mem, pd, lo, v + 1, y);
      }
    }
  }

  // ---------------------------------------------------------------- a new address space

  /** The page tables for n pages from address 0 on. */
  function TablesFor(n: nat): nat {
    (n + 1023) / 1024
  }

  lemma EntriesFromZero(n: nat)
    ensures |Entries(0, n)| == TablesFor(n)
  {
    IntervalSize(0, TablesFor(n));
    assert Entries(0, n) == Interval(0, TablesFor(n));
  }

  /** The directory entries of a range. */
  function EntriesOf(k: Range): set<nat> {
    Entries(k.start, k.start + k.n)
  }

  /** The directory entries of the first i ranges. */
  ghost function RangeEntries(kmap: seq<Range>, i: nat): set<nat>
    requires i <= |kmap|
  {
    set j, d | 0 <= j < i && d in EntriesOf(kmap[j]) :: d
  }

  lemma RangeEntriesMore(kmap: seq<Range>, i: nat)
    requires i < |kmap|
    ensures Joins(RangeEntries(kmap, i + 1), RangeEntries(kmap, i), EntriesOf(kmap[i]))
  {
  }

  /** What an address space takes before it has a user page: its directory and 64 tables. */
  const KERNEL_PAGES: nat := 65

  /** The size of a set that is two intervals. */
  lemma TwoIntervals(s: set<nat>, a: nat, b: nat, c: nat, d: nat)
    requires a <= b <= c <= d && forall x: nat :: x in s <==> a <= x < b || c <= x < d
    ensures |s| == b - a + d - c
  {
    IntervalSize(a, b);
    IntervalSize(c, d);
    DisjointSize(Interval(a, b), Interval(c, d));
    assert s == Interval(a, b) + Interval(c, d);
  }

  const FIRST_KERNEL: nat := 512   // the directory entry of KERNBASE, and of DEVSPACE
  const FIRST_DEVICE: nat := 1016

  /** The entries of the four ranges together. */
  lemma KernelEntry(data: nat, d: nat)
    requires 0x100 < data < 0xE000
    ensures d in RangeEntries(Kmap(data), |Kmap(data)|) <==>
      FIRST_KERNEL <= d < FIRST_KERNEL + 56 || FIRST_DEVICE <= d < FIRST_DEVICE + 8
  {
    var kmap := Kmap(data);
    assert d in EntriesOf(kmap[0]) <==> d == 512;
    assert d in EntriesOf(kmap[1]) <==> 512 <= d <= (0x80000 + data - 1) / 1024;
    assert d in EntriesOf(kmap[2]) <==> (0x80000 + data) / 1024 <= d <= 567;
    assert d in EntriesOf(kmap[3]) <==> 1016 <= d <= 1023;
  }

  lemma KernelTables(data: nat)
    requires 0x100 < data < 0xE000
    ensures var all := RangeEntries(Kmap(data), |Kmap(data)|);
      |all| == KERNEL_PAGES - 1 && forall d: nat :: d in all ==> d >= 512
  {
    var all := RangeEntries(Kmap(data), |Kmap(data)|);
    forall d: nat
      ensures d in all <==> FIRST_KERNEL <= d < FIRST_KERNEL + 56 || FIRST_DEVICE <= d < FIRST_DEVICE + 8
    {
      KernelEntry(data, d);
    }
    TwoIntervals(all, FIRST_KERNEL, FIRST_KERNEL + 56, FIRST_DEVICE, FIRST_DEVICE + 8);
  }

  /** The first i ranges take no more tables than that. */
  lemma FewerTables(data: nat, i: nat)
    requires 0x100 < data < 0xE000 && i <= |Kmap(data)|
    ensures |RangeEntries(Kmap(data), i)| <= KERNEL_PAGES - 1
    ensures i == |Kmap(data)| ==> |RangeEntries(Kmap(data), i)| == KERNEL_PAGES - 1
  {
    KernelTables(data);
    SubsetSize(RangeEntries(Kmap(data), i), RangeEntries(Kmap(data), |Kmap(data)|));
  }

  /** Directory pd has tables at these entries only, and they and pd itself are what n0 pages have shrunk by. */
  ghost predicate Built(mem: seq<Page>, n0: nat, n: nat, pd: nat, tables: set<nat>) {
    && pd < |mem| && n + 1 + |tables| == n0
    && forall e: nat {:trigger Pde(mem, pd, e)} :: Pde(mem, pd, e).flags.p <==> e in tables
  }

  /** The elements of the one set and of the other. */
  ghost predicate Joins(all: set<nat>, some: set<nat>, more: set<nat>) {
    forall d :: d in all <==> d in some || d in more
  }

  /** Adding the tables of a range adds those that are missing. */
  lemma MissingIs(mem: seq<Page>, pd: nat, lo: nat, hi: nat, tables: set<nat>, all: set<nat>)
    requires pd < |mem| && forall e: nat {:trigger Pde(mem, pd, e)} :: Pde(mem, pd, e).flags.p <==> e in tables
    requires Joins(all, tables, Entries(lo, hi))
    ensures |all| == |tables| + |Missing(mem, pd, lo, hi)|
  {
    var more := Missing(mem, pd, lo, hi);
    DisjointSize(tables, more);
    assert tables + more == all;
  }

  /** The tables of one more range. */
  lemma BuiltNext(m1: seq<Page>, m2: seq<Page>, n0: nat, n1: nat, n2: nat, pd: nat, tables: set<nat>, k: Range,
                  all: set<nat>)
    requires Built(m1, n0, n1, pd, tables) && |m2| == |m1| && Paid(m1, m2, n1, n2, pd, k.start, k.start + k.n, 0)
    requires Joins(all, tables, EntriesOf(k))
    ensures Built(m2, n0, n2, pd, all)
  {
    MissingIs(m1, pd, k.start, k.start + k.n, tables, all);
    forall e: nat ensures Pde(m2, pd, e).flags.p <==> e in all {
      assert Pde(m1, pd, e).flags.p <==> e in tables;
    }
  }

  /** Tables that there is no memory for. */
  lemma TablesShort(mem: seq<Page>, n0: nat, n: nat, pd: nat, tables: set<nat>, k: Range, all: set<nat>)
    requires Built(mem, n0, n, pd, tables) && n < |Missing(mem, pd, k.start, k.start + k.n)|
    requires Joins(all, tables, EntriesOf(k))
    ensures n0 < 1 + |all|
  {
    MissingIs(mem, pd, k.start, k.start + k.n, tables, all);
  }

  lemma RangeBuilt(m1: seq<Page>, m2: seq<Page>, n0: nat, n1: nat, n2: nat, pd: nat, kmap: seq<Range>, i: nat)
    requires i < |kmap| && Built(m1, n0, n1, pd, RangeEntries(kmap, i)) && |m2| == |m1|
    requires Paid(m1, m2, n1, n2, pd, kmap[i].start, kmap[i].start + kmap[i].n, 0)
    ensures Built(m2, n0, n2, pd, RangeEntries(kmap, i + 1))
  {
    assert Joins(RangeEntries(kmap, i + 1), RangeEntries(kmap, i), EntriesOf(kmap[i])) by { RangeEntriesMore(kmap, i); }
    BuiltNext(m1, m2, n0, n1, n2, pd, RangeEntries(kmap, i), kmap[i], RangeEntries(kmap, i + 1));
  }

  lemma RangeShort(mem: seq<Page>, n0: nat, n: nat, pd: nat, kmap: seq<Range>, i: nat)
    requires i < |kmap| && Built(mem, n0, n, pd, RangeEntries(kmap, i))
    requires n < |Missing(mem, pd, kmap[i].start, kmap[i].start + kmap[i].n)|
    ensures n0 < 1 + |RangeEntries(kmap, i + 1)|
  {
    assert Joins(RangeEntries(kmap, i + 1), RangeEntries(kmap, i), EntriesOf(kmap[i])) by { RangeEntriesMore(kmap, i); }
    TablesShort(mem, n0, n, pd, RangeEntries(kmap, i), kmap[i], RangeEntries(kmap, i + 1));
  }

  /** Range k of pd is mapped up to page `to`, the rest of pd is as in m0, and only tables were paid for. */
  ghost predicate MappedTo(m0: seq<Page>, u0: seq<Use>, n0: nat, mem: seq<Page>, use: seq<Use>, n: nat,
                           pd: nat, k: Range, to: nat) {
    && Grown(m0, u0, mem, use, pd) && pd < |m0| && Paid(m0, mem, n0, n, pd, k.start, to, 0)
    && forall v: nat {:trigger Lookup(mem, pd, v)} ::
         Lookup(mem, pd, v) == if k.start <= v < to then RangePte(k, v) else Lookup(m0, pd, v)
  }

  /** The first i ranges of kmap are mapped in the new directory pd, out of n0 pages that were free. */
  ghost predicate KernelTo(m0: seq<Page>, u0: seq<Use>, n0: nat, mem: seq<Page>, use: seq<Use>, n: nat,
                           pd: nat, kmap: seq<Range>, i: nat)
    requires i <= |kmap|
  {
    && NewSpace(m0, u0, mem, use, pd) && Built(mem, n0, n, pd, RangeEntries(kmap, i))
    && forall v: nat {:trigger Lookup(mem, pd, v)} :: KernelPte(kmap[..i], v, Lookup(mem, pd, v))
  }

  lemma KernelToNext(m0: seq<Page>, u0: seq<Use>, n0: nat, m1: seq<Page>, u1: seq<Use>, n1: nat,
                     m2: seq<Page>, u2: seq<Use>, n2: nat, pd: nat, kmap: seq<Range>, i: nat)
    requires KmapOk(kmap) && i < |kmap| && KernelTo(m0, u0, n0, m1, u1, n1, pd, kmap, i)
    requires MappedTo(m1, u1, n1, m2, u2, n2, pd, kmap[i], kmap[i].start + kmap[i].n)
    ensures KernelTo(m0, u0, n0, m2, u2, n2, pd, kmap, i + 1)
  {
    NewSpaceGrows(m0, u0, m1, u1, m2, u2, pd);
    RangeBuilt(m1, m2, n0, n1, n2, pd, kmap, i);
    forall v: nat ensures KernelPte(kmap[..i + 1], v, Lookup(m2, pd, v)) {
      assert KernelPte(kmap[..i], v, Lookup(m1, pd, v));
      MoreKernel(kmap, i, v, Lookup(m1, pd, v), Lookup(m2, pd, v));
    }
  }

  // ---------------------------------------------------------------- copyuvm

  /** What a copy of n pages takes. */
  function CopyCost(n: nat): nat {
    KERNEL_PAGES + n + TablesFor(n)
  }

  lemma CopyCostGrows(v: nat, w: nat)
    requires v <= w
    ensures CopyCost(v) <= CopyCost(w) && (v < w ==> CopyCost(v + 1) <= CopyCost(w))
  {
  }

  /** The new address space has no table below KERNBASE to begin with. */
  lemma MissingBelow(mem: seq<Page>, d: nat, v: nat)
    requires d < |mem| && v <= USER && forall e: nat {:trigger Pde(mem, d, e)} :: e < 512 ==> !Pde(mem, d, e).flags.p
    ensures |Missing(mem, d, 0, v)| == TablesFor(v)
  {
    EntriesFromZero(v);
    assert Missing(mem, d, 0, v) == Entries(0, v);
  }

  /** Every page below n is mapped. */
  ghost predicate Whole(mem: seq<Page>, pd: nat, n: nat)
    requires pd < |mem|
  {
    forall y: nat {:trigger Lookup(mem, pd, y)} :: y < n ==> Lookup(mem, pd, y).flags.p
  }

  /** The first hole is at y, and there is memory to get there. */
  ghost predicate HoleAt(mem: seq<Page>, n: nat, pd: nat, y: nat)
    requires pd < |mem|
  {
    !Lookup(mem, pd, y).flags.p && Whole(mem, pd, y) && CopyCost(y) <= n
  }

  ghost predicate HoleMet(mem: seq<Page>, n: nat, pd: nat, pages: nat)
    requires pd < |mem|
  {
    exists y: nat {:trigger HoleAt(mem, n, pd, y)} :: y < pages && HoleAt(mem, n, pd, y)
  }

  /** Out of memory at page v, before any hole. */
  lemma CopyShortAt(mem: seq<Page>, n: nat, pd: nat, v: nat, pages: nat)
    requires pd < |mem| && v < pages && Whole(mem, pd, v + 1) && n < CopyCost(v + 1)
    ensures n < CopyCost(pages) && !HoleMet(mem, n, pd, pages)
  {
    CopyCostGrows(v, pages);
    forall y: nat | y < pages ensures !HoleAt(mem, n, pd, y) {
      if y > v {
        CopyCostGrows(v, y);
      }
    }
  }

  /** Not even the kernel's part fits. */
  lemma CopyShort(mem: seq<Page>, n: nat, pd: nat, pages: nat)
    requires pd < |mem| && n < KERNEL_PAGES
    ensures n < CopyCost(pages) && !HoleMet(mem, n, pd, pages)
  {
  }
}
