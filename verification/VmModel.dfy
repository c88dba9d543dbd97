/**
  Two-level page tables over the page allocator (vm.c, kalloc.c). Physical memory is a sequence of
  pages of 1024 words; a page directory and a page table are pages like any other. Each page has
  one use, and the invariant ties the uses to what the tables in memory say, both ways.
*/
module VmModel {

  /** The bits of an entry that the kernel looks at. */
  datatype Flags = Flags(p: bool, w: bool, u: bool)

  datatype Pte = Pte(ppn: nat, flags: Flags)

  const ABSENT := Pte(0, Flags(false, false, false))

  type Page = x: seq<Pte> | |x| == 1024 witness seq(1024, _ => ABSENT)

  const ZERO: Page := seq(1024, _ => ABSENT)

  predicate Zeroed(page: Page) {
    forall i :: 0 <= i < 1024 ==> page[i] == ABSENT
  }

  /** What kfree leaves in a page: bytes of value 1. */
  const JUNK: Page := seq(1024, _ => Pte(0x1010, Flags(true, false, false)))

  const PWU := Flags(true, true, true)

  const USER := 0x80000        // KERNBASE in pages
  const TOP := 0x100000        // the end of virtual memory in pages

  /** What a physical page is used for. Kernel pages are the image, stacks, pipes, and pages on
      their way from one use to another. */
  datatype Use = Free | Kernel | Dir | Table(pd: nat, d: nat) | User(pd: nat, v: nat)

  function Pde(mem: seq<Page>, pd: nat, d: nat): Pte
    requires pd < |mem|
  {
    if d < 1024 then mem[pd][d] else ABSENT
  }

  /** The entry that maps page v of the address space pd. */
  function Lookup(mem: seq<Page>, pd: nat, v: nat): Pte
    requires pd < |mem|
  {
    var e := Pde(mem, pd, v / 1024);
    if e.flags.p && e.ppn < |mem| then mem[e.ppn][v % 1024] else ABSENT
  }

  ghost predicate PdeOk(mem: seq<Page>, use: seq<Use>, pd: nat, d: nat)
    requires pd < |mem| == |use|
  {
    Pde(mem, pd, d).flags.p ==> Pde(mem, pd, d).ppn < |mem| && use[Pde(mem, pd, d).ppn] == Table(pd, d)
  }

  ghost predicate PteOk(mem: seq<Page>, use: seq<Use>, pd: nat, v: nat)
    requires pd < |mem| == |use|
  {
    v < USER && Lookup(mem, pd, v).flags.p ==>
      Lookup(mem, pd, v).ppn < |mem| && use[Lookup(mem, pd, v).ppn] == User(pd, v)
  }

  ghost predicate UseOk(mem: seq<Page>, use: seq<Use>, q: nat)
    requires q < |mem| == |use|
  {
    match use[q]
    case Table(pd, d) => pd < |mem| && use[pd] == Dir && d < 1024 && Pde(mem, pd, d).flags.p && Pde(mem, pd, d).ppn == q
    case User(pd, v) =>
      pd < |mem| && use[pd] == Dir && v < USER && Lookup(mem, pd, v).flags.p && Lookup(mem, pd, v).ppn == q
    case _ => true
  }

  ghost predicate IsDir(use: seq<Use>, pd: nat) {
    pd < |use| && use[pd] == Dir
  }

  /** The uses are exactly those the tables in memory make: a page table for one directory entry,
      a user page for one mapping. */
  ghost predicate Tables(mem: seq<Page>, use: seq<Use>) {
    && |use| == |mem|
    && (forall pd: nat, d: nat {:trigger PdeOk(mem, use, pd, d)} :: IsDir(use, pd) ==> PdeOk(mem, use, pd, d))
    && (forall pd: nat, v: nat {:trigger PteOk(mem, use, pd, v)} :: IsDir(use, pd) ==> PteOk(mem, use, pd, v))
    && (forall q: nat {:trigger UseOk(mem, use, q)} :: q < |mem| ==> UseOk(mem, use, q))
  }

  /** The free list holds exactly the free pages, each once. */
  ghost predicate FreeList(free: seq<nat>, use: seq<Use>) {
    && (forall i, j :: 0 <= i < j < |free| ==> free[i] != free[j])
    && (forall q: nat :: q in free <==> q < |use| && use[q] == Free)
  }

  // ---------------------------------------------------------------- what one write changes

  /** All address spaces look the same. */
  ghost predicate SameLookups(mem: seq<Page>, now: seq<Page>, use: seq<Use>) {
    && |now| == |mem| == |use|
    && (forall pd: nat, d: nat {:trigger Pde(now, pd, d)} :: IsDir(use, pd) ==> Pde(now, pd, d) == Pde(mem, pd, d))
    && (forall pd: nat, v: nat {:trigger Lookup(now, pd, v)} ::
         IsDir(use, pd) ==> Lookup(now, pd, v) == Lookup(mem, pd, v))
  }

  /** Writing a page that is neither a directory nor a table changes no address space. */
  lemma PlainWrite(mem: seq<Page>, use: seq<Use>, q: nat, page: Page)
    requires Tables(mem, use) && q < |mem| && !use[q].Dir? && !use[q].Table?
    ensures SameLookups(mem, mem[q := page], use)
  {
    var now := mem[q := page];
    forall pd: nat, d: nat | IsDir(use, pd) ensures Pde(now, pd, d) == Pde(mem, pd, d) {
    }
    forall pd: nat, v: nat | IsDir(use, pd) ensures Lookup(now, pd, v) == Lookup(mem, pd, v) {
      assert PdeOk(mem, use, pd, v / 1024);
    }
  }

  /** And the uses stay right, also when the page itself changes between free and kernel use. */
  lemma PlainKeepsTables(mem: seq<Page>, use: seq<Use>, q: nat, page: Page, u: Use)
    requires Tables(mem, use) && q < |mem| && (use[q].Free? || use[q].Kernel?) && (u.Free? || u.Kernel?)
    ensures Tables(mem[q := page], use[q := u])
  {
    var now, uses := mem[q := page], use[q := u];
    PlainWrite(mem, use, q, page);
    forall pd: nat, d: nat | IsDir(uses, pd) ensures PdeOk(now, uses, pd, d) {
      assert PdeOk(mem, use, pd, d) && Pde(now, pd, d) == Pde(mem, pd, d);
    }
    forall pd: nat, v: nat | IsDir(uses, pd) ensures PteOk(now, uses, pd, v) {
      assert PteOk(mem, use, pd, v) && Lookup(now, pd, v) == Lookup(mem, pd, v);
    }
    forall r: nat | r < |now| ensures UseOk(now, uses, r) {
      assert UseOk(mem, use, r);
    }
  }

  /** Lookups are the same but for page v of pd, which is now e, and directories are the same. */
  ghost predicate OneLookup(mem: seq<Page>, now: seq<Page>, use: seq<Use>, pd: nat, v: nat, e: Pte) {
    && |now| == |mem| == |use|
    && (forall x: nat, d: nat {:trigger Pde(now, x, d)} :: IsDir(use, x) ==> Pde(now, x, d) == Pde(mem, x, d))
    && (forall x: nat, y: nat {:trigger Lookup(now, x, y)} :: IsDir(use, x) ==>
          Lookup(now, x, y) == if x == pd && y == v then e else Lookup(mem, x, y))
  }

  /** The page table that serves page v of pd. */
  function TableOf(mem: seq<Page>, pd: nat, v: nat): nat
    requires pd < |mem|
  {
    Pde(mem, pd, v / 1024).ppn
  }

  ghost predicate HasTable(mem: seq<Page>, pd: nat, v: nat) {
    pd < |mem| && Pde(mem, pd, v / 1024).flags.p && TableOf(mem, pd, v) < |mem|
  }

  function WritePte(mem: seq<Page>, t: nat, v: nat, e: Pte): seq<Page>
    requires t < |mem|
  {
    mem[t := mem[t][v % 1024 := e]]
  }

  /** Writing one entry of a page table changes that entry's address space at one page. */
  lemma PteWrite(mem: seq<Page>, use: seq<Use>, pd: nat, v: nat, e: Pte)
    requires Tables(mem, use) && IsDir(use, pd) && HasTable(mem, pd, v)
    ensures OneLookup(mem, WritePte(mem, TableOf(mem, pd, v), v, e), use, pd, v, e)
  {
    var t := TableOf(mem, pd, v);
    var now := WritePte(mem, t, v, e);
    assert PdeOk(mem, use, pd, v / 1024);
    forall x: nat, y: nat | IsDir(use, x)
      ensures Lookup(now, x, y) == if x == pd && y == v then e else Lookup(mem, x, y)
    {
      assert PdeOk(mem, use, x, y / 1024);
      SamePage(v, y);
    }
  }

  lemma SamePage(v: nat, y: nat)
    ensures v / 1024 == y / 1024 && v % 1024 == y % 1024 ==> v == y
  {
  }

  /** A kernel page becomes the user page at v. */
  lemma MapUser(mem: seq<Page>, use: seq<Use>, pd: nat, v: nat, e: Pte)
    requires Tables(mem, use) && IsDir(use, pd) && HasTable(mem, pd, v) && !Lookup(mem, pd, v).flags.p && v < USER
    requires e.flags.p && e.ppn < |mem| && use[e.ppn] == Kernel
    ensures Tables(WritePte(mem, TableOf(mem, pd, v), v, e), use[e.ppn := User(pd, v)])
  {
    var now, uses := WritePte(mem, TableOf(mem, pd, v), v, e), use[e.ppn := User(pd, v)];
    PteWrite(mem, use, pd, v, e);
    forall x: nat, d: nat | IsDir(uses, x) ensures PdeOk(now, uses, x, d) {
      assert PdeOk(mem, use, x, d) && Pde(now, x, d) == Pde(mem, x, d);
    }
    forall x: nat, y: nat | IsDir(uses, x) ensures PteOk(now, uses, x, y) {
      assert PteOk(mem, use, x, y) && Lookup(now, x, y) == if x == pd && y == v then e else Lookup(mem, x, y);
    }
    forall q: nat | q < |now| ensures UseOk(now, uses, q) {
      assert UseOk(mem, use, q);
    }
  }

  /** An entry of the kernel's part of an address space owns nothing. */
  lemma MapKernel(mem: seq<Page>, use: seq<Use>, pd: nat, v: nat, e: Pte)
    requires Tables(mem, use) && IsDir(use, pd) && HasTable(mem, pd, v) && v >= USER
    ensures Tables(WritePte(mem, TableOf(mem, pd, v), v, e), use)
  {
    var now := WritePte(mem, TableOf(mem, pd, v), v, e);
    PteWrite(mem, use, pd, v, e);
    forall x: nat, d: nat | IsDir(use, x) ensures PdeOk(now, use, x, d) {
      assert PdeOk(mem, use, x, d) && Pde(now, x, d) == Pde(mem, x, d);
    }
    forall x: nat, y: nat | IsDir(use, x) ensures PteOk(now, use, x, y) {
      assert PteOk(mem, use, x, y);
      assert y < USER ==> Lookup(now, x, y) == Lookup(mem, x, y);
    }
    forall q: nat | q < |now| ensures UseOk(now, use, q) {
      assert UseOk(mem, use, q);
    }
  }

  /** The user page at v becomes a kernel page again. */
  lemma UnmapUser(mem: seq<Page>, use: seq<Use>, pd: nat, v: nat)
    requires Tables(mem, use) && IsDir(use, pd) && HasTable(mem, pd, v) && Lookup(mem, pd, v).flags.p && v < USER
    requires Lookup(mem, pd, v).ppn < |mem|
    ensures Tables(WritePte(mem, TableOf(mem, pd, v), v, ABSENT), use[Lookup(mem, pd, v).ppn := Kernel])
  {
    var p := Lookup(mem, pd, v).ppn;
    var now, uses := WritePte(mem, TableOf(mem, pd, v), v, ABSENT), use[p := Kernel];
    PteWrite(mem, use, pd, v, ABSENT);
    assert PteOk(mem, use, pd, v);
    forall x: nat, d: nat | IsDir(uses, x) ensures PdeOk(now, uses, x, d) {
      assert PdeOk(mem, use, x, d) && Pde(now, x, d) == Pde(mem, x, d);
    }
    forall x: nat, y: nat | IsDir(uses, x) ensures PteOk(now, uses, x, y) {
      assert PteOk(mem, use, x, y) && Lookup(now, x, y) == if x == pd && y == v then ABSENT else Lookup(mem, x, y);
    }
    forall q: nat | q < |now| ensures UseOk(now, uses, q) {
      assert UseOk(mem, use, q);
    }
  }

  /** kfree of a mapped user page followed by the clearing of its entry. */
  lemma FreeUser(mem: seq<Page>, use: seq<Use>, pd: nat, v: nat)
    requires Tables(mem, use) && IsDir(use, pd) && HasTable(mem, pd, v) && Lookup(mem, pd, v).flags.p && v < USER
    ensures var p, t := Lookup(mem, pd, v).ppn, TableOf(mem, pd, v);
      && p < |mem| && use[p] == User(pd, v) && p != t
      && Tables(WritePte(mem[p := JUNK], t, v, ABSENT), use[p := Free])
      && OneLookup(mem, WritePte(mem[p := JUNK], t, v, ABSENT), use, pd, v, ABSENT)
  {
    var p, t := Lookup(mem, pd, v).ppn, TableOf(mem, pd, v);
    assert PteOk(mem, use, pd, v) && PdeOk(mem, use, pd, v / 1024);
    var mid := WritePte(mem, t, v, ABSENT);
    UnmapUser(mem, use, pd, v);
    PteWrite(mem, use, pd, v, ABSENT);
    PlainKeepsTables(mid, use[p := Kernel], p, JUNK, Free);
    PlainWrite(mid, use[p := Kernel], p, JUNK);
    assert mid[p := JUNK] == WritePte(mem[p := JUNK], t, v, ABSENT);
    assert use[p := Kernel][p := Free] == use[p := Free];
    assert forall x: nat :: IsDir(use, x) ==> IsDir(use[p := Kernel], x);
  }

  /** Every address space maps what it mapped; page tables may have been added. */
  ghost predicate SameViews(mem: seq<Page>, now: seq<Page>, use: seq<Use>) {
    && |now| == |mem| == |use|
    && (forall x: nat, y: nat {:trigger Lookup(now, x, y)} :: IsDir(use, x) ==> Lookup(now, x, y) == Lookup(mem, x, y))
    && (forall x: nat, d: nat {:trigger Pde(now, x, d)} ::
         IsDir(use, x) && Pde(mem, x, d).flags.p ==> Pde(now, x, d) == Pde(mem, x, d))
  }

  /** A zeroed kernel page becomes the page table of entry d. */
  lemma AddTable(mem: seq<Page>, use: seq<Use>, pd: nat, d: nat, p: nat, flags: Flags)
    requires Tables(mem, use) && IsDir(use, pd) && d < 1024 && !Pde(mem, pd, d).flags.p
    requires p < |mem| && use[p] == Kernel && mem[p] == ZERO && flags.p
    ensures var now := mem[pd := mem[pd][d := Pte(p, flags)]];
      Tables(now, use[p := Table(pd, d)]) && SameViews(mem, now, use)
  {
    var now, uses := mem[pd := mem[pd][d := Pte(p, flags)]], use[p := Table(pd, d)];
    forall x: nat, e: nat | IsDir(use, x)
      ensures Pde(now, x, e) == if x == pd && e == d then Pte(p, flags) else Pde(mem, x, e)
    {
    }
    forall x: nat, y: nat | IsDir(use, x) ensures Lookup(now, x, y) == Lookup(mem, x, y) {
      assert PdeOk(mem, use, x, y / 1024);
      assert Pde(now, x, y / 1024) == if x == pd && y / 1024 == d then Pte(p, flags) else Pde(mem, x, y / 1024);
    }
    forall x: nat, e: nat | IsDir(uses, x) ensures PdeOk(now, uses, x, e) {
      assert PdeOk(mem, use, x, e) && Pde(now, x, e) == if x == pd && e == d then Pte(p, flags) else Pde(mem, x, e);
    }
    forall x: nat, y: nat | IsDir(uses, x) ensures PteOk(now, uses, x, y) {
      assert PteOk(mem, use, x, y) && Lookup(now, x, y) == Lookup(mem, x, y);
    }
    forall q: nat | q < |now| ensures UseOk(now, uses, q) {
      assert UseOk(mem, use, q);
    }
  }

  /** A zeroed kernel page becomes an empty address space. */
  lemma AddDir(mem: seq<Page>, use: seq<Use>, p: nat)
    requires Tables(mem, use) && p < |mem| && use[p] == Kernel && mem[p] == ZERO
    ensures Tables(mem, use[p := Dir]) && forall v: nat :: Lookup(mem, p, v) == ABSENT
  {
    var uses := use[p := Dir];
    assert forall d: nat :: Pde(mem, p, d) == ABSENT;
    forall x: nat, d: nat | IsDir(uses, x) ensures PdeOk(mem, uses, x, d) {
      assert x != p ==> PdeOk(mem, use, x, d);
    }
    forall x: nat, y: nat | IsDir(uses, x) ensures PteOk(mem, uses, x, y) {
      assert x != p ==> PteOk(mem, use, x, y);
    }
    forall q: nat | q < |mem| ensures UseOk(mem, uses, q) {
      assert UseOk(mem, use, q);
    }
  }

  /** The uses once the address space pd is given up: its directory and tables are kernel pages. */
  function Disowned(use: seq<Use>, pd: nat): (r: seq<Use>)
    ensures |r| == |use|
    ensures forall q :: 0 <= q < |use| ==>
      r[q] == if q == pd || (use[q].Table? && use[q].pd == pd) then Kernel else use[q]
  {
    seq(|use|, q requires 0 <= q < |use| => if q == pd || (use[q].Table? && use[q].pd == pd) then Kernel else use[q])
  }

  /** An address space without user pages can be given up. */
  lemma DropDir(mem: seq<Page>, use: seq<Use>, pd: nat)
    requires Tables(mem, use) && IsDir(use, pd) && forall v: nat :: v < USER ==> !Lookup(mem, pd, v).flags.p
    ensures Tables(mem, Disowned(use, pd))
    ensures forall q: nat :: q < |use| && use[q].User? ==> use[q].pd != pd
  {
    var uses := Disowned(use, pd);
    forall q: nat | q < |use| && use[q].User? ensures use[q].pd != pd {
      assert UseOk(mem, use, q);
    }
    forall x: nat, d: nat | IsDir(uses, x) ensures PdeOk(mem, uses, x, d) {
      assert PdeOk(mem, use, x, d);
    }
    forall x: nat, y: nat | IsDir(uses, x) ensures PteOk(mem, uses, x, y) {
      assert PteOk(mem, use, x, y);
    }
    forall q: nat | q < |mem| ensures UseOk(mem, uses, q) {
      assert UseOk(mem, use, q);
    }
  }

  // ---------------------------------------------------------------- the free list

  lemma FreePop(free: seq<nat>, use: seq<Use>)
    requires FreeList(free, use) && free != []
    ensures free[0] < |use| && use[free[0]] == Free && FreeList(free[1..], use[free[0] := Kernel])
  {
    assert free[0] in free;
    assert forall i :: 0 < i < |free| ==> free[i] in free[1..];
    assert forall q: nat :: q in free <==> q == free[0] || q in free[1..];
  }

  lemma FreePush(free: seq<nat>, use: seq<Use>, p: nat)
    requires FreeList(free, use) && p < |use| && use[p] != Free
    ensures FreeList([p] + free, use[p := Free])
  {
  }

  lemma FreeSame(free: seq<nat>, use: seq<Use>, now: seq<Use>)
    requires FreeList(free, use) && |now| == |use|
    requires forall q: nat :: q < |use| ==> (now[q] == Free <==> use[q] == Free)
    ensures FreeList(free, now)
  {
  }

  // ---------------------------------------------------------------- what it means

  /** Each physical page is free or has exactly one use: two different places never share a page, no
      place uses a free page, and every page in use is used by the place its use names. */
  lemma OneUse(mem: seq<Page>, use: seq<Use>, free: seq<nat>, x: nat, v: nat, y: nat, w: nat)
    requires Tables(mem, use) && FreeList(free, use) && IsDir(use, x) && IsDir(use, y)
    requires v < USER && w < USER && Lookup(mem, x, v).flags.p
    ensures Lookup(mem, x, v).ppn !in free
    ensures Lookup(mem, y, w).flags.p && Lookup(mem, x, v).ppn == Lookup(mem, y, w).ppn ==> x == y && v == w
    ensures Pde(mem, y, w / 1024).flags.p ==> Pde(mem, y, w / 1024).ppn != Lookup(mem, x, v).ppn
    ensures Lookup(mem, x, v).ppn != y
  {
    assert PteOk(mem, use, x, v) && PteOk(mem, use, y, w) && PdeOk(mem, use, y, w / 1024);
  }

  // ---------------------------------------------------------------- work on one address space

  /** Page q belongs to the address space pd. */
  predicate Mine(u: Use, q: nat, pd: nat) {
    q == pd || (u.Table? && u.pd == pd) || (u.User? && u.pd == pd)
  }

  /** User pages lo up to hi of pd are gone and free, and nothing else has changed. */
  ghost predicate Removed(mem: seq<Page>, use: seq<Use>, now: seq<Page>, uses: seq<Use>, pd: nat, lo: nat, hi: nat) {
    && |mem| == |use| == |now| == |uses|
    && (forall x: nat, d: nat {:trigger Pde(now, x, d)} :: IsDir(use, x) ==> Pde(now, x, d) == Pde(mem, x, d))
    && (forall x: nat, v: nat {:trigger Lookup(now, x, v)} :: IsDir(use, x) ==>
          if x == pd && lo <= v < hi then !Lookup(now, x, v).flags.p else Lookup(now, x, v) == Lookup(mem, x, v))
    && (forall q: nat {:trigger uses[q]} :: q < |use| ==>
          uses[q] == if use[q].User? && use[q].pd == pd && lo <= use[q].v < hi then Free else use[q])
    && (forall q: nat {:trigger now[q]} :: q < |use| && (uses[q].User? || uses[q].Kernel?) ==> now[q] == mem[q])
  }

  /** Freeing page v extends the removed range by one. */
  lemma RemoveNext(m0: seq<Page>, u0: seq<Use>, mem: seq<Page>, use: seq<Use>, pd: nat, lo: nat, v: nat)
    requires Removed(m0, u0, mem, use, pd, lo, v) && Tables(m0, u0) && Tables(mem, use) && IsDir(use, pd)
    requires HasTable(mem, pd, v) && Lookup(mem, pd, v).flags.p && lo <= v < USER
    ensures var p, t := Lookup(mem, pd, v).ppn, TableOf(mem, pd, v);
      && p < |mem| && p != t && use[p] == User(pd, v)
      && Removed(m0, u0, WritePte(mem[p := JUNK], t, v, ABSENT), use[p := Free], pd, lo, v + 1)
  {
    FreeUser(mem, use, pd, v);
    var p, t := Lookup(mem, pd, v).ppn, TableOf(mem, pd, v);
    var now, uses := WritePte(mem[p := JUNK], t, v, ABSENT), use[p := Free];
    forall x: nat, d: nat | IsDir(u0, x) ensures Pde(now, x, d) == Pde(m0, x, d) {
      assert use[x] == u0[x];
      assert Pde(now, x, d) == Pde(mem, x, d) && Pde(mem, x, d) == Pde(m0, x, d);
    }
    forall x: nat, y: nat | IsDir(u0, x)
      ensures if x == pd && lo <= y < v + 1 then !Lookup(now, x, y).flags.p else Lookup(now, x, y) == Lookup(m0, x, y)
    {
      assert use[x] == u0[x];
      assert Lookup(now, x, y) == if x == pd && y == v then ABSENT else Lookup(mem, x, y);
      assert Lookup(mem, x, y) == Lookup(m0, x, y) || (x == pd && lo <= y < v);
    }
    forall q: nat | q < |u0|
      ensures uses[q] == if u0[q].User? && u0[q].pd == pd && lo <= u0[q].v < v + 1 then Free else u0[q]
    {
      assert use[q] == if u0[q].User? && u0[q].pd == pd && lo <= u0[q].v < v then Free else u0[q];
      assert UseOk(mem, use, q);
    }
    forall q: nat | q < |u0| && (uses[q].User? || uses[q].Kernel?) ensures now[q] == m0[q] {
      assert PdeOk(mem, use, pd, v / 1024);
      assert use[q] == uses[q] && mem[q] == m0[q];
    }
  }

  /** So does passing over pages that are not mapped. */
  lemma RemoveNone(m0: seq<Page>, u0: seq<Use>, mem: seq<Page>, use: seq<Use>, pd: nat, lo: nat, v: nat, w: nat)
    requires Removed(m0, u0, mem, use, pd, lo, v) && Tables(m0, u0) && Tables(mem, use) && IsDir(use, pd)
    requires lo <= v <= w <= USER
    requires forall y: nat {:trigger Lookup(mem, pd, y)} :: v <= y < w ==> !Lookup(mem, pd, y).flags.p
    ensures Removed(m0, u0, mem, use, pd, lo, w)
  {
    forall q: nat | q < |u0|
      ensures use[q] == if u0[q].User? && u0[q].pd == pd && lo <= u0[q].v < w then Free else u0[q]
    {
      assert use[q] == if u0[q].User? && u0[q].pd == pd && lo <= u0[q].v < v then Free else u0[q];
      assert UseOk(mem, use, q);
    }
    forall x: nat, y: nat | IsDir(u0, x)
      ensures if x == pd && lo <= y < w then !Lookup(mem, x, y).flags.p else Lookup(mem, x, y) == Lookup(m0, x, y)
    {
      assert Lookup(mem, x, y) == Lookup(m0, x, y) || (x == pd && lo <= y < v);
    }
  }

  /** pd has only gained: every page in use keeps its use and contents, free pages stay free or
      become pd's, and the other address spaces look the same. */
  ghost predicate Grown(mem: seq<Page>, use: seq<Use>, now: seq<Page>, uses: seq<Use>, pd: nat) {
    && |mem| == |use| == |now| == |uses|
    && (forall q: nat {:trigger uses[q]} :: q < |use| && use[q] != Free ==>
          uses[q] == use[q] && (use[q].User? || use[q].Kernel? ==> now[q] == mem[q]))
    && (forall q: nat {:trigger uses[q]} :: q < |use| && use[q] == Free ==> uses[q] == Free || Mine(uses[q], q, pd))
    && (forall x: nat, v: nat {:trigger Lookup(now, x, v)} ::
         IsDir(use, x) && x != pd ==> Lookup(now, x, v) == Lookup(mem, x, v))
  }

  lemma GrownTrans(m0: seq<Page>, u0: seq<Use>, m1: seq<Page>, u1: seq<Use>, m2: seq<Page>, u2: seq<Use>, pd: nat)
    requires Grown(m0, u0, m1, u1, pd) && Grown(m1, u1, m2, u2, pd)
    ensures Grown(m0, u0, m2, u2, pd)
  {
    forall q: nat | q < |u0| && u0[q] != Free
      ensures u2[q] == u0[q] && (u0[q].User? || u0[q].Kernel? ==> m2[q] == m0[q])
    {
      assert u1[q] == u0[q];
    }
    forall q: nat | q < |u0| && u0[q] == Free ensures u2[q] == Free || Mine(u2[q], q, pd) {
      assert u1[q] == Free || (Mine(u1[q], q, pd) && u2[q] == u1[q]);
    }
    forall x: nat, v: nat | IsDir(u0, x) && x != pd ensures Lookup(m2, x, v) == Lookup(m0, x, v) {
      assert u1[x] == u0[x];
      assert Lookup(m2, x, v) == Lookup(m1, x, v) && Lookup(m1, x, v) == Lookup(m0, x, v);
    }
  }

  /** One entry of pd is new, for a kernel page or for none of the allocator's; a page table may have
      been added for it. */
  ghost predicate Mapped(mem: seq<Page>, use: seq<Use>, now: seq<Page>, uses: seq<Use>, pd: nat, v: nat, e: Pte) {
    && |mem| == |use| == |now| == |uses|
    && (forall x: nat, y: nat {:trigger Lookup(now, x, y)} :: IsDir(use, x) ==>
          Lookup(now, x, y) == if x == pd && y == v then e else Lookup(mem, x, y))
    && (forall q: nat {:trigger uses[q]} :: q < |use| ==>
          if v < USER && q == e.ppn then uses[q] == User(pd, v)
          else uses[q] == use[q] || (use[q] == Free && uses[q] == Table(pd, v / 1024)))
    && (forall q: nat {:trigger now[q]} :: q < |use| && (use[q].User? || use[q].Kernel?) ==> now[q] == mem[q])
  }

  /** A page taken from the free list, filled and mapped: pd has grown by that page. */
  lemma MappedGrows(m0: seq<Page>, u0: seq<Use>, p: nat, page: Page, m1: seq<Page>, u1: seq<Use>, pd: nat, v: nat,
                    e: Pte)
    requires Tables(m0, u0) && IsDir(u0, pd) && p < |m0| && u0[p] == Free && v < USER && e.ppn == p
    requires Mapped(m0[p := page], u0[p := Kernel], m1, u1, pd, v, e)
    ensures Grown(m0, u0, m1, u1, pd) && m1[p] == page && u1[p] == User(pd, v)
    ensures forall y: nat {:trigger Lookup(m1, pd, y)} :: Lookup(m1, pd, y) == if y == v then e else Lookup(m0, pd, y)
  {
    PlainWrite(m0, u0, p, page);
    var mid, uses := m0[p := page], u0[p := Kernel];
    forall x: nat, y: nat | IsDir(u0, x) ensures Lookup(m1, x, y) == if x == pd && y == v then e else Lookup(m0, x, y) {
      assert IsDir(uses, x);
      assert Lookup(mid, x, y) == Lookup(m0, x, y);
    }
    forall q: nat | q < |u0| && u0[q] != Free
      ensures u1[q] == u0[q] && (u0[q].User? || u0[q].Kernel? ==> m1[q] == m0[q])
    {
      assert uses[q] == u0[q] && mid[q] == m0[q];
    }
    forall q: nat | q < |u0| && u0[q] == Free ensures u1[q] == Free || Mine(u1[q], q, pd) {
      assert q != p ==> uses[q] == u0[q];
    }
    assert uses[p] == Kernel && mid[p] == page;
  }

  /** Growth inside a range and then the removal of the whole range: the range is empty, everything
      else is as before, and at most some page tables are new. */
  lemma GrownRemoved(m0: seq<Page>, u0: seq<Use>, m1: seq<Page>, u1: seq<Use>, m2: seq<Page>, u2: seq<Use>,
                     pd: nat, lo: nat, hi: nat)
    requires Tables(m0, u0) && Tables(m1, u1) && IsDir(u0, pd)
    requires Grown(m0, u0, m1, u1, pd) && Removed(m1, u1, m2, u2, pd, lo, hi)
    requires forall y: nat {:trigger Lookup(m1, pd, y)} :: !(lo <= y < hi) ==> Lookup(m1, pd, y) == Lookup(m0, pd, y)
    ensures Trimmed(m0, u0, m2, u2, pd, lo, hi)
  {
    forall x: nat, y: nat | IsDir(u0, x)
      ensures if x == pd && lo <= y < hi then !Lookup(m2, x, y).flags.p else Lookup(m2, x, y) == Lookup(m0, x, y)
    {
      assert u1[x] == u0[x];
      assert if x == pd && lo <= y < hi then !Lookup(m2, x, y).flags.p else Lookup(m2, x, y) == Lookup(m1, x, y);
      assert x != pd ==> Lookup(m1, x, y) == Lookup(m0, x, y);
      assert !(lo <= y < hi) ==> Lookup(m1, pd, y) == Lookup(m0, pd, y);
    }
    forall q: nat | q < |u0| ensures TrimmedUse(m0, u0, m2, u2, pd, lo, hi, q) {
      assert UseOk(m0, u0, q) && UseOk(m1, u1, q);
      assert u2[q] == if u1[q].User? && u1[q].pd == pd && lo <= u1[q].v < hi then Free else u1[q];
      if u0[q] == Free && u1[q].User? {
        assert PteOk(m0, u0, pd, u1[q].v);
      }
    }
  }

  ghost predicate TrimmedUse(mem: seq<Page>, use: seq<Use>, now: seq<Page>, uses: seq<Use>, pd: nat, lo: nat, hi: nat,
                             q: nat)
    requires q < |mem| == |use| == |now| == |uses|
  {
    if use[q] == Free then uses[q] == Free || (uses[q].Table? && uses[q].pd == pd)
    else if use[q].User? && use[q].pd == pd && lo <= use[q].v < hi then uses[q] == Free
    else uses[q] == use[q] && (use[q].User? || use[q].Kernel? ==> now[q] == mem[q])
  }

  /** User pages lo up to hi of pd are gone; everything else is as before, but for new page tables. */
  ghost predicate Trimmed(mem: seq<Page>, use: seq<Use>, now: seq<Page>, uses: seq<Use>, pd: nat, lo: nat, hi: nat) {
    && |mem| == |use| == |now| == |uses|
    && (forall x: nat, y: nat {:trigger Lookup(now, x, y)} :: IsDir(use, x) ==>
          if x == pd && lo <= y < hi then !Lookup(now, x, y).flags.p else Lookup(now, x, y) == Lookup(mem, x, y))
    && (forall q: nat {:trigger TrimmedUse(mem, use, now, uses, pd, lo, hi, q)} :: q < |use| ==>
          TrimmedUse(mem, use, now, uses, pd, lo, hi, q))
  }

  /** Emptying a range leaves the mappings as they were exactly if nothing was mapped in it. */
  lemma TrimmedRestores(m0: seq<Page>, u0: seq<Use>, m2: seq<Page>, u2: seq<Use>, pd: nat, lo: nat, hi: nat)
    requires Tables(m0, u0) && IsDir(u0, pd) && Trimmed(m0, u0, m2, u2, pd, lo, hi)
    ensures Restored(m0, u0, m2, u2, pd) <==> Unmapped(m0, pd, lo, hi)
  {
    if Unmapped(m0, pd, lo, hi) {
      forall q: nat | q < |u0| ensures RestoredUse(m0, u0, m2, u2, pd, q) {
        assert UseOk(m0, u0, q) && TrimmedUse(m0, u0, m2, u2, pd, lo, hi, q);
      }
    } else {
      var y: nat :| lo <= y < hi && Lookup(m0, pd, y).flags.p;
      assert !Lookup(m2, pd, y).flags.p;
    }
  }

  /** No page from lo up to hi of pd is mapped. */
  ghost predicate Unmapped(mem: seq<Page>, pd: nat, lo: nat, hi: nat)
    requires pd < |mem|
  {
    forall y: nat {:trigger Lookup(mem, pd, y)} :: lo <= y < hi ==> !Lookup(mem, pd, y).flags.p
  }

  ghost predicate RestoredUse(mem: seq<Page>, use: seq<Use>, now: seq<Page>, uses: seq<Use>, pd: nat, q: nat)
    requires q < |mem| == |use| == |now| == |uses|
  {
    if use[q] == Free then uses[q] == Free || (uses[q].Table? && uses[q].pd == pd)
    else uses[q] == use[q] && (use[q].User? || use[q].Kernel? ==> now[q] == mem[q])
  }

  /** The same mappings with the same contents; only page tables of pd may be new. */
  ghost predicate Restored(mem: seq<Page>, use: seq<Use>, now: seq<Page>, uses: seq<Use>, pd: nat) {
    && |mem| == |use| == |now| == |uses|
    && (forall x: nat, y: nat {:trigger Lookup(now, x, y)} :: IsDir(use, x) ==>
          Lookup(now, x, y) == Lookup(mem, x, y) || (!Lookup(now, x, y).flags.p && !Lookup(mem, x, y).flags.p))
    && (forall q: nat {:trigger RestoredUse(mem, use, now, uses, pd, q)} ::
         q < |use| ==> RestoredUse(mem, use, now, uses, pd, q))
  }

  /** Removing with one page set aside and then freeing it is removing without it. */
  lemma BackoutRemoved(m1: seq<Page>, u1: seq<Use>, p: nat, m3: seq<Page>, u3: seq<Use>, now: seq<Page>,
                       uses: seq<Use>, pd: nat, lo: nat, hi: nat)
    requires Tables(m1, u1) && p < |m1| && u1[p] == Free && Removed(m1[p := ZERO], u1[p := Kernel], m3, u3, pd, lo, hi)
    requires |u3| == |m3| && p < |m3| && now == m3[p := JUNK] && uses == u3[p := Free] && SameLookups(m3, now, u3)
    ensures Removed(m1, u1, now, uses, pd, lo, hi)
  {
    var m2, u2 := m1[p := ZERO], u1[p := Kernel];
    PlainWrite(m1, u1, p, ZERO);
    forall x: nat, d: nat | IsDir(u1, x) ensures Pde(now, x, d) == Pde(m1, x, d) {
      assert IsDir(u2, x) && u3[x] == u2[x];
      assert Pde(m3, x, d) == Pde(m2, x, d) && Pde(m2, x, d) == Pde(m1, x, d);
    }
    forall x: nat, v: nat | IsDir(u1, x)
      ensures if x == pd && lo <= v < hi then !Lookup(now, x, v).flags.p else Lookup(now, x, v) == Lookup(m1, x, v)
    {
      assert IsDir(u2, x) && u3[x] == u2[x];
      assert Lookup(now, x, v) == Lookup(m3, x, v) && Lookup(m2, x, v) == Lookup(m1, x, v);
    }
    forall q: nat | q < |u1|
      ensures uses[q] == if u1[q].User? && u1[q].pd == pd && lo <= u1[q].v < hi then Free else u1[q]
    {
      assert q != p ==> u2[q] == u1[q];
      assert q != p ==> u3[q] == if u2[q].User? && u2[q].pd == pd && lo <= u2[q].v < hi then Free else u2[q];
    }
    forall q: nat | q < |u1| && (uses[q].User? || uses[q].Kernel?) ensures now[q] == m1[q] {
      assert q != p && u3[q] == uses[q] && m3[q] == m2[q];
    }
  }

  /** Page y of pd is a page that was free, zeroed and writable by the user. */
  ghost predicate NewPage(use: seq<Use>, now: seq<Page>, e: Pte) {
    e.flags == PWU && e.ppn < |now| == |use| && use[e.ppn] == Free && Zeroed(now[e.ppn])
  }

  /** Pages lo up to v of pd are new, the rest of the address space is as before, and nobody else has
      noticed. */
  ghost predicate Added(mem: seq<Page>, use: seq<Use>, now: seq<Page>, uses: seq<Use>, pd: nat, lo: nat, v: nat) {
    && IsDir(use, pd) && Grown(mem, use, now, uses, pd)
    && (forall y: nat {:trigger Lookup(now, pd, y)} ::
          if lo <= y < v then NewPage(use, now, Lookup(now, pd, y)) else Lookup(now, pd, y) == Lookup(mem, pd, y))
  }

  lemma AddNext(m0: seq<Page>, u0: seq<Use>, m1: seq<Page>, u1: seq<Use>, m2: seq<Page>, u2: seq<Use>, pd: nat,
                lo: nat, v: nat, p: nat)
    requires Added(m0, u0, m1, u1, pd, lo, v) && Tables(m1, u1) && lo <= v < USER && p < |u1| && u1[p] == Free
    requires Mapped(m1[p := ZERO], u1[p := Kernel], m2, u2, pd, v, Pte(p, PWU))
    ensures Added(m0, u0, m2, u2, pd, lo, v + 1)
  {
    assert u1[pd] == u0[pd];
    MappedGrows(m1, u1, p, ZERO, m2, u2, pd, v, Pte(p, PWU));
    GrownTrans(m0, u0, m1, u1, m2, u2, pd);
    forall y: nat
      ensures if lo <= y < v + 1 then NewPage(u0, m2, Lookup(m2, pd, y)) else Lookup(m2, pd, y) == Lookup(m0, pd, y)
    {
      assert Lookup(m2, pd, y) == if y == v then Pte(p, PWU) else Lookup(m1, pd, y);
      if y == v {
        assert u0[p] == Free;
      } else if lo <= y < v {
        var e := Lookup(m1, pd, y);
        assert NewPage(u0, m1, e);
        assert PteOk(m1, u1, pd, y);
        assert u2[e.ppn] == u1[e.ppn] && m2[e.ppn] == m1[e.ppn];
      }
    }
  }

  // ---------------------------------------------------------------- giving an address space up

  /** Every page of pd is free; the others have their use and contents, and the other address spaces
      look the same. */
  ghost predicate Freed(mem: seq<Page>, use: seq<Use>, now: seq<Page>, uses: seq<Use>, pd: nat) {
    && |mem| == |use| == |now| == |uses|
    && (forall q: nat {:trigger uses[q]} :: q < |use| ==> uses[q] == if Mine(use[q], q, pd) then Free else use[q])
    && (forall q: nat {:trigger now[q]} :: q < |use| && (uses[q].User? || uses[q].Kernel?) ==> now[q] == mem[q])
    && (forall x: nat, v: nat {:trigger Lookup(now, x, v)} :: IsDir(uses, x) ==> Lookup(now, x, v) == Lookup(mem, x, v))
  }

  /** freevm's loop: the tables of the entries below i are free, pd and the other tables are kernel
      pages. */
  ghost predicate FreedTo(mem: seq<Page>, use: seq<Use>, now: seq<Page>, uses: seq<Use>, pd: nat, i: nat) {
    && |mem| == |use| == |now| == |uses| && IsDir(use, pd) && now[pd] == mem[pd]
    && (forall q: nat {:trigger uses[q]} :: q < |use| ==>
          uses[q] == if q == pd then Kernel
                     else if use[q].Table? && use[q].pd == pd then (if use[q].d < i then Free else Kernel) else use[q])
    && (forall q: nat {:trigger now[q]} :: q < |use| && (use[q].User? || use[q].Kernel?) ==> now[q] == mem[q])
    && (forall x: nat, v: nat {:trigger Lookup(now, x, v)} :: IsDir(uses, x) ==> Lookup(now, x, v) == Lookup(mem, x, v))
  }

  lemma FreedNext(m1: seq<Page>, u1: seq<Use>, m2: seq<Page>, u2: seq<Use>, now: seq<Page>, uses: seq<Use>, pd: nat,
                  i: nat)
    requires Tables(m1, u1) && FreedTo(m1, u1, m2, u2, pd, i) && i < 1024 && Pde(m1, pd, i).flags.p
    requires var p := Pde(m1, pd, i).ppn;
      p < |m1| && now == m2[p := JUNK] && uses == u2[p := Free] && SameLookups(m2, now, u2)
    ensures FreedTo(m1, u1, now, uses, pd, i + 1)
  {
    var p := Pde(m1, pd, i).ppn;
    assert PdeOk(m1, u1, pd, i);
    forall q: nat | q < |u1|
      ensures uses[q] ==
        if q == pd then Kernel
        else if u1[q].Table? && u1[q].pd == pd then (if u1[q].d < i + 1 then Free else Kernel) else u1[q]
    {
      assert UseOk(m1, u1, q);
      assert q != p ==> uses[q] == u2[q];
    }
    forall x: nat, v: nat | IsDir(uses, x) ensures Lookup(now, x, v) == Lookup(m1, x, v) {
      assert IsDir(u2, x);
      assert Lookup(now, x, v) == Lookup(m2, x, v) && Lookup(m2, x, v) == Lookup(m1, x, v);
    }
    forall q: nat | q < |u1| && (u1[q].User? || u1[q].Kernel?) ensures now[q] == m1[q] {
      assert m2[q] == m1[q];
    }
  }

  /** The parts of freevm together. */
  lemma FreedAll(m0: seq<Page>, u0: seq<Use>, m1: seq<Page>, u1: seq<Use>, m3: seq<Page>, u3: seq<Use>, now: seq<Page>,
                 uses: seq<Use>, pd: nat)
    requires Tables(m0, u0) && Tables(m1, u1) && Removed(m0, u0, m1, u1, pd, 0, USER)
    requires FreedTo(m1, u1, m3, u3, pd, 1024)
    requires IsDir(u0, pd) && pd < |m3| && now == m3[pd := JUNK] && uses == u3[pd := Free] && SameLookups(m3, now, u3)
    ensures Freed(m0, u0, now, uses, pd)
  {
    forall q: nat | q < |u0| ensures uses[q] == if Mine(u0[q], q, pd) then Free else u0[q] {
      assert UseOk(m0, u0, q) && UseOk(m1, u1, q);
      assert u1[q] == if u0[q].User? && u0[q].pd == pd && 0 <= u0[q].v < USER then Free else u0[q];
      assert q != pd ==> uses[q] == u3[q];
    }
    forall x: nat, v: nat | IsDir(uses, x) ensures Lookup(now, x, v) == Lookup(m0, x, v) {
      assert x != pd && IsDir(u3, x) && u1[x] == u3[x] && u0[x] == u1[x];
      assert Lookup(now, x, v) == Lookup(m3, x, v) && Lookup(m3, x, v) == Lookup(m1, x, v);
      assert Lookup(m1, x, v) == Lookup(m0, x, v);
    }
    forall q: nat | q < |u0| && (uses[q].User? || uses[q].Kernel?) ensures now[q] == m0[q] {
      assert q != pd && uses[q] == u3[q] && u3[q] == u1[q];
      assert m3[q] == m1[q] && m1[q] == m0[q];
    }
  }

  // ---------------------------------------------------------------- the kernel's part

  /** An entry of kmap: n pages from start on, at physical page phys. */
  datatype Range = Range(start: nat, n: nat, phys: nat, writable: bool)

  predicate InRange(k: Range, v: nat) {
    k.start <= v < k.start + k.n
  }

  function RangePte(k: Range, v: nat): Pte
    requires k.start <= v
  {
    Pte(k.phys + (v - k.start), Flags(true, k.writable, false))
  }

  ghost predicate KmapOk(kmap: seq<Range>) {
    && (forall i :: 0 <= i < |kmap| ==> USER <= kmap[i].start && kmap[i].start + kmap[i].n <= TOP)
    && (forall i, j, v: nat {:trigger InRange(kmap[i], v), InRange(kmap[j], v)} ::
          0 <= i < j < |kmap| ==> !(InRange(kmap[i], v) && InRange(kmap[j], v)))
  }

  /** The kernel's ranges as vm.c lays them out, with the start of its data at page data. */
  function Kmap(data: nat): seq<Range>
    requires 0x100 < data < 0xE000
  {
    [Range(0x80000, 0x100, 0, true), Range(0x80100, data - 0x100, 0x100, false),
     Range(0x80000 + data, 0xE000 - data, data, true), Range(0xFE000, 0x2000, 0xFE000, true)]
  }

  lemma KernelLayout(data: nat)
    requires 0x100 < data < 0xE000
    ensures KmapOk(Kmap(data))
  {
  }

  /** What page v is in the kernel's part: the entry of the range it is in, or nothing. */
  ghost predicate KernelPte(kmap: seq<Range>, v: nat, e: Pte) {
    && (forall i :: 0 <= i < |kmap| && InRange(kmap[i], v) ==> e == RangePte(kmap[i], v))
    && ((forall i :: 0 <= i < |kmap| ==> !InRange(kmap[i], v)) ==> !e.flags.p)
  }

  lemma NotYet(kmap: seq<Range>, i: nat)
    requires KmapOk(kmap) && i < |kmap|
    ensures forall v: nat, e: Pte {:trigger KernelPte(kmap[..i], v, e)} ::
      InRange(kmap[i], v) && KernelPte(kmap[..i], v, e) ==> !e.flags.p
  {
    forall v: nat, e: Pte | InRange(kmap[i], v) && KernelPte(kmap[..i], v, e) ensures !e.flags.p {
      assert forall j :: 0 <= j < i ==> !(InRange(kmap[j], v) && InRange(kmap[i], v));
    }
  }

  lemma MoreKernel(kmap: seq<Range>, i: nat, v: nat, e: Pte, now: Pte)
    requires KmapOk(kmap) && i < |kmap| && KernelPte(kmap[..i], v, e)
    requires now == if InRange(kmap[i], v) then RangePte(kmap[i], v) else e
    ensures KernelPte(kmap[..i + 1], v, now)
  {
    var more := kmap[..i + 1];
    assert forall j :: 0 <= j < i ==> more[j] == kmap[..i][j];
    assert forall j :: 0 <= j < i ==> !(InRange(kmap[j], v) && InRange(kmap[i], v));
    assert more[i] == kmap[i];
  }

  lemma KernelGrows(mem: seq<Page>, use: seq<Use>, now: seq<Page>, uses: seq<Use>, pd: nat, v: nat, e: Pte)
    requires Mapped(mem, use, now, uses, pd, v, e) && v >= USER
    ensures Grown(mem, use, now, uses, pd)
  {
  }

  // ---------------------------------------------------------------- a new address space

  /** pd is a new address space, made of pages that were free. */
  ghost predicate NewSpace(mem: seq<Page>, use: seq<Use>, now: seq<Page>, uses: seq<Use>, pd: nat) {
    IsDir(uses, pd) && pd < |use| && use[pd] == Free && Grown(mem, use, now, uses, pd)
  }

  lemma NewSpaceGrows(m0: seq<Page>, u0: seq<Use>, m1: seq<Page>, u1: seq<Use>, m2: seq<Page>, u2: seq<Use>, pd: nat)
    requires NewSpace(m0, u0, m1, u1, pd) && Grown(m1, u1, m2, u2, pd)
    ensures NewSpace(m0, u0, m2, u2, pd)
  {
    GrownTrans(m0, u0, m1, u1, m2, u2, pd);
    assert u2[pd] == u1[pd];
  }

  /** Every page has its use and contents, and every address space looks the same. */
  ghost predicate Untouched(mem: seq<Page>, use: seq<Use>, now: seq<Page>, uses: seq<Use>) {
    && |now| == |mem| == |use| && uses == use
    && (forall q: nat {:trigger now[q]} :: q < |use| && (use[q].User? || use[q].Kernel?) ==> now[q] == mem[q])
    && (forall x: nat, v: nat {:trigger Lookup(now, x, v)} :: IsDir(use, x) ==> Lookup(now, x, v) == Lookup(mem, x, v))
  }

  /** Building an address space and then giving it up leaves no trace. */
  lemma NewSpaceFreed(m0: seq<Page>, u0: seq<Use>, m1: seq<Page>, u1: seq<Use>, m2: seq<Page>, u2: seq<Use>, pd: nat)
    requires Tables(m0, u0) && NewSpace(m0, u0, m1, u1, pd) && Freed(m1, u1, m2, u2, pd)
    ensures Untouched(m0, u0, m2, u2)
  {
    forall q: nat | q < |u0| ensures u2[q] == u0[q] {
      assert UseOk(m0, u0, q);
      assert u2[q] == if Mine(u1[q], q, pd) then Free else u1[q];
    }
    assert u2 == u0;
    forall q: nat | q < |u0| && (u0[q].User? || u0[q].Kernel?) ensures m2[q] == m0[q] {
      assert u1[q] == u0[q] && u2[q] == u0[q];
      assert m1[q] == m0[q];
    }
    forall x: nat, v: nat | IsDir(u0, x) ensures Lookup(m2, x, v) == Lookup(m0, x, v) {
      assert u1[x] == u0[x] && u2[x] == u0[x];
      assert Lookup(m2, x, v) == Lookup(m1, x, v) && Lookup(m1, x, v) == Lookup(m0, x, v);
    }
  }

  // ---------------------------------------------------------------- copying an address space

  /** An entry with the flags of was and a page of its own with the same contents. */
  ghost predicate Copied(mem: seq<Page>, use: seq<Use>, now: seq<Page>, was: Pte, e: Pte)
    requires |mem| == |use| == |now|
  {
    && e.flags == was.flags && was.flags.p && e.ppn < |now| && use[e.ppn] == Free
    && was.ppn < |mem| && now[e.ppn] == mem[was.ppn]
  }

  /** User pages below v of pd are copied into d, and d has no others. */
  ghost predicate CopiedTo(mem: seq<Page>, use: seq<Use>, now: seq<Page>, pd: nat, d: nat, v: nat) {
    && |mem| == |use| == |now| && pd < |mem| && d < |mem|
    && (forall y: nat {:trigger Lookup(now, d, y)} :: y < USER ==>
          if y < v then Copied(mem, use, now, Lookup(mem, pd, y), Lookup(now, d, y)) else !Lookup(now, d, y).flags.p)
  }

  /** The parent's page v is as it was. */
  lemma ParentSame(m0: seq<Page>, u0: seq<Use>, m1: seq<Page>, u1: seq<Use>, pd: nat, d: nat, v: nat)
    requires Tables(m0, u0) && Tables(m1, u1) && NewSpace(m0, u0, m1, u1, d) && IsDir(u0, pd) && v < USER
    ensures IsDir(u1, pd) && Lookup(m1, pd, v) == Lookup(m0, pd, v)
    ensures Lookup(m0, pd, v).flags.p ==>
      var q := Lookup(m1, pd, v).ppn; HasTable(m1, pd, v) && q < |m1| && u1[q] == User(pd, v) && m1[q] == m0[q]
  {
    assert u1[pd] == u0[pd];
    assert Lookup(m1, pd, v) == Lookup(m0, pd, v);
    if Lookup(m0, pd, v).flags.p {
      assert PteOk(m0, u0, pd, v);
      var q := Lookup(m0, pd, v).ppn;
      assert u1[q] == u0[q];
    }
  }

  lemma CopyNext(m0: seq<Page>, u0: seq<Use>, m1: seq<Page>, u1: seq<Use>, m2: seq<Page>, u2: seq<Use>, pd: nat,
                 d: nat, v: nat, p: nat)
    requires Tables(m0, u0) && Tables(m1, u1) && NewSpace(m0, u0, m1, u1, d) && CopiedTo(m0, u0, m1, pd, d, v)
    requires v < USER
    requires p < |u1| && u1[p] == Free && Lookup(m0, pd, v).ppn < |m0| && Lookup(m0, pd, v).flags.p
    requires Mapped(m1[p := m0[Lookup(m0, pd, v).ppn]], u1[p := Kernel], m2, u2, d, v, Pte(p, Lookup(m0, pd, v).flags))
    ensures NewSpace(m0, u0, m2, u2, d) && CopiedTo(m0, u0, m2, pd, d, v + 1)
    ensures forall y: nat {:trigger Lookup(m2, d, y)} :: y >= USER ==> Lookup(m2, d, y) == Lookup(m1, d, y)
  {
    var e := Pte(p, Lookup(m0, pd, v).flags);
    MappedGrows(m1, u1, p, m0[Lookup(m0, pd, v).ppn], m2, u2, d, v, e);
    NewSpaceGrows(m0, u0, m1, u1, m2, u2, d);
    forall y: nat | y < USER
      ensures if y < v + 1 then Copied(m0, u0, m2, Lookup(m0, pd, y), Lookup(m2, d, y)) else !Lookup(m2, d, y).flags.p
    {
      assert Lookup(m2, d, y) == if y == v then e else Lookup(m1, d, y);
      if y == v {
        assert u0[p] == Free;
      } else if y < v {
        var f := Lookup(m1, d, y);
        assert Copied(m0, u0, m1, Lookup(m0, pd, y), f);
        assert PteOk(m1, u1, d, y);
        assert u2[f.ppn] == u1[f.ppn] && m2[f.ppn] == m1[f.ppn];
      }
    }
  }

  /** A page taken, filled and given back. */
  lemma GaveBack(mem: seq<Page>, use: seq<Use>, p: nat, page: Page, now: seq<Page>, uses: seq<Use>)
    requires Tables(mem, use) && p < |mem| && use[p] == Free
    requires now == mem[p := page][p := JUNK] && uses == use[p := Kernel][p := Free]
    ensures Untouched(mem, use, now, uses)
  {
    assert now == mem[p := JUNK] && uses == use;
    PlainWrite(mem, use, p, JUNK);
  }

  lemma UntouchedSpace(m0: seq<Page>, u0: seq<Use>, m1: seq<Page>, u1: seq<Use>, m2: seq<Page>, u2: seq<Use>, pd: nat)
    requires NewSpace(m0, u0, m1, u1, pd) && Untouched(m1, u1, m2, u2)
    ensures NewSpace(m0, u0, m2, u2, pd)
  {
    assert Grown(m1, u1, m2, u2, pd);
    NewSpaceGrows(m0, u0, m1, u1, m2, u2, pd);
  }
}
