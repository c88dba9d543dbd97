/** The page allocator of kalloc.c and the address-space operations of vm.c on physical memory. */
module VmCode {
  import opened Common
  import opened VmModel
  import opened VmCount

  /** PGROUNDUP in pages: how many pages it takes to hold sz bytes. */
  function Pages(sz: nat): nat {
    (sz + 4095) / 4096
  }

  /** They reach just as far as the bytes do: page v is one of them exactly if it starts below address sz. */
  lemma PagesHold(sz: nat, v: nat)
    ensures sz <= 4096 * Pages(sz) < sz + 4096 && (v < Pages(sz) <==> 4096 * v < sz)
  {
  }

  /** The hardware's way from an address to its entry: ten bits for the directory, ten for the table. */
  lemma Translates(mem: seq<Page>, pd: nat, a: nat)
    requires pd < |mem| && a < UINT
    ensures var e := mem[pd][a / 0x40_0000];
      e.flags.p && e.ppn < |mem| ==> Lookup(mem, pd, a / 4096) == mem[e.ppn][a / 0x1000 % 0x400]
    ensures !mem[pd][a / 0x40_0000].flags.p ==> !Lookup(mem, pd, a / 4096).flags.p
  {
    assert a / 4096 / 1024 == a / 0x40_0000;
  }

  /** What is mapped at page v of the kernel's part, whose data begin at page data: everything up to PHYSTOP and
      the devices, nothing for the user, and the text not writable. */
  predicate KernelView(data: nat, v: nat, e: Pte) {
    if 0x8_0000 <= v < 0x8_0100 then e == Pte(v - 0x8_0000, Flags(true, true, false))
    else if 0x8_0100 <= v < 0x8_0000 + data then e == Pte(v - 0x8_0000, Flags(true, false, false))
    else if 0x8_0000 + data <= v < 0x8_E000 then e == Pte(v - 0x8_0000, Flags(true, true, false))
    else if 0xF_E000 <= v < 0x10_0000 then e == Pte(v, Flags(true, true, false))
    else !e.flags.p
  }

  lemma KernelViewIs(data: nat, v: nat, e: Pte)
    requires 0x100 < data < 0xE000 && v >= USER && KernelPte(Kmap(data), v, e)
    ensures KernelView(data, v, e)
  {
    var kmap := Kmap(data);
    assert InRange(kmap[0], v) <==> 0x8_0000 <= v < 0x8_0100;
    assert InRange(kmap[1], v) <==> 0x8_0100 <= v < 0x8_0000 + data;
    assert InRange(kmap[2], v) <==> 0x8_0000 + data <= v < 0x8_E000;
    assert InRange(kmap[3], v) <==> 0xF_E000 <= v < 0x10_0000;
  }

  lemma KernelViews(mem: seq<Page>, pd: nat, data: nat)
    requires pd < |mem| && 0x100 < data < 0xE000
    requires forall v: nat {:trigger Lookup(mem, pd, v)} :: KernelPte(Kmap(data), v, Lookup(mem, pd, v))
    ensures forall v: nat {:trigger Lookup(mem, pd, v)} :: v >= USER ==> KernelView(data, v, Lookup(mem, pd, v))
  {
    forall v: nat {:trigger Lookup(mem, pd, v)} | v >= USER ensures KernelView(data, v, Lookup(mem, pd, v)) {
      KernelViewIs(data, v, Lookup(mem, pd, v));
    }
  }

  /** A page that the user may read and write, which was free and holds zeros. */
  ghost predicate FreshZeros(use: seq<Use>, mem: seq<Page>, e: Pte) {
    && e.flags.p && e.flags.w && e.flags.u && e.ppn < |use| == |mem| && use[e.ppn] == Free
    && forall w :: 0 <= w < 1024 ==> mem[e.ppn][w] == Pte(0, Flags(false, false, false))
  }

  /** The pages below first hold the kernel image. */
  ghost predicate Image(first: nat, use: seq<Use>) {
    0 < first <= |use| && forall q: nat {:trigger use[q]} :: q < first ==> use[q] == Kernel
  }

  class Vm {
    const first: nat               // the page behind the kernel image
    var mem: seq<Page>
    var free: seq<nat>
    ghost var use: seq<Use>

    ghost predicate Valid()
      reads this
    {
      Tables(mem, use) && FreeList(free, use) && Image(first, use)
    }

    method Kalloc() returns (ok: bool, p: nat)
      requires Valid()
      modifies `free, `use
      ensures Valid() && (ok <==> old(free) != [])
      ensures ok ==> first <= p < |mem| && p == old(free)[0] && old(use)[p] == Free
      ensures ok ==> free == old(free)[1..] && use == old(use)[p := Kernel]
      ensures !ok ==> free == old(free) && use == old(use)
    {
      if free == [] {
        return false, 0;
      }
      FreePop(free, use);
      p := free[0];
      PlainKeepsTables(mem, use, p, mem[p], Kernel);
      assert mem[p := mem[p]] == mem;
      free := free[1..];
      use := use[p := Kernel];
      ok := true;
    }

    /** kfree: panics on a page of the kernel image and on one that there is not. */
    method Kfree(p: nat) returns (r: Outcome<()>)
      requires Valid() && (p < |mem| ==> use[p] == Kernel)
      modifies this
      ensures r.Panic? <==> p < first || p >= |old(mem)|
      ensures r.Done? ==> Valid() && mem == old(mem)[p := JUNK] && free == [p] + old(free) && use == old(use)[p := Free]
      ensures r.Done? ==> SameLookups(old(mem), mem, old(use))
    {
      if p < first || p >= |mem| {
        return Panic;
      }
      r := Done(());
      PlainWrite(mem, use, p, JUNK);
      PlainKeepsTables(mem, use, p, JUNK, Free);
      FreePush(free, use, p);
      mem := mem[p := JUNK];
      free := [p] + free;
      use := use[p := Free];
    }

    /** memset and memmove on a page that is not part of any table. */
    method Fill(p: nat, page: Page)
      requires Valid() && p < |mem| && use[p] == Kernel
      modifies `mem
      ensures Valid() && mem == old(mem)[p := page] && SameLookups(old(mem), mem, use)
    {
      PlainWrite(mem, use, p, page);
      PlainKeepsTables(mem, use, p, page, Kernel);
      assert use[p := Kernel] == use;
      mem := mem[p := page];
    }

    /** walkpgdir: true if there is a page table for v, with one added if asked for. */
    method Walkpgdir(pd: nat, v: nat, alloc: bool) returns (ok: bool)
      requires Valid() && IsDir(use, pd) && v < TOP
      modifies this
      ensures Valid() && (ok <==> HasTable(mem, pd, v)) && SameViews(old(mem), mem, old(use))
      ensures ok <==> old(Pde(mem, pd, v / 1024)).flags.p || (alloc && old(free) != [])
      ensures !ok || old(Pde(mem, pd, v / 1024)).flags.p ==> mem == old(mem) && free == old(free) && use == old(use)
      ensures ok && !old(Pde(mem, pd, v / 1024)).flags.p ==> |free| + 1 == |old(free)|
      ensures ok ==> TableAt(old(mem), mem, pd, v / 1024)
      ensures ok && !old(Pde(mem, pd, v / 1024)).flags.p ==> Pde(mem, pd, v / 1024).flags == PWU
      ensures |use| == |old(use)| && forall q: nat {:trigger use[q]} :: q < |use| ==>
        use[q] == old(use)[q] || (old(use)[q] == Free && use[q] == Table(pd, v / 1024))
      ensures forall q: nat {:trigger mem[q]} :: q < |use| && (old(use)[q].User? || old(use)[q].Kernel?) ==>
        mem[q] == old(mem)[q]
    {
      var d := v / 1024;
      assert PdeOk(mem, use, pd, d);
      if mem[pd][d].flags.p {
        return true;
      }
      if !alloc {
        return false;
      }
      var p;
      ok, p := Kalloc();
      if !ok {
        return;
      }
      Fill(p, ZERO);
      AddTable(mem, use, pd, d, p, PWU);
      FreeSame(free, use, use[p := Table(pd, d)]);
      assert forall x: nat :: IsDir(old(use), x) ==> IsDir(use, x);
      mem := mem[pd := mem[pd][d := Pte(p, PWU)]];
      use := use[p := Table(pd, d)];
    }

    /** One turn of mappages' loop: panics exactly on a page that is mapped already. */
    method MapOne(pd: nat, v: nat, e: Pte) returns (r: Outcome<bool>)
      requires Valid() && IsDir(use, pd) && v < TOP && e.flags.p
      requires v < USER ==> first <= e.ppn < |mem| && use[e.ppn] == Kernel
      modifies this
      ensures r.Panic? <==> old(Lookup(mem, pd, v)).flags.p
      ensures r.Done? ==> Valid()
      ensures r == Done(false) ==> mem == old(mem) && free == old(free) && use == old(use)
      ensures r == Done(false) ==> free == [] && !Pde(mem, pd, v / 1024).flags.p
      ensures r == Done(true) ==> Mapped(old(mem), old(use), mem, use, pd, v, e) && TableAt(old(mem), mem, pd, v / 1024)
      ensures r == Done(true) ==> |old(free)| == |free| + if old(Pde(mem, pd, v / 1024)).flags.p then 0 else 1
    {
      var ok := Walkpgdir(pd, v, true);
      assert Lookup(mem, pd, v) == old(Lookup(mem, pd, v));
      if !ok {
        return Done(false);
      }
      ghost var m1, u1 := mem, use;
      var t := mem[pd][v / 1024].ppn;
      if mem[t][v % 1024].flags.p {
        return Panic;
      }
      PteWrite(mem, use, pd, v, e);
      if v < USER {
        MapUser(mem, use, pd, v, e);
        FreeSame(free, use, use[e.ppn := User(pd, v)]);
        use := use[e.ppn := User(pd, v)];
      } else {
        MapKernel(mem, use, pd, v, e);
      }
      mem := mem[t := mem[t][v % 1024 := e]];
      assert PdeOk(m1, u1, pd, v / 1024);
      forall x: nat, y: nat | IsDir(old(use), x)
        ensures Lookup(mem, x, y) == if x == pd && y == v then e else Lookup(old(mem), x, y)
      {
        assert Lookup(m1, x, y) == Lookup(old(mem), x, y);
      }
      return Done(true);
    }

    /** deallocuvm. Whole directory entries without a table are stepped over. */
    method Deallocuvm(pd: nat, oldsz: nat, newsz: nat) returns (r: nat)
      requires Valid() && IsDir(use, pd) && oldsz <= 0x8000_0000
      modifies this
      ensures Valid() && r == if newsz >= oldsz then oldsz else newsz
      ensures newsz >= oldsz ==> mem == old(mem) && use == old(use) && free == old(free)
      ensures newsz < oldsz ==> Removed(old(mem), old(use), mem, use, pd, Pages(newsz), Pages(oldsz))
      ensures newsz < oldsz ==> forall v: nat {:trigger Lookup(mem, pd, v)} ::
        if newsz <= 4096 * v < oldsz then !Lookup(mem, pd, v).flags.p
        else Lookup(mem, pd, v) == Lookup(old(mem), pd, v)
    {
      if newsz >= oldsz {
        return oldsz;
      }
      var lo, hi := Pages(newsz), Pages(oldsz);
      var v := lo;
      while v < hi
        invariant Valid() && IsDir(use, pd) && lo <= v && lo <= hi <= USER
        invariant Removed(old(mem), old(use), mem, use, pd, lo, if v < hi then v else hi)
        decreases hi - v
      {
        var ok := Walkpgdir(pd, v, false);
        if !ok {
          var next := (v / 1024 + 1) * 1024;
          var to := if next < hi then next else hi;
          assert forall y: nat :: v <= y < next ==> y / 1024 == v / 1024;
          assert PdeOk(mem, use, pd, v / 1024);
          RemoveNone(old(mem), old(use), mem, use, pd, lo, v, to);
          v := next;
        } else {
          var t := mem[pd][v / 1024].ppn;
          var e := mem[t][v % 1024];
          if e.flags.p {
            assert PteOk(mem, use, pd, v);
            assert e.ppn != 0;   // the "kfree" panic cannot happen
            RemoveNext(old(mem), old(use), mem, use, pd, lo, v);
            FreeMapped(pd, t, v, e.ppn);
          } else {
            RemoveNone(old(mem), old(use), mem, use, pd, lo, v, v + 1);
          }
          v := v + 1;
        }
      }
      return newsz;
    }

    /** kfree of the page at v, then the entry is cleared. */
    method FreeMapped(pd: nat, t: nat, v: nat, p: nat)
      requires Valid() && IsDir(use, pd) && HasTable(mem, pd, v) && t == TableOf(mem, pd, v) && v < USER
      requires Lookup(mem, pd, v).flags.p && p == Lookup(mem, pd, v).ppn
      modifies this
      ensures p < |old(mem)| && mem == WritePte(old(mem)[p := JUNK], t, v, ABSENT) && free == [p] + old(free)
      ensures use == old(use)[p := Free]
      ensures Valid()
    {
      FreeUser(mem, use, pd, v);
      FreePush(free, use, p);
      mem := mem[p := JUNK];
      free := [p] + free;
      use := use[p := Free];
      mem := mem[t := mem[t][v % 1024 := ABSENT]];
    }

    /** allocuvm. It succeeds exactly if nothing is mapped from oldsz up to newsz and there is memory for
        the pages and the page tables that are missing; then those pages are new, zeroed and writable. It
        panics exactly if it meets a mapped page with memory left. Otherwise the range is empty and every
        other mapping and its contents are as before; by TrimmedRestores that is the state before the call
        exactly if nothing was mapped there. */
    method Allocuvm(pd: nat, oldsz: nat, newsz: nat) returns (r: Outcome<nat>)
      requires Valid() && IsDir(use, pd)
      modifies this
      ensures newsz >= 0x8000_0000 ==> r == Done(0)
      ensures newsz < oldsz && newsz < 0x8000_0000 ==> r == Done(oldsz)
      ensures newsz >= 0x8000_0000 || newsz < oldsz ==> mem == old(mem) && use == old(use) && free == old(free)
      ensures r.Done? ==> Valid()
      ensures oldsz <= newsz < 0x8000_0000 ==>
        var lo, hi, n := Pages(oldsz), Pages(newsz), |old(free)|;
        if Fits(old(mem), n, pd, lo, hi) then
          && r == Done(newsz) && Added(old(mem), old(use), mem, use, pd, lo, hi)
          && |free| + Cost(old(mem), pd, lo, hi) == n
        else if Meets(old(mem), n, pd, lo, hi) then r == Panic
        else r == Done(0) && Trimmed(old(mem), old(use), mem, use, pd, lo, hi)
      ensures oldsz <= newsz < 0x8000_0000 && r.Done? ==> forall v: nat {:trigger Lookup(mem, pd, v)} ::
        if !(oldsz <= 4096 * v < newsz) then Lookup(mem, pd, v) == Lookup(old(mem), pd, v)
        else if r.value == newsz then FreshZeros(old(use), mem, Lookup(mem, pd, v))
        else !Lookup(mem, pd, v).flags.p
    {
      if newsz >= 0x8000_0000 {
        return Done(0);
      }
      if newsz < oldsz {
        return Done(oldsz);
      }
      var lo, hi := Pages(oldsz), Pages(newsz);
      ghost var n := |free|;
      var v := lo;
      while v < hi
        invariant Valid() && lo <= v <= hi <= USER && Added(old(mem), old(use), mem, use, pd, lo, v)
        invariant Unmapped(old(mem), pd, lo, v) && Paid(old(mem), mem, n, |free|, pd, lo, v, v - lo)
      {
        var done := AllocOne(pd, v, oldsz, newsz, old(mem), old(use), n);
        if done.Panic? {
          return Panic;
        }
        if !done.value {
          return Done(0);
        }
        v := v + 1;
      }
      return Done(newsz);
    }

    /** One turn of allocuvm's loop; what it does when memory is out included. */
    method AllocOne(pd: nat, v: nat, oldsz: nat, newsz: nat, ghost m0: seq<Page>, ghost u0: seq<Use>, ghost n: nat)
      returns (r: Outcome<bool>)
      requires Valid() && oldsz <= newsz < 0x8000_0000 && Pages(oldsz) <= v < Pages(newsz)
      requires Tables(m0, u0) && Added(m0, u0, mem, use, pd, Pages(oldsz), v) && Unmapped(m0, pd, Pages(oldsz), v)
      requires Paid(m0, mem, n, |free|, pd, Pages(oldsz), v, v - Pages(oldsz))
      modifies this
      ensures r.Panic? ==> MeetsAt(m0, n, pd, Pages(oldsz), v)
      ensures r.Done? ==> Valid()
      ensures r == Done(false) ==> Trimmed(m0, u0, mem, use, pd, Pages(oldsz), Pages(newsz))
      ensures r == Done(false) ==>
        !Fits(m0, n, pd, Pages(oldsz), Pages(newsz)) && !Meets(m0, n, pd, Pages(oldsz), Pages(newsz))
      ensures r == Done(true) ==> Added(m0, u0, mem, use, pd, Pages(oldsz), v + 1)
      ensures r == Done(true) ==> Unmapped(m0, pd, Pages(oldsz), v + 1)
      ensures r == Done(true) ==> Paid(m0, mem, n, |free|, pd, Pages(oldsz), v + 1, v + 1 - Pages(oldsz))
    {
      var lo, hi := Pages(oldsz), Pages(newsz);
      ghost var m1, u1, n1 := mem, use, |free|;
      assert Lookup(m1, pd, v) == Lookup(m0, pd, v);
      MissingMore(m0, pd, lo, v);
      var got, p := Kalloc();
      if !got {
        ShortAt(m0, n, pd, lo, v, hi);
        var _ := Deallocuvm(pd, newsz, oldsz);
        GrownRemoved(m0, u0, m1, u1, mem, use, pd, lo, hi);
        return Done(false);
      }
      Fill(p, ZERO);
      assert Lookup(mem, pd, v) == Lookup(m1, pd, v) && Pde(mem, pd, v / 1024) == Pde(m1, pd, v / 1024);
      ghost var m2 := mem;
      r := MapOne(pd, v, Pte(p, PWU));
      if r.Panic? {
        return;
      }
      if !r.value {
        ShortAt(m0, n, pd, lo, v, hi);
        Backout(m0, u0, m1, u1, pd, newsz, oldsz, p);
        return;
      }
      AddNext(m0, u0, m1, u1, mem, use, pd, lo, v, p);
      TableSame(m1, m2, mem, pd, v / 1024);
      PaidNext(m0, m1, mem, n, n1, |free|, pd, lo, v, v - lo, 1);
    }

    /** The second failure branch: unmap the range, and free the page that was not mapped. */
    method Backout(ghost m0: seq<Page>, ghost u0: seq<Use>, ghost m1: seq<Page>, ghost u1: seq<Use>,
                   pd: nat, newsz: nat, oldsz: nat, p: nat)
      requires Valid() && IsDir(use, pd) && oldsz <= newsz < 0x8000_0000 && Pages(oldsz) < Pages(newsz)
      requires Tables(m0, u0) && Tables(m1, u1) && IsDir(u0, pd) && first <= p < |m1| && u1[p] == Free
      requires mem == m1[p := ZERO] && use == u1[p := Kernel]
      requires exists v: nat :: v <= Pages(newsz) && Added(m0, u0, m1, u1, pd, Pages(oldsz), v)
      modifies this
      ensures Valid() && Trimmed(m0, u0, mem, use, pd, Pages(oldsz), Pages(newsz))
    {
      ghost var m2, u2 := mem, use;
      PlainWrite(m1, u1, p, ZERO);
      var _ := Deallocuvm(pd, newsz, oldsz);
      ghost var m3, u3 := mem, use;
      assert u3[p] == Kernel;
      var freed := Kfree(p);
      assert freed.Done?;
      BackoutRemoved(m1, u1, p, m3, u3, mem, use, pd, Pages(oldsz), Pages(newsz));
      GrownRemoved(m0, u0, m1, u1, mem, use, pd, Pages(oldsz), Pages(newsz));
    }

    /** freevm: every page of the address space is free, and nothing else has changed. */
    method Freevm(pd: nat)
      requires Valid() && IsDir(use, pd)
      modifies this
      ensures Valid() && Freed(old(mem), old(use), mem, use, pd)
    {
      var _ := Deallocuvm(pd, 0x8000_0000, 0);
      ghost var m1, u1 := mem, use;
      DropDir(mem, use, pd);
      FreeSame(free, use, Disowned(use, pd));
      use := Disowned(use, pd);
      var i := 0;
      while i < 1024
        invariant 0 <= i <= 1024 && Valid() && FreedTo(m1, u1, mem, use, pd, i)
      {
        var e := mem[pd][i];
        assert e == Pde(m1, pd, i);
        if e.flags.p {
          assert PdeOk(m1, u1, pd, i);
          ghost var m2, u2 := mem, use;
          var freed := Kfree(e.ppn);
          assert freed.Done?;
          FreedNext(m1, u1, m2, u2, mem, use, pd, i);
        } else {
          assert forall q: nat :: q < |u1| && u1[q] == Table(pd, i) ==> UseOk(m1, u1, q);
        }
        i := i + 1;
      }
      ghost var m3, u3 := mem, use;
      var freed := Kfree(pd);
      assert freed.Done?;
      FreedAll(old(mem), old(use), m1, u1, m3, u3, mem, use, pd);
    }

    /** One turn of mappages' loop on the kernel's part. */
    method MapKernelPage(pd: nat, k: Range, v: nat, ghost m0: seq<Page>, ghost u0: seq<Use>, ghost n0: nat)
      returns (ok: bool)
      requires Valid() && IsDir(use, pd) && USER <= k.start <= v < k.start + k.n <= TOP
      requires MappedTo(m0, u0, n0, mem, use, |free|, pd, k, v) && !Lookup(m0, pd, v).flags.p
      modifies this
      ensures Valid() && IsDir(use, pd)
      ensures MappedTo(m0, u0, n0, mem, use, |free|, pd, k, if ok then v + 1 else v)
      ensures !ok ==> n0 < |Missing(m0, pd, k.start, k.start + k.n)|
    {
      ghost var m1, u1, n1 := mem, use, |free|;
      var done := MapOne(pd, v, RangePte(k, v));
      ok := done.value;
      if !ok {
        PaidOut(m0, m1, n0, n1, pd, k.start, v, k.start + k.n, 0, 0);
        return;
      }
      PaidNext(m0, m1, mem, n0, n1, |free|, pd, k.start, v, 0, 0);
      KernelGrows(m1, u1, mem, use, pd, v, RangePte(k, v));
      GrownTrans(m0, u0, m1, u1, mem, use, pd);
    }

    /** mappages on the kernel's part of an address space. Remapping a page would be a panic. */
    method MapKernelRange(pd: nat, k: Range) returns (ok: bool)
      requires Valid() && IsDir(use, pd) && USER <= k.start && k.start + k.n <= TOP
      requires forall v: nat {:trigger Lookup(mem, pd, v)} :: InRange(k, v) ==> !Lookup(mem, pd, v).flags.p
      modifies this
      ensures Valid() && Grown(old(mem), old(use), mem, use, pd)
      ensures ok <==> |Missing(old(mem), pd, k.start, k.start + k.n)| <= |old(free)|
      ensures ok ==> MappedTo(old(mem), old(use), |old(free)|, mem, use, |free|, pd, k, k.start + k.n)
    {
      var v := k.start;
      while v < k.start + k.n
        invariant k.start <= v <= k.start + k.n && Valid() && IsDir(use, pd)
        invariant MappedTo(old(mem), old(use), |old(free)|, mem, use, |free|, pd, k, v)
      {
        ok := MapKernelPage(pd, k, v, old(mem), old(use), |old(free)|);
        if !ok {
          return;
        }
        v := v + 1;
      }
      ok := true;
    }

    /** setupkvm: a fresh address space with the kernel's ranges mapped and no user page, exactly if 65
        pages are free; on failure every page has the use it had. */
    method Setupkvm(data: nat) returns (ok: bool, pd: nat)
      requires Valid() && 0x100 < data < 0xE000
      modifies this
      ensures Valid() && (ok <==> |old(free)| >= KERNEL_PAGES)
      ensures ok ==> |free| + KERNEL_PAGES == |old(free)| && pd < |mem|
      ensures ok ==> forall e: nat {:trigger Pde(mem, pd, e)} :: e < 512 ==> !Pde(mem, pd, e).flags.p
      ensures ok ==> NewSpace(old(mem), old(use), mem, use, pd)
      ensures ok ==> forall v: nat {:trigger Lookup(mem, pd, v)} :: v < USER ==> !Lookup(mem, pd, v).flags.p
      ensures ok ==> forall v: nat {:trigger Lookup(mem, pd, v)} :: v >= USER ==>
        KernelView(data, v, Lookup(mem, pd, v))
      ensures !ok ==> Untouched(old(mem), old(use), mem, use)
    {
      ok, pd := Kalloc();
      if !ok {
        return;
      }
      Fill(pd, ZERO);
      AddDir(mem, use, pd);
      FreeSame(free, use, use[pd := Dir]);
      use := use[pd := Dir];
      PlainWrite(old(mem), old(use), pd, ZERO);
      assert NewSpace(old(mem), old(use), mem, use, pd);
      assert Built(mem, |old(free)|, |free|, pd, {});
      ok := MapKernelAll(pd, data, old(mem), old(use), |old(free)|);
      if ok {
        KernelTables(data);
        assert Kmap(data)[..|Kmap(data)|] == Kmap(data);
        KernelViews(mem, pd, data);
      } else {
        ghost var m3, u3 := mem, use;
        Freevm(pd);
        NewSpaceFreed(old(mem), old(use), m3, u3, mem, use, pd);
      }
    }

    /** One turn of setupkvm's loop. */
    method MapKernelNext(pd: nat, kmap: seq<Range>, i: nat, ghost m0: seq<Page>, ghost u0: seq<Use>, ghost n: nat)
      returns (ok: bool)
      requires i < |kmap| && Valid() && KmapOk(kmap) && KernelTo(m0, u0, n, mem, use, |free|, pd, kmap, i)
      modifies this
      ensures Valid() && NewSpace(m0, u0, mem, use, pd)
      ensures if ok then KernelTo(m0, u0, n, mem, use, |free|, pd, kmap, i + 1) else n < 1 + |RangeEntries(kmap, i + 1)|
    {
      ghost var m2, u2, n2 := mem, use, |free|;
      NotYet(kmap, i);
      ok := MapKernelRange(pd, kmap[i]);
      if ok {
        KernelToNext(m0, u0, n, m2, u2, n2, mem, use, |free|, pd, kmap, i);
      } else {
        NewSpaceGrows(m0, u0, m2, u2, mem, use, pd);
        RangeShort(m2, n, n2, pd, kmap, i);
      }
    }

    /** setupkvm's loop over kmap, on an empty directory. */
    method MapKernelAll(pd: nat, data: nat, ghost m0: seq<Page>, ghost u0: seq<Use>, ghost n: nat) returns (ok: bool)
      requires Valid() && 0x100 < data < 0xE000 && KernelTo(m0, u0, n, mem, use, |free|, pd, Kmap(data), 0)
      modifies this
      ensures Valid() && NewSpace(m0, u0, mem, use, pd) && (ok <==> n >= KERNEL_PAGES)
      ensures ok ==> KernelTo(m0, u0, n, mem, use, |free|, pd, Kmap(data), |Kmap(data)|)
    {
      var kmap := Kmap(data);
      KernelLayout(data);
      var i := 0;
      while i < |kmap|
        invariant 0 <= i <= |kmap| && Valid() && KernelTo(m0, u0, n, mem, use, |free|, pd, kmap, i)
      {
        ok := MapKernelNext(pd, kmap, i, m0, u0, n);
        if !ok {
          FewerTables(data, i + 1);
          return;
        }
        i := i + 1;
      }
      FewerTables(data, i);
      ok := true;
    }

    /** copyuvm: a new address space with the same bytes and flags on pages of its own, exactly if there is
        no hole below sz and there are pages for the copies, their tables and the kernel's part. It panics
        exactly if it meets a hole; otherwise every page has the use it had. */
    method Copyuvm(pd: nat, sz: nat, data: nat) returns (r: Outcome<Option<nat>>)
      requires Valid() && IsDir(use, pd) && Pages(sz) <= USER && 0x100 < data < 0xE000
      modifies this
      ensures r.Done? ==> Valid()
      ensures var n := |old(free)|;
        if Whole(old(mem), pd, Pages(sz)) && CopyCost(Pages(sz)) <= n then r.Done? && r.value.Some?
        else if HoleMet(old(mem), n, pd, Pages(sz)) then r == Panic
        else r == Done(None)
      ensures r.Done? && r.value.Some? ==>
        && NewSpace(old(mem), old(use), mem, use, r.value.value)
        && CopiedTo(old(mem), old(use), mem, pd, r.value.value, Pages(sz))
        && forall v: nat {:trigger Lookup(mem, r.value.value, v)} :: v >= USER ==>
             KernelView(data, v, Lookup(mem, r.value.value, v))
      ensures r.Done? && r.value.Some? ==> forall v: nat {:trigger Lookup(mem, r.value.value, v)} :: v < USER ==>
        var e, was := Lookup(mem, r.value.value, v), Lookup(old(mem), pd, v);
        if 4096 * v >= sz then !e.flags.p
        else
          && was.flags.p && e.flags == was.flags && e.ppn < |mem| && was.ppn < |old(mem)|
          && old(use)[e.ppn] == Free && mem[e.ppn] == old(mem)[was.ppn]
      ensures r.Done? && r.value.None? ==> Untouched(old(mem), old(use), mem, use)
    {
      var ok, d := Setupkvm(data);
      if !ok {
        CopyShort(old(mem), |old(free)|, pd, Pages(sz));
        return Done(None);
      }
      var copied := CopyPages(pd, d, Pages(sz), old(mem), old(use), |old(free)|);
      if copied.Panic? {
        return Panic;
      }
      return Done(if copied.value then Some(d) else None);
    }

    /** copyuvm's loop, on a new address space that has only the kernel's part. */
    method CopyPages(pd: nat, d: nat, n: nat, ghost m0: seq<Page>, ghost u0: seq<Use>, ghost n0: nat)
      returns (r: Outcome<bool>)
      requires Valid() && Tables(m0, u0) && IsDir(u0, pd) && NewSpace(m0, u0, mem, use, d) && n <= USER
      requires |free| + KERNEL_PAGES == n0
      requires d < |mem| && forall x: nat {:trigger Pde(mem, d, x)} :: x < 512 ==> !Pde(mem, d, x).flags.p
      modifies this
      ensures r.Done? ==> Valid()
      ensures
        if Whole(m0, pd, n) && CopyCost(n) <= n0 then r == Done(true)
        else if HoleMet(m0, n0, pd, n) then r == Panic
        else r == Done(false)
      ensures r == Done(true) ==> NewSpace(m0, u0, mem, use, d) && CopiedTo(m0, u0, mem, pd, d, n)
      ensures r == Done(true) ==>
        forall y: nat {:trigger Lookup(mem, d, y)} :: y >= USER ==> Lookup(mem, d, y) == Lookup(old(mem), d, y)
      ensures r == Done(false) ==> Untouched(m0, u0, mem, use)
    {
      ghost var mk, nk := mem, |free|;
      var v := 0;
      while v < n
        invariant 0 <= v <= n && Valid() && NewSpace(m0, u0, mem, use, d)
        invariant CopiedTo(m0, u0, mem, pd, d, v) && Whole(m0, pd, v)
        invariant forall y: nat {:trigger Lookup(mem, d, y)} :: y >= USER ==> Lookup(mem, d, y) == Lookup(mk, d, y)
        invariant |mem| == |mk| && Paid(mk, mem, nk, |free|, d, 0, v, v)
      {
        MissingBelow(mk, d, v);
        ParentSame(m0, u0, mem, use, pd, d, v);
        var e := Present(pd, v);
        if e.None? {
          assert HoleAt(m0, n0, pd, v);
          return Panic;
        }
        var got := CopyOne(pd, d, v, e.value, m0, u0, mk, nk);
        if !got {
          CopyShortAt(m0, n0, pd, v, n);
          return Done(false);
        }
        v := v + 1;
      }
      MissingBelow(mk, d, v);
      return Done(true);
    }

    /** The two tests of copyuvm: the entry of page v, if it is present. */
    method Present(pd: nat, v: nat) returns (e: Option<Pte>)
      requires Valid() && IsDir(use, pd) && v < TOP
      modifies this
      ensures Valid() && mem == old(mem) && use == old(use) && free == old(free)
      ensures e == if Lookup(mem, pd, v).flags.p then Some(Lookup(mem, pd, v)) else None
    {
      var has := Walkpgdir(pd, v, false);
      if !has {
        return None;
      }
      assert PdeOk(mem, use, pd, v / 1024);
      var pte := mem[mem[pd][v / 1024].ppn][v % 1024];
      return if pte.flags.p then Some(pte) else None;
    }

    /** One turn of copyuvm's loop, for the parent's entry e; what it does when memory is out included. */
    method CopyOne(pd: nat, d: nat, v: nat, e: Pte, ghost m0: seq<Page>, ghost u0: seq<Use>, ghost mk: seq<Page>,
                   ghost nk: nat) returns (got: bool)
      requires Valid() && Tables(m0, u0) && IsDir(u0, pd) && NewSpace(m0, u0, mem, use, d) && v < USER
      requires CopiedTo(m0, u0, mem, pd, d, v) && e == Lookup(m0, pd, v) == Lookup(mem, pd, v) && e.flags.p
      requires |mk| == |mem| && d < |mk| && Paid(mk, mem, nk, |free|, d, 0, v, v)
      requires forall x: nat {:trigger Pde(mk, d, x)} :: x < 512 ==> !Pde(mk, d, x).flags.p
      modifies this
      ensures Valid() && |mem| == |mk|
      ensures got ==> NewSpace(m0, u0, mem, use, d) && CopiedTo(m0, u0, mem, pd, d, v + 1)
      ensures got ==> Paid(mk, mem, nk, |free|, d, 0, v + 1, v + 1)
      ensures got ==>
        forall y: nat {:trigger Lookup(mem, d, y)} :: y >= USER ==> Lookup(mem, d, y) == Lookup(old(mem), d, y)
      ensures !got ==> Untouched(m0, u0, mem, use) && nk < v + 1 + TablesFor(v + 1)
    {
      ghost var m1, u1, n1 := mem, use, |free|;
      ParentSame(m0, u0, mem, use, pd, d, v);
      MissingBelow(mk, d, v + 1);
      var p;
      got, p := Kalloc();
      if got {
        Fill(p, mem[e.ppn]);
        assert Lookup(mem, d, v) == Lookup(m1, d, v) && Pde(mem, d, v / 1024) == Pde(m1, d, v / 1024);
        ghost var m2 := mem;
        var done := MapOne(d, v, Pte(p, e.flags));
        got := done.value;
        if got {
          CopyNext(m0, u0, m1, u1, mem, use, pd, d, v, p);
          TableSame(m1, m2, mem, d, v / 1024);
          PaidNext(mk, m1, mem, nk, n1, |free|, d, 0, v, v, 1);
          return;
        }
        var freed := Kfree(p);
        assert freed.Done?;
        GaveBack(m1, u1, p, m1[e.ppn], mem, use);
      }
      PaidOut(mk, m1, nk, n1, d, 0, v, v + 1, v, 1);
      CopyBad(d, m0, u0, m1, u1);
    }

    /** The end of copyuvm when memory is out. */
    method CopyBad(d: nat, ghost m0: seq<Page>, ghost u0: seq<Use>, ghost m1: seq<Page>, ghost u1: seq<Use>)
      requires Valid() && Tables(m0, u0) && Tables(m1, u1) && NewSpace(m0, u0, m1, u1, d)
      requires Untouched(m1, u1, mem, use)
      modifies this
      ensures Valid() && Untouched(m0, u0, mem, use)
    {
      UntouchedSpace(m0, u0, m1, u1, mem, use, d);
      ghost var m2, u2 := mem, use;
      Freevm(d);
      NewSpaceFreed(m0, u0, m2, u2, mem, use, d);
    }

    /** kinit: pages from first on are free, and those below it hold the kernel. */
    constructor (n: nat, image: nat)
      requires 0 < image <= n
      ensures Valid() && |mem| == |use| == n && |free| == n - image
      ensures forall q: nat :: q < n ==> use[q] == if q < image then Kernel else Free
    {
      first, mem, free := image, seq(n, _ => ZERO), [];
      use := seq(n, _ => Kernel);
      new;
      Freerange(image, n);
    }

    /** freerange over the pages from lo up to hi, from a state in which they are set aside. */
    method Freerange(lo: nat, hi: nat)
      requires Valid() && first <= lo <= hi <= |mem| && forall q: nat :: lo <= q < hi ==> use[q] == Kernel
      modifies this
      ensures Valid() && |use| == |old(use)| && |free| == |old(free)| + hi - lo
      ensures forall q: nat :: q < |use| ==> use[q] == if lo <= q < hi then Free else old(use)[q]
    {
      var p := lo;
      while p < hi
        invariant lo <= p <= hi && Valid() && |use| == |old(use)| && |free| == |old(free)| + p - lo
        invariant forall q: nat :: q < |use| ==> use[q] == if lo <= q < p then Free else old(use)[q]
      {
        var freed := Kfree(p);
        assert freed.Done?;
        p := p + 1;
      }
    }
  }

  /** A failing allocuvm that takes a mapping away: with page 1 mapped and memory out, growing from 0 to
      two pages fails at its first kalloc, and the removal of the range unmaps page 1. */
  method FailureUnmaps() returns (vm: Vm, pd: nat, r: Outcome<nat>, ghost before: seq<Page>)
    ensures r == Done(0) && vm.Valid() && pd < |before| == |vm.mem|
    ensures Lookup(before, pd, 1).flags.p && !Lookup(vm.mem, pd, 1).flags.p
  {
    vm := new Vm(68, 1);
    var ok;
    ok, pd := vm.Setupkvm(0x200);
    MissingMore(vm.mem, pd, 1, 1);
    assert Missing(vm.mem, pd, 1, 1) == {} && Pages(4096) == 1 && Pages(8192) == 2;
    r := vm.Allocuvm(pd, 4096, 8192);
    before := vm.mem;
    assert Lookup(before, pd, 1).flags == PWU;
    assert Pages(0) == 0;
    NothingFree(before, pd);
    r := vm.Allocuvm(pd, 0, 8192);
  }

  /** With no page free and page 1 mapped, pages 0 and 1 neither fit nor are reached. */
  lemma NothingFree(mem: seq<Page>, pd: nat)
    requires pd < |mem| && Lookup(mem, pd, 1).flags.p
    ensures !Fits(mem, 0, pd, 0, 2) && !Meets(mem, 0, pd, 0, 2)
  {
  }
}
