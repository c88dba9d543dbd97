/** The ring buffer of pipe.c behind the machine of PipeModel. */
module PipeCode {
  import opened Common
  import opened Blocks
  import opened PipeModel

  /** How many bytes lie between the two counters, which wrap at 32 bits. */
  function Between(nread: uint, nwrite: uint): (r: uint) {
    if nread <= nwrite then nwrite - nread else nwrite - nread + UINT
  }

  lemma BetweenFull(nread: uint, nwrite: uint)
    ensures nwrite == Add32(nread, 512) <==> Between(nread, nwrite) == 512
    ensures nread == nwrite <==> Between(nread, nwrite) == 0
  {
  }

  lemma BetweenStep(nread: uint, nwrite: uint)
    ensures Between(nread, nwrite) < 0xFFFF_FFFF ==> Between(nread, Add32(nwrite, 1)) == Between(nread, nwrite) + 1
    ensures Between(nread, nwrite) > 0 ==> Between(Add32(nread, 1), nwrite) == Between(nread, nwrite) - 1
  {
  }

  /** 512 divides the counters' range, so a slot survives their wrap-around. */
  lemma SlotOf(nread: uint, nwrite: uint)
    requires Between(nread, nwrite) <= 512
    ensures (nread + Between(nread, nwrite)) % 512 == nwrite % 512
    ensures Add32(nread, 1) % 512 == (nread + 1) % 512
  {
  }

  lemma SlotNext(nread: uint, k: nat)
    requires k < UINT
    ensures (Add32(nread, 1) + k) % 512 == (nread + (k + 1)) % 512
  {
    assert Add32(nread, 1) == nread + 1 || Add32(nread, 1) == nread + 1 - UINT;
  }

  lemma SlotsApart(n: nat, j: nat, k: nat)
    requires j < k < 512
    ensures (n + j) % 512 != (n + k) % 512
  {
  }

  /** The k-th byte of the ring, counted from nread. */
  function Slot(d: seq<byte>, nread: uint, k: nat): byte
    requires |d| == 512
  {
    d[(nread + k) % 512]
  }

  ghost function Ring(d: seq<byte>, nread: uint, n: nat): (s: seq<byte>)
    requires |d| == 512
    ensures |s| == n && forall k :: 0 <= k < n ==> s[k] == Slot(d, nread, k)
  {
    seq(n, k requires 0 <= k => Slot(d, nread, k))
  }

  lemma RingPut(d: seq<byte>, nread: uint, nwrite: uint, c: byte)
    requires |d| == 512 && Between(nread, nwrite) < 512
    ensures Between(nread, Add32(nwrite, 1)) == Between(nread, nwrite) + 1
    ensures Ring(d[nwrite % 512 := c], nread, Between(nread, nwrite) + 1) ==
      Ring(d, nread, Between(nread, nwrite)) + [c]
  {
    var n := Between(nread, nwrite);
    BetweenStep(nread, nwrite);
    assert (nread + n) % 512 == nwrite % 512 by { SlotOf(nread, nwrite); }
    var e := d[nwrite % 512 := c];
    forall k | 0 <= k < n ensures Slot(e, nread, k) == Slot(d, nread, k) {
      SlotsApart(nread, k, n);
    }
  }

  lemma RingGet(d: seq<byte>, nread: uint, nwrite: uint)
    requires |d| == 512 && 0 < Between(nread, nwrite) <= 512
    ensures Between(Add32(nread, 1), nwrite) == Between(nread, nwrite) - 1
    ensures Ring(d, nread, Between(nread, nwrite)) ==
      [d[nread % 512]] + Ring(d, Add32(nread, 1), Between(nread, nwrite) - 1)
  {
    BetweenStep(nread, nwrite);
    forall k | 0 <= k < Between(nread, nwrite) - 1 ensures Slot(d, Add32(nread, 1), k) == Slot(d, nread, k + 1) {
      SlotNext(nread, k);
    }
  }

  lemma Append(a: seq<byte>, c: byte, b: seq<byte>)
    ensures a + ([c] + b) == (a + [c]) + b
  {
  }

  class Pipe {
    const data: array<byte>
    var nread: uint
    var nwrite: uint
    var readopen: bool
    var writeopen: bool
    var procs: map<nat, Phase>     // who is inside, and who sleeps on &nread or &nwrite
    var killed: set<nat>
    ghost var stored: seq<byte>
    ghost var delivered: seq<byte>

    ghost predicate Valid()
      reads this, data
    {
      data.Length == 512 && Between(nread, nwrite) <= 512 && Inv(Abs())
    }

    /** The bytes in the ring, oldest first. */
    ghost function Buffered(): (s: seq<byte>)
      reads this, data
      requires data.Length == 512
    {
      Ring(data[..], nread, Between(nread, nwrite))
    }

    ghost function Abs(): State
      reads this, data
      requires data.Length == 512
    {
      State(Buffered(), stored, delivered, readopen, writeopen, procs, killed)
    }

    /** pipealloc's part for the pipe itself. */
    constructor ()
      ensures Valid() && Abs() == INIT && fresh(data)
    {
      data := new byte[512];
      nread, nwrite, readopen, writeopen := 0, 0, true, true;
      procs, killed, stored, delivered := map[], {}, [], [];
      new;
      assert Buffered() == [];
    }

    /** Store one byte at nwrite. */
    method Put(c: byte)
      requires data.Length == 512 && Between(nread, nwrite) < 512
      modifies `nwrite, `stored, data
      ensures Between(nread, nwrite) == old(Between(nread, nwrite)) + 1
      ensures Buffered() == old(Buffered()) + [c] && stored == old(stored) + [c]
    {
      RingPut(data[..], nread, nwrite, c);
      data[nwrite % 512] := c;
      nwrite := Add32(nwrite, 1);
      stored := stored + [c];
      assert data[..] == old(data[..])[old(nwrite) % 512 := c];
    }

    /** Take one byte from nread. */
    method Get() returns (c: byte)
      requires data.Length == 512 && 0 < Between(nread, nwrite) <= 512
      modifies `nread, `delivered
      ensures Between(nread, nwrite) == old(Between(nread, nwrite)) - 1
      ensures old(Buffered()) == [c] + Buffered() && delivered == old(delivered) + [c]
    {
      RingGet(data[..], nread, nwrite);
      c := data[nread % 512];
      nread := Add32(nread, 1);
      delivered := delivered + [c];
    }

    /** pipewrite's loop up to its end or to a full ring. */
    method Fill(src: seq<byte>, i0: nat) returns (i: nat)
      requires data.Length == 512 && Between(nread, nwrite) <= 512 && i0 <= |src|
      modifies `nwrite, `stored, data
      ensures Between(nread, nwrite) <= 512 && i0 <= i <= |src| && i == i0 + Min(512 - |old(Buffered())|, |src| - i0)
      ensures Buffered() == old(Buffered()) + src[i0..i] && stored == old(stored) + src[i0..i]
    {
      i := i0;
      while i < |src|
        invariant i0 <= i <= |src| && Between(nread, nwrite) <= 512
        invariant Buffered() == old(Buffered()) + src[i0..i] && stored == old(stored) + src[i0..i]
      {
        BetweenFull(nread, nwrite);
        if nwrite == Add32(nread, 512) {
          break;
        }
        Put(src[i]);
        i := i + 1;
        assert src[i0..i] == src[i0..i - 1] + [src[i - 1]];
      }
    }

    /** piperead's copy loop. */
    method Drain(n: nat) returns (addr: seq<byte>)
      requires data.Length == 512 && Between(nread, nwrite) <= 512
      modifies `nread, `delivered
      ensures Between(nread, nwrite) <= 512 && |addr| == Min(n, |old(Buffered())|)
      ensures old(Buffered()) == addr + Buffered() && delivered == old(delivered) + addr
    {
      addr := [];
      var i := 0;
      while i < n
        invariant 0 <= i <= n && i == |addr| && Between(nread, nwrite) <= 512
        invariant old(Buffered()) == addr + Buffered() && delivered == old(delivered) + addr
      {
        BetweenFull(nread, nwrite);
        if nread == nwrite {
          break;
        }
        var c := Get();
        Append(addr, c, Buffered());
        addr := addr + [c];
        i := i + 1;
      }
    }

    method Begin(a: Action)
      requires Valid() && Enabled(Abs(), a) && (a.StartWrite? || a.StartRead?)
      modifies `procs
      ensures Valid() && Abs() == Next(old(Abs()), a)
      ensures a.StartWrite? ==> procs == old(procs)[a.p := Writing(a.src, 0, false)]
      ensures a.StartRead? ==> procs == old(procs)[a.p := Reading(a.n, false)]
    {
      StepKeepsInv(Abs(), a);
      procs := procs[a.p := if a.StartWrite? then Writing(a.src, 0, false) else Reading(a.n, false)];
    }

    /** One critical section of pipewrite. The result is the call's return value, or None while
        the process sleeps. */
    method Write(p: nat) returns (r: Option<int>)
      requires Valid() && CanWrite(Abs(), p)
      modifies this, data
      ensures Valid() && Abs() == Next(old(Abs()), Action.Write(p))
      ensures var w := old(procs[p]); var n := Min(512 - |old(Buffered())|, |w.src| - w.i);
        && Buffered() == old(Buffered()) + w.src[w.i..w.i + n]
        && r == if w.i + n == |w.src| then Some(|w.src|)
                else if !readopen || p in killed then Some(-1) else None
    {
      ghost var s, t := Abs(), Next(Abs(), Action.Write(p));
      StepKeepsInv(s, Action.Write(p));
      var w := procs[p];
      ghost var n := Min(512 - |s.buf|, |w.src| - w.i);
      WriteIs(s, p, n);
      var i := Fill(w.src, w.i);
      assert i == w.i + n && Buffered() == t.buf && stored == t.stored;
      r := Finish(p, w.src, i);
      assert procs == t.procs;
      assert Abs() == t;
    }

    /** What pipewrite does when its bytes are stored or the ring is full. */
    method Finish(p: nat, src: seq<byte>, i: nat) returns (r: Option<int>)
      modifies `procs
      ensures procs ==
        if i == |src| then WakeReaders(old(procs) - {p})
        else if !readopen || p in killed then old(procs) - {p}
        else WakeReaders(old(procs))[p := Writing(src, i, true)]
      ensures r == if i == |src| then Some(|src|) else if !readopen || p in killed then Some(-1) else None
    {
      if i == |src| {
        procs := WakeReaders(procs - {p});
        r := Some(|src|);
      } else if !readopen || p in killed {
        procs := procs - {p};
        r := Some(-1);
      } else {
        procs := WakeReaders(procs)[p := Writing(src, i, true)];
        r := None;
      }
    }

    /** One critical section of piperead: the bytes copied out, and how the call stands. */
    method Read(p: nat) returns (r: Option<int>, addr: seq<byte>)
      requires Valid() && CanRead(Abs(), p)
      modifies `nread, `delivered, `procs
      ensures Valid() && Abs() == Next(old(Abs()), Action.Read(p))
      ensures if old(Buffered()) == [] && writeopen then addr == [] && r == (if p in killed then Some(-1) else None)
              else |addr| == Min(old(procs[p]).n, |old(Buffered())|) && r == Some(|addr|)
      ensures old(Buffered()) == addr + Buffered()
    {
      ghost var s := Abs();
      StepKeepsInv(s, Action.Read(p));
      BetweenFull(nread, nwrite);
      if nread == nwrite && writeopen {
        if p in killed {
          procs := procs - {p};
          return Some(-1), [];
        }
        procs := procs[p := Reading(procs[p].n, true)];
        return None, [];
      }
      addr := Drain(procs[p].n);
      assert addr == s.buf[..|addr|] && Buffered() == s.buf[|addr|..];
      procs := WakeWriters(procs - {p});
      r := Some(|addr|);
    }

    /** pipeclose; says whether it gives the page of the pipe back, which it does when both ends are closed,
        and then nobody is inside piperead or pipewrite. */
    method PipeClose(writable: bool) returns (freed: bool)
      requires Valid() && Enabled(Abs(), Close(writable))
      modifies `readopen, `writeopen, `procs
      ensures Valid() && Abs() == Next(old(Abs()), Close(writable))
      ensures freed <==> !old(if writable then readopen else writeopen)
      ensures freed ==> procs == map[]
    {
      StepKeepsInv(Abs(), Close(writable));
      if writable {
        writeopen := false;
        procs := WakeReaders(procs);
      } else {
        readopen := false;
        procs := WakeWriters(procs);
      }
      freed := !readopen && !writeopen;
    }
  }
}
