/** The loops of proc.c over the process table. Each method is one critical section of ptable.lock
    and one step of ProcModel's machine. */
module ProcCode {
  import opened Common
  import opened ProcModel

  /** No two slots have the same process id, unless it is none; the next one is new. */
  ghost predicate PidsDiffer(ps: seq<Slot>, nextpid: int) {
    && nextpid > 0 && (forall i :: 0 <= i < |ps| ==> 0 <= ps[i].pid < nextpid)
    && forall i, j :: 0 <= i < j < |ps| && ps[i].pid == ps[j].pid ==> ps[i].pid == 0
  }

  class ProcTable {
    var ps: seq<Slot>
    const init: nat
    var nextpid: int

    ghost function Abs(): State
      reads this
    {
      State(ps, init)
    }

    ghost predicate Valid()
      reads this
    {
      |ps| == NPROC && Inv(Abs()) && PidsDiffer(ps, nextpid)
    }

    /** A zeroed table with the first process in slot 0, as userinit leaves it. */
    constructor ()
      ensures Valid() && Init(Abs()) && init == 0
    {
      var free := Slot(UNUSED, 0, NOBODY, NoChan, false, NotForking);
      init := 0;
      nextpid := 2;
      ps := seq(NPROC, i => if i == 0 then free.(state := RUNNABLE, pid := 1) else free);
      new;
      InitInv(Abs());
    }

    /** wakeup1. */
    method Wakeup1(ch: Chan)
      modifies `ps
      ensures |ps| == |old(ps)| && forall j: nat {:trigger ps[j]} :: j < |ps| ==> ps[j] == Woken(old(ps)[j], ch)
      ensures forall j: nat {:trigger ps[j]} :: j < |ps| ==>
        var x := old(ps)[j]; ps[j] == if x.state == SLEEPING && x.chan == ch then x.(state := RUNNABLE) else x
    {
      var i := 0;
      while i < |ps|
        invariant 0 <= i <= |ps| == |old(ps)|
        invariant forall j: nat {:trigger ps[j]} :: j < |ps| ==>
          ps[j] == if j < i then Woken(old(ps)[j], ch) else old(ps)[j]
      {
        if ps[i].state == SLEEPING && ps[i].chan == ch {
          ps := ps[i := ps[i].(state := RUNNABLE)];
        }
        i := i + 1;
      }
    }

    /** wakeup, on a channel that is not a process in wait. */
    method Wakeup(n: nat)
      requires Valid()
      modifies `ps
      ensures Valid() && Steps(old(Abs()), Action.Wake(0, n), Abs())
      ensures forall j: nat {:trigger ps[j]} :: j < NPROC ==>
        var x := old(ps)[j]; ps[j] == if x.state == SLEEPING && x.chan == OnOther(n) then x.(state := RUNNABLE) else x
    {
      Wakeup1(OnOther(n));
      StepKeepsInv(old(Abs()), Action.Wake(0, n), Abs());
    }

    /** kill: the first slot with this pid. */
    method Kill(pid: int) returns (ok: bool)
      requires Valid()
      modifies `ps
      ensures Valid()
      ensures ok <==> exists j :: 0 <= j < NPROC && old(ps)[j].pid == pid
      ensures !ok ==> ps == old(ps)
      ensures ok ==> exists j: nat {:trigger old(ps)[j]} ::
        && j < NPROC && old(ps)[j].pid == pid && (forall k :: 0 <= k < j ==> old(ps)[k].pid != pid)
        && Steps(old(Abs()), Action.Kill(j), Abs()) && var x := old(ps)[j];
           ps == old(ps)[j := x.(killed := true, state := if x.state == SLEEPING then RUNNABLE else x.state)]
    {
      var i := 0;
      while i < NPROC
        invariant 0 <= i <= NPROC && forall k :: 0 <= k < i ==> ps[k].pid != pid
      {
        if ps[i].pid == pid {
          ps := ps[i := ps[i].(killed := true)];
          if ps[i].state == SLEEPING {
            ps := ps[i := ps[i].(state := RUNNABLE)];
          }
          StepKeepsInv(old(Abs()), Action.Kill(i), Abs());
          return true;
        }
        i := i + 1;
      }
      return false;
    }

    /** allocproc's search, on behalf of the fork of c. */
    method Allocproc(c: nat) returns (ok: bool, np: nat)
      requires Valid() && c < NPROC && ps[c].state == RUNNING && ps[c].fork == NotForking
      modifies this
      ensures Valid()
      ensures ok <==> exists j :: 0 <= j < NPROC && old(ps)[j].state == UNUSED
      ensures !ok ==> ps == old(ps)
      ensures ok ==> forall k :: 0 <= k < np < NPROC ==> old(ps)[k].state != UNUSED
      ensures ok ==>
        && Enabled(old(Abs()), Action.Alloc(c, np, old(nextpid)))
        && Steps(old(Abs()), Action.Alloc(c, np, old(nextpid)), Abs())
      ensures ok ==>
        && np < NPROC && old(ps)[np].state == UNUSED && np != c && nextpid == old(nextpid) + 1
        && ps == old(ps)[np := old(ps)[np].(state := EMBRYO, pid := old(nextpid))]
                        [c := old(ps)[c].(fork := Child(np, false))]
    {
      np := 0;
      while np < NPROC
        invariant 0 <= np <= NPROC && forall k :: 0 <= k < np ==> ps[k].state != UNUSED
      {
        if ps[np].state == UNUSED {
          ps := ps[np := ps[np].(state := EMBRYO, pid := nextpid)][c := ps[c].(fork := Child(np, false))];
          nextpid := nextpid + 1;
          StepKeepsInv(old(Abs()), Action.Alloc(c, np, old(nextpid)), Abs());
          return true, np;
        }
        np := np + 1;
      }
      return false, np;
    }

    /** exit's last section; init may not exit. */
    method Exit(c: nat) returns (panic: bool)
      requires Valid() && c < NPROC && ps[c].state == RUNNING && ps[c].fork == NotForking
      modifies `ps
      ensures Valid() && (panic <==> c == init)
      ensures if panic then ps == old(ps) else Steps(old(Abs()), Action.Exit(c), Abs())
      ensures !panic ==> forall j: nat {:trigger ps[j]} :: j < NPROC ==>
        && ps[j].pid == old(ps)[j].pid && ps[j].chan == old(ps)[j].chan && ps[j].killed == old(ps)[j].killed
        && ps[j].fork == old(ps)[j].fork && ps[j].parent == (if old(ps)[j].parent == c then init else old(ps)[j].parent)
        && ps[j].state ==
           if j == c then ZOMBIE else if ExitWakes(old(ps), init, c, j) then RUNNABLE else old(ps)[j].state
    {
      if c == init {
        return true;
      }
      Wakeup1(OnProc(ps[c].parent));
      GiveAway(c, old(ps));
      ps := ps[c := ps[c].(state := ZOMBIE)];
      StepKeepsInv(old(Abs()), Action.Exit(c), Abs());
      ExitFields(old(ps), ps, init, c);
      return false;
    }

    /** exit's loop: the children go to init, which is woken for those that have exited. */
    method GiveAway(c: nat, ghost before: seq<Slot>)
      requires |before| == |ps| && c < |ps| && c != init
      requires forall j: nat {:trigger ps[j]} :: j < |ps| ==> ps[j] == Woken(before[j], OnProc(before[c].parent))
      modifies `ps
      ensures |ps| == |before|
      ensures forall j: nat {:trigger ps[j]} :: j < |ps| && j != c ==> ps[j] == AfterExit(before, init, c, j)
      ensures ps[c].(state := ZOMBIE) == AfterExit(before, init, c, c)
    {
      var i := 0;
      ghost var woke := false;
      while i < |ps|
        invariant 0 <= i <= |ps| == |before| && (woke <==> exists j :: 0 <= j < i && ZombieOf(before[j], c))
        invariant forall j: nat {:trigger ps[j]} :: j < |ps| ==> ps[j] == Given(before, init, c, j, i, woke)
      {
        assert ps[i] == Given(before, init, c, i, i, woke);
        if ps[i].parent == c {
          ps := ps[i := ps[i].(parent := init)];
          if ps[i].state == ZOMBIE {
            Wakeup1(OnProc(init));
            woke := true;
          }
        }
        i := i + 1;
      }
    }

    /** One pass of wait's loop. */
    method Wait(c: nat) returns (w: Waited, pid: int)
      requires Valid() && c < NPROC && ps[c].state == RUNNING && ps[c].fork == NotForking
      modifies `ps
      ensures Valid() && Enabled(old(Abs()), Action.Wait(c, w)) && Steps(old(Abs()), Action.Wait(c, w), Abs())
      ensures w.Reap? ==>
        && w.z < NPROC && w.z != c && old(ps)[w.z].parent == c && old(ps)[w.z].state == ZOMBIE
        && pid == old(ps)[w.z].pid
        && (forall j :: 0 <= j < w.z ==> !(old(ps)[j].parent == c && old(ps)[j].state == ZOMBIE))
        && ps == old(ps)[c := old(ps)[c].(chan := NoChan)]
                        [w.z := old(ps)[w.z].(state := UNUSED, pid := 0, parent := NOBODY, killed := false)]
      ensures !w.Reap? ==> forall j :: 0 <= j < NPROC ==> !(old(ps)[j].parent == c && old(ps)[j].state == ZOMBIE)
      ensures w.NoChildren? ==>
        && pid == -1 && ps == old(ps)[c := old(ps)[c].(chan := NoChan)]
        && (old(ps)[c].killed || forall j :: 0 <= j < NPROC ==> old(ps)[j].parent != c)
      ensures w.Asleep? ==>
        && !old(ps)[c].killed && ps == old(ps)[c := old(ps)[c].(chan := OnProc(c), state := SLEEPING)]
        && exists j :: 0 <= j < NPROC && old(ps)[j].parent == c
    {
      ghost var s := Abs();
      ps := ps[c := ps[c].(chan := NoChan)];
      var z, havekids := FindZombie(c);
      if z >= 0 {
        pid := ps[z].pid;
        w := Reap(z);
        ps := ps[z := Reaped(ps[z])];
      } else if !havekids || ps[c].killed {
        w, pid := NoChildren, -1;
      } else {
        w, pid := Asleep, 0;
        ps := ps[c := ps[c].(chan := OnProc(c), state := SLEEPING)];
      }
      WaitIs(s.ps, c, w, z, havekids);
      StepKeepsInv(s, Action.Wait(c, w), Abs());
      PidsReaped(s.ps, ps, nextpid);
      WaitFields(s.ps, c, w);
    }

    /** The loop of wait: the first zombie child, or -1, and whether there is a child. */
    method FindZombie(c: nat) returns (z: int, havekids: bool)
      ensures -1 <= z < |ps| && forall j :: 0 <= j < (if z >= 0 then z else |ps|) ==> !ZombieOf(ps[j], c)
      ensures z >= 0 ==> ZombieOf(ps[z], c)
      ensures z < 0 ==> (havekids <==> exists j :: 0 <= j < |ps| && ps[j].parent == c)
    {
      var i := 0;
      havekids := false;
      while i < |ps|
        invariant 0 <= i <= |ps| && forall j :: 0 <= j < i ==> !ZombieOf(ps[j], c)
        invariant havekids <==> exists j :: 0 <= j < i && ps[j].parent == c
      {
        if ps[i].parent == c {
          havekids := true;
          if ps[i].state == ZOMBIE {
            return i, havekids;
          }
        }
        i := i + 1;
      }
      return -1, havekids;
    }
  }

  /** The outcome of a pass, from what its loop has found with the caller's channel cleared. */
  lemma WaitIs(ps: seq<Slot>, c: nat, w: Waited, z: int, havekids: bool)
    requires c < |ps| && -1 <= z < |ps| && var qs := ps[c := ps[c].(chan := NoChan)];
      && (forall j :: 0 <= j < (if z >= 0 then z else |qs|) ==> !ZombieOf(qs[j], c))
      && (z >= 0 ==> ZombieOf(qs[z], c))
      && (z < 0 ==> (havekids <==> exists j :: 0 <= j < |qs| && qs[j].parent == c))
    requires w == if z >= 0 then Reap(z) else if !havekids || ps[c].killed then NoChildren else Asleep
    ensures Waits(ps, c, w)
  {
    var qs := ps[c := ps[c].(chan := NoChan)];
    forall j | 0 <= j < |ps| ensures ZombieOf(qs[j], c) == ZombieOf(ps[j], c) && qs[j].parent == ps[j].parent {
    }
    if z < 0 && HasChild(ps, c) {
      var j :| 0 <= j < |ps| && ps[j].parent == c;
      assert qs[j].parent == c;
    }
    if z < 0 && havekids {
      var j :| 0 <= j < |qs| && qs[j].parent == c;
      assert ps[j].parent == c;
    }
  }


  /** What a pass of wait does, in fields. */
  lemma WaitFields(ps: seq<Slot>, c: nat, w: Waited)
    requires c < |ps| && Waits(ps, c, w) && ps[c].state == RUNNING
    ensures var qs := AfterWait(ps, c, w);
      && (w.Reap? ==>
            && w.z < |ps| && w.z != c && ps[w.z].parent == c && ps[w.z].state == ZOMBIE
            && (forall j :: 0 <= j < w.z ==> !(ps[j].parent == c && ps[j].state == ZOMBIE))
            && qs == ps[c := ps[c].(chan := NoChan)]
                       [w.z := ps[w.z].(state := UNUSED, pid := 0, parent := NOBODY, killed := false)])
      && (!w.Reap? ==> forall j :: 0 <= j < |ps| ==> !(ps[j].parent == c && ps[j].state == ZOMBIE))
      && (w.NoChildren? ==>
            && qs == ps[c := ps[c].(chan := NoChan)]
            && (ps[c].killed || forall j :: 0 <= j < |ps| ==> ps[j].parent != c))
      && (w.Asleep? ==>
            && !ps[c].killed && qs == ps[c := ps[c].(chan := OnProc(c), state := SLEEPING)]
            && exists j :: 0 <= j < |ps| && ps[j].parent == c)
  {
    if !w.Reap? {
      assert forall j :: 0 <= j < |ps| ==> !ZombieOf(ps[j], c);
    } else {
      assert forall j :: 0 <= j < w.z ==> !ZombieOf(ps[j], c);
    }
  }

  lemma PidsReaped(ps: seq<Slot>, qs: seq<Slot>, nextpid: int)
    requires PidsDiffer(ps, nextpid) && |qs| == |ps|
    requires forall j :: 0 <= j < |ps| ==> qs[j].pid == ps[j].pid || qs[j].pid == 0
    ensures PidsDiffer(qs, nextpid)
  {
  }

  /** Whom the exit of c wakes: its parent in wait, and init in wait if a child of c is a zombie already. */
  ghost predicate ExitWakes(ps: seq<Slot>, init: nat, c: nat, j: nat)
    requires c < |ps| && j < |ps|
  {
    && ps[j].state == SLEEPING
    && (ps[j].chan == OnProc(ps[c].parent) ||
        (ps[j].chan == OnProc(init) && exists z :: 0 <= z < |ps| && ps[z].parent == c && ps[z].state == ZOMBIE))
  }

  lemma ExitFields(ps: seq<Slot>, qs: seq<Slot>, init: nat, c: nat)
    requires c < |ps| && Exits(ps, qs, init, c)
    ensures forall j: nat {:trigger qs[j]} :: j < |ps| ==>
      && qs[j].pid == ps[j].pid && qs[j].chan == ps[j].chan && qs[j].killed == ps[j].killed
      && qs[j].fork == ps[j].fork && qs[j].parent == (if ps[j].parent == c then init else ps[j].parent)
      && qs[j].state == if j == c then ZOMBIE else if ExitWakes(ps, init, c, j) then RUNNABLE else ps[j].state
  {
    if HasZombie(ps, c) {
      var z :| 0 <= z < |ps| && ZombieOf(ps[z], c);
      assert ps[z].parent == c && ps[z].state == ZOMBIE;
    } else {
      assert forall z :: 0 <= z < |ps| ==> !ZombieOf(ps[z], c);
    }
  }

  /** A slot when exit's loop has seen the slots below i. */
  ghost function Given(before: seq<Slot>, init: nat, c: nat, j: nat, i: nat, woke: bool): Slot
    requires c < |before| && j < |before|
  {
    var x := Woken(before[j], OnProc(before[c].parent));
    var y := if woke then Woken(x, OnProc(init)) else x;
    if j < i && y.parent == c then y.(parent := init) else y
  }
}
