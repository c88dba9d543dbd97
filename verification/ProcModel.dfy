/**
  The life of processes: fork, exit, wait, kill and the sleeps between them (proc.c), as a machine
  whose steps are the critical sections of ptable.lock and fork's few writes outside it.
*/
module ProcModel {

  datatype RunState = UNUSED | EMBRYO | SLEEPING | RUNNABLE | RUNNING | ZOMBIE

  /** What a process sleeps on: the slot of a process in wait, or anything else. */
  datatype Chan = NoChan | OnProc(slot: int) | OnOther(n: nat)

  /** How far a process is inside fork: it has taken slot np, and then set np's parent. */
  datatype Fork = NotForking | Child(np: nat, linked: bool)

  datatype Slot = Slot(state: RunState, pid: int, parent: int, chan: Chan, killed: bool, fork: Fork)

  const NOBODY := -1

  predicate Live(x: Slot) {
    x.state == SLEEPING || x.state == RUNNABLE || x.state == RUNNING
  }

  predicate ZombieOf(x: Slot, c: int) {
    x.parent == c && x.state == ZOMBIE
  }

  /** wakeup1 at one slot. */
  function Woken(x: Slot, ch: Chan): Slot {
    if x.state == SLEEPING && x.chan == ch then x.(state := RUNNABLE) else x
  }

  // ---------------------------------------------------------------- exit and wait

  ghost predicate HasZombie(ps: seq<Slot>, c: int) {
    exists j :: 0 <= j < |ps| && ZombieOf(ps[j], c)
  }

  /** A slot after exit of c: the parent is awake, the children belong to init, init is awake if
      one of them had exited already, and c is a zombie. */
  ghost function AfterExit(ps: seq<Slot>, init: nat, c: nat, j: nat): Slot
    requires c < |ps| && j < |ps|
  {
    var x := Woken(ps[j], OnProc(ps[c].parent));
    var y := if HasZombie(ps, c) then Woken(x, OnProc(init)) else x;
    var z := if y.parent == c then y.(parent := init) else y;
    if j == c then z.(state := ZOMBIE) else z
  }

  ghost predicate Exits(ps: seq<Slot>, qs: seq<Slot>, init: nat, c: nat)
    requires c < |ps|
  {
    |qs| == |ps| && forall j: nat {:trigger qs[j]} :: j < |ps| ==> qs[j] == AfterExit(ps, init, c, j)
  }

  /** The slot wait gives back to the system. */
  function Reaped(x: Slot): Slot {
    x.(state := UNUSED, pid := 0, parent := NOBODY, killed := false)
  }

  datatype Waited = Reap(z: nat) | NoChildren | Asleep

  ghost predicate HasChild(ps: seq<Slot>, c: int) {
    exists j :: 0 <= j < |ps| && ps[j].parent == c
  }

  /** What one pass of wait's loop does: it takes the first zombie child, or gives up because there
      is no child or the caller was killed, or goes to sleep on its own slot. */
  ghost predicate Waits(ps: seq<Slot>, c: nat, w: Waited)
    requires c < |ps|
  {
    match w
    case Reap(z) => z < |ps| && ZombieOf(ps[z], c) && forall j :: 0 <= j < z ==> !ZombieOf(ps[j], c)
    case NoChildren => !HasZombie(ps, c) && (!HasChild(ps, c) || ps[c].killed)
    case Asleep => !HasZombie(ps, c) && HasChild(ps, c) && !ps[c].killed
  }

  ghost function AfterWait(ps: seq<Slot>, c: nat, w: Waited): seq<Slot>
    requires c < |ps| && Waits(ps, c, w)
  {
    var qs := ps[c := ps[c].(chan := NoChan)];
    match w
    case Reap(z) => qs[z := Reaped(qs[z])]
    case NoChildren => qs
    case Asleep => qs[c := qs[c].(chan := OnProc(c), state := SLEEPING)]
  }

  // ---------------------------------------------------------------- the machine

  datatype Action =
    | Alloc(c: nat, np: nat, pid: int)  // allocproc takes a slot for c's fork
    | Unalloc(c: nat)                   // fork fails before the parent is set
    | Link(c: nat)                      // fork sets the parent
    | Start(c: nat)                     // fork makes the child RUNNABLE
    | Exit(c: nat)
    | Wait(c: nat, w: Waited)
    | Kill(c: nat)
    | Dispatch(c: nat)
    | Yield(c: nat)
    | Sleep(c: nat, n: nat)             // a sleep on any other channel
    | Wake(c: nat, n: nat)              // a wakeup on any other channel

  /** The process table, and init's slot. */
  datatype State = State(ps: seq<Slot>, init: nat)

  ghost predicate Enabled(s: State, a: Action) {
    && a.c < |s.ps|
    && var x := s.ps[a.c];
       match a
       case Alloc(_, np, _) => x.state == RUNNING && x.fork == NotForking && np < |s.ps| && s.ps[np].state == UNUSED
       case Unalloc(_) => x.state == RUNNING && x.fork.Child? && !x.fork.linked && x.fork.np < |s.ps|
       case Link(_) => x.state == RUNNING && x.fork.Child? && !x.fork.linked && x.fork.np < |s.ps|
       case Start(_) => x.state == RUNNING && x.fork.Child? && x.fork.linked && x.fork.np < |s.ps|
       case Exit(_) => x.state == RUNNING && x.fork == NotForking && a.c != s.init
       case Wait(_, w) => x.state == RUNNING && x.fork == NotForking && Waits(s.ps, a.c, w)
       case Kill(_) => true
       case Dispatch(_) => x.state == RUNNABLE
       case Yield(_) => x.state == RUNNING
       case Sleep(_, _) => x.state == RUNNING
       case Wake(_, _) => true
  }

  ghost predicate Steps(s: State, a: Action, t: State)
    requires Enabled(s, a)
  {
    var c, x := a.c, s.ps[a.c];
    && t.init == s.init
    && match a
       case Alloc(_, np, pid) =>
         t.ps == s.ps[np := s.ps[np].(state := EMBRYO, pid := pid)][c := x.(fork := Child(np, false))]
       case Unalloc(_) => t.ps == s.ps[x.fork.np := s.ps[x.fork.np].(state := UNUSED)][c := x.(fork := NotForking)]
       case Link(_) => t.ps == s.ps[x.fork.np := s.ps[x.fork.np].(parent := c)][c := x.(fork := Child(x.fork.np, true))]
       case Start(_) => t.ps == s.ps[x.fork.np := s.ps[x.fork.np].(state := RUNNABLE)][c := x.(fork := NotForking)]
       case Exit(_) => Exits(s.ps, t.ps, s.init, c)
       case Wait(_, w) => t.ps == AfterWait(s.ps, c, w)
       case Kill(_) => t.ps == s.ps[c := x.(killed := true, state := if x.state == SLEEPING then RUNNABLE else x.state)]
       case Dispatch(_) => t.ps == s.ps[c := x.(state := RUNNING)]
       case Yield(_) => t.ps == s.ps[c := x.(state := RUNNABLE)]
       case Sleep(_, n) => t.ps == s.ps[c := x.(state := SLEEPING, chan := OnOther(n))]
       case Wake(_, n) =>
         |t.ps| == |s.ps| && forall j: nat {:trigger t.ps[j]} :: j < |s.ps| ==> t.ps[j] == Woken(s.ps[j], OnOther(n))
  }

  /** Only init, which nobody forked. */
  ghost predicate Init(s: State) {
    && s.init < |s.ps|
    && (forall i :: 0 <= i < |s.ps| ==> s.ps[i].parent == NOBODY && s.ps[i].fork == NotForking)
    && (forall i :: 0 <= i < |s.ps| && i != s.init ==> s.ps[i].state == UNUSED)
    && s.ps[s.init].state == RUNNABLE
  }

  ghost predicate StepAt(tr: seq<State>, k: nat)
    requires k + 1 < |tr|
  {
    exists a :: Enabled(tr[k], a) && Steps(tr[k], a, tr[k + 1])
  }

  ghost predicate Run(tr: seq<State>) {
    tr != [] && Init(tr[0]) && forall k: nat {:trigger StepAt(tr, k)} :: k < |tr| - 1 ==> StepAt(tr, k)
  }

  /** After a wakeup nobody sleeps on its channel, and whoever slept there can run. */
  lemma WakeWakesAll(s: State, c: nat, n: nat, t: State, j: nat)
    requires Enabled(s, Wake(c, n)) && Steps(s, Wake(c, n), t) && j < |s.ps|
    ensures j < |t.ps| && !(t.ps[j].state == SLEEPING && t.ps[j].chan == OnOther(n))
    ensures s.ps[j].state == SLEEPING && s.ps[j].chan == OnOther(n) ==> t.ps[j] == s.ps[j].(state := RUNNABLE)
    ensures !(s.ps[j].state == SLEEPING && s.ps[j].chan == OnOther(n)) ==> t.ps[j] == s.ps[j]
  {
    assert t.ps[j] == Woken(s.ps[j], OnOther(n));
  }

  /** In every run the flag that kill sets stays until the slot is given back. */
  lemma {:induction false} KilledStays(tr: seq<State>, i: nat, j: nat, k: nat)
    requires Run(tr) && j <= k < |tr| && i < |tr[j].ps| && tr[j].ps[i].killed
    requires forall m :: j <= m <= k ==> i < |tr[m].ps| && tr[m].ps[i].state != UNUSED
    ensures tr[k].ps[i].killed
    decreases k
  {
    if j < k {
      KilledStays(tr, i, j, k - 1);
      assert StepAt(tr, k - 1);
      var a :| Enabled(tr[k - 1], a) && Steps(tr[k - 1], a, tr[k]);
      KilledKept(tr[k - 1], a, tr[k], i);
    }
  }

  lemma KilledKept(s: State, a: Action, t: State, i: nat)
    requires Enabled(s, a) && Steps(s, a, t) && i < |s.ps| && s.ps[i].killed
    ensures i < |t.ps| && (t.ps[i].killed || t.ps[i].state == UNUSED)
  {
    if a.Exit? {
      assert i < |t.ps| && t.ps[i] == AfterExit(s.ps, s.init, a.c, i);
    } else if a.Wake? {
      assert i < |t.ps| && t.ps[i] == Woken(s.ps[i], OnOther(a.n));
    }
  }

  // ---------------------------------------------------------------- the invariant

  ghost predicate HasParent(ps: seq<Slot>, x: Slot) {
    0 <= x.parent < |ps| && Live(ps[x.parent])
  }

  /** Asleep in wait. */
  predicate Waiting(x: Slot) {
    x.state == SLEEPING && x.chan.OnProc?
  }

  ghost predicate LiveChild(ps: seq<Slot>, c: int, j: int) {
    0 <= j < |ps| && ps[j].parent == c && Live(ps[j])
  }

  /** A started process other than init has a live parent, a slot in the making belongs to one
      forker, and an unused one to nobody. */
  ghost predicate LinksOk(ps: seq<Slot>, init: nat, i: nat)
    requires i < |ps|
  {
    var x := ps[i];
    && x.parent != i
    && (i == init ==> Live(x) && x.parent == NOBODY)
    && ((Live(x) || x.state == ZOMBIE) && i != init ==> HasParent(ps, x))
    && (x.state == UNUSED ==> x.parent == NOBODY)
    && (x.state == EMBRYO && x.parent != NOBODY ==> HasParent(ps, x) && ps[x.parent].fork == Child(i, true))
    && (x.fork.Child? ==>
          && Live(x) && !Waiting(x) && x.fork.np < |ps| && ps[x.fork.np].state == EMBRYO
          && ps[x.fork.np].parent == if x.fork.linked then i else NOBODY)
  }

  /** A process asleep in wait has a live child and no zombie child. */
  ghost predicate WaitOk(ps: seq<Slot>, i: nat)
    requires i < |ps|
  {
    Waiting(ps[i]) ==> ps[i].chan == OnProc(i) && !HasZombie(ps, i) && exists j :: LiveChild(ps, i, j)
  }

  /** No two processes fork into one slot. */
  ghost predicate OneForker(ps: seq<Slot>) {
    forall i, j {:trigger ps[i].fork, ps[j].fork} ::
      0 <= i < |ps| && 0 <= j < |ps| && ps[i].fork.Child? && ps[j].fork.Child? && ps[i].fork.np == ps[j].fork.np
      ==> i == j
  }

  ghost predicate Inv(s: State) {
    && s.init < |s.ps| && OneForker(s.ps)
    && (forall i: nat {:trigger LinksOk(s.ps, s.init, i)} :: i < |s.ps| ==> LinksOk(s.ps, s.init, i))
    && (forall i: nat {:trigger WaitOk(s.ps, i)} :: i < |s.ps| ==> WaitOk(s.ps, i))
  }

  /** What exit leaves of a slot's links. */
  lemma ExitSlot(ps: seq<Slot>, init: nat, c: nat, j: nat)
    requires c < |ps| && j < |ps|
    ensures var x, y := ps[j], AfterExit(ps, init, c, j);
      && y.fork == x.fork && y.parent == (if x.parent == c then init else x.parent)
      && (Live(y) <==> j != c && Live(x)) && (y.state == EMBRYO <==> j != c && x.state == EMBRYO)
      && (y.state == UNUSED <==> j != c && x.state == UNUSED) && (Waiting(y) ==> Waiting(x) && j != c)
  {
  }

  lemma ExitLinks(ps: seq<Slot>, qs: seq<Slot>, init: nat, c: nat, i: nat)
    requires c < |ps| && i < |ps| && init < |ps| && Exits(ps, qs, init, c)
    requires ps[c].state == RUNNING && ps[c].fork == NotForking && c != init
    requires LinksOk(ps, init, i) && LinksOk(ps, init, init)
    ensures LinksOk(qs, init, i)
  {
    ExitSlot(ps, init, c, i);
    ExitSlot(ps, init, c, init);
    if 0 <= ps[i].parent < |ps| {
      ExitSlot(ps, init, c, ps[i].parent);
    }
    if ps[i].fork.Child? && ps[i].fork.np < |ps| {
      ExitSlot(ps, init, c, ps[i].fork.np);
    }
  }

  predicate ForkStep(a: Action) {
    a.Alloc? || a.Unalloc? || a.Link? || a.Start?
  }

  ghost predicate LinksAt(s: State, i: nat) {
    i < |s.ps| && LinksOk(s.ps, s.init, i)
  }

  lemma ForkLinks(s: State, a: Action, t: State, np: nat, i: nat)
    requires Enabled(s, a) && Steps(s, a, t) && ForkStep(a) && np == (if a.Alloc? then a.np else s.ps[a.c].fork.np)
    requires LinksAt(s, i) && LinksAt(s, a.c) && LinksAt(s, np)
    requires s.ps[i].fork.Child? && s.ps[i].fork.np == np ==> i == a.c
    ensures LinksAt(t, i)
  {
    match a
    case Alloc(_, _, _) => AllocLinks(s, a, t, i);
    case Unalloc(_) => UnallocLinks(s, a, t, i);
    case Link(_) => LinkLinks(s, a, t, i);
    case Start(_) => StartLinks(s, a, t, i);
  }

  lemma AllocLinks(s: State, a: Action, t: State, i: nat)
    requires a.Alloc? && Enabled(s, a) && Steps(s, a, t) && LinksAt(s, i) && LinksAt(s, a.c) && LinksAt(s, a.np)
    requires s.ps[i].fork.Child? && s.ps[i].fork.np == a.np ==> i == a.c
    ensures LinksAt(t, i)
  {
  }

  lemma UnallocLinks(s: State, a: Action, t: State, i: nat)
    requires a.Unalloc? && Enabled(s, a) && Steps(s, a, t) && var np := s.ps[a.c].fork.np;
      && LinksAt(s, i) && LinksAt(s, a.c) && LinksAt(s, np)
      && (s.ps[i].fork.Child? && s.ps[i].fork.np == np ==> i == a.c)
    ensures LinksAt(t, i)
  {
  }

  lemma LinkLinks(s: State, a: Action, t: State, i: nat)
    requires a.Link? && Enabled(s, a) && Steps(s, a, t) && var np := s.ps[a.c].fork.np;
      && LinksAt(s, i) && LinksAt(s, a.c) && LinksAt(s, np)
      && (s.ps[i].fork.Child? && s.ps[i].fork.np == np ==> i == a.c)
    ensures LinksAt(t, i)
  {
  }

  lemma StartLinks(s: State, a: Action, t: State, i: nat)
    requires a.Start? && Enabled(s, a) && Steps(s, a, t) && var np := s.ps[a.c].fork.np;
      && LinksAt(s, i) && LinksAt(s, a.c) && LinksAt(s, np)
      && (s.ps[i].fork.Child? && s.ps[i].fork.np == np ==> i == a.c)
    ensures LinksAt(t, i)
  {
  }

  lemma WaitLinks(s: State, c: nat, w: Waited, t: State, i: nat)
    requires Enabled(s, Wait(c, w)) && Steps(s, Wait(c, w), t)
    requires LinksAt(s, i) && LinksAt(s, c) && (w.Reap? ==> LinksAt(s, w.z))
    ensures LinksAt(t, i)
  {
  }

  /** Slots that differ only in how they are scheduled. */
  predicate Alike(x: Slot, y: Slot) {
    && y.parent == x.parent && y.fork == x.fork
    && (y.state == x.state || (Live(x) && Live(y))) && (Waiting(y) ==> Waiting(x))
  }

  lemma OtherLinks(s: State, a: Action, t: State, i: nat)
    requires Enabled(s, a) && Steps(s, a, t) && !ForkStep(a) && !a.Exit? && !a.Wait?
    requires LinksAt(s, i) && LinksAt(s, a.c)
    ensures LinksAt(t, i)
  {
    assert |t.ps| == |s.ps| && forall j :: 0 <= j < |s.ps| ==> Alike(s.ps[j], t.ps[j]);
    AlikeLinks(s.ps, t.ps, s.init, i);
  }

  lemma AlikeLinks(ps: seq<Slot>, qs: seq<Slot>, init: nat, i: nat)
    requires |ps| == |qs| && i < |ps| && LinksOk(ps, init, i)
    requires forall j :: 0 <= j < |ps| ==> Alike(ps[j], qs[j])
    ensures LinksOk(qs, init, i)
  {
  }

  lemma ExitWaiters(s: State, c: nat, t: State, i: nat)
    requires Inv(s) && Enabled(s, Exit(c)) && Steps(s, Exit(c), t) && i < |t.ps|
    ensures WaitOk(t.ps, i)
  {
    assert LinksOk(s.ps, s.init, c) && WaitOk(s.ps, i) && LinksOk(s.ps, s.init, i);
    if Waiting(t.ps[i]) {
      assert Waiting(s.ps[i]) && i != s.ps[c].parent && i != c;
      forall j | 0 <= j < |t.ps| ensures !ZombieOf(t.ps[j], i) {
        assert j != c ==> t.ps[j].state == ZOMBIE ==> s.ps[j].state == ZOMBIE;
        assert !ZombieOf(s.ps[j], i);
        assert ZombieOf(s.ps[j], c) ==> HasZombie(s.ps, c);
      }
      var j :| LiveChild(s.ps, i, j);
      assert LiveChild(t.ps, i, j);
    }
  }

  lemma WaitWaiters(s: State, c: nat, w: Waited, t: State, i: nat)
    requires Inv(s) && Enabled(s, Wait(c, w)) && Steps(s, Wait(c, w), t) && i < |t.ps|
    ensures WaitOk(t.ps, i)
  {
    assert WaitOk(s.ps, i);
    if Waiting(t.ps[i]) {
      forall j | 0 <= j < |t.ps| ensures !ZombieOf(t.ps[j], i) {
        assert !ZombieOf(s.ps[j], i);
      }
      if i == c {
        var j :| 0 <= j < |s.ps| && s.ps[j].parent == c;
        assert LinksOk(s.ps, s.init, j) && LinksOk(s.ps, s.init, c);
        assert LiveChild(t.ps, i, j);
      } else {
        var j :| LiveChild(s.ps, i, j);
        assert LiveChild(t.ps, i, j);
      }
    }
  }

  /** The other steps make no zombie, end no process and put nobody to sleep in wait. */
  lemma OtherWaiters(s: State, a: Action, t: State, i: nat)
    requires Inv(s) && Enabled(s, a) && Steps(s, a, t) && i < |t.ps| && !a.Exit? && !a.Wait?
    ensures WaitOk(t.ps, i)
  {
    assert |t.ps| == |s.ps|;
    assert WaitOk(s.ps, i) && LinksOk(s.ps, s.init, a.c);
    if Waiting(t.ps[i]) {
      forall j | 0 <= j < |t.ps| ensures !ZombieOf(t.ps[j], i) {
        assert !ZombieOf(s.ps[j], i);
      }
      var j :| LiveChild(s.ps, i, j);
      assert LiveChild(t.ps, i, j);
    }
  }

  lemma StepLinks(s: State, a: Action, t: State, i: nat)
    requires Inv(s) && Enabled(s, a) && Steps(s, a, t) && i < |t.ps|
    ensures LinksOk(t.ps, t.init, i)
  {
    assert LinksOk(s.ps, s.init, i) && LinksOk(s.ps, s.init, a.c) && LinksOk(s.ps, s.init, s.init);
    if a.Exit? {
      ExitLinks(s.ps, t.ps, s.init, a.c, i);
    } else if ForkStep(a) {
      var np := if a.Alloc? then a.np else s.ps[a.c].fork.np;
      assert LinksOk(s.ps, s.init, np);
      ForkLinks(s, a, t, np, i);
    } else if a.Wait? {
      assert a.w.Reap? ==> LinksOk(s.ps, s.init, a.w.z);
      WaitLinks(s, a.c, a.w, t, i);
    } else {
      OtherLinks(s, a, t, i);
    }
  }

  lemma StepKeepsInv(s: State, a: Action, t: State)
    requires Inv(s) && Enabled(s, a) && Steps(s, a, t)
    ensures Inv(t)
  {
    forall i: nat | i < |t.ps| ensures LinksOk(t.ps, t.init, i) && WaitOk(t.ps, i) {
      match a {
        case Exit(c) => ExitWaiters(s, c, t, i);
        case Wait(c, w) => WaitWaiters(s, c, w, t, i);
        case _ => OtherWaiters(s, a, t, i);
      }
      StepLinks(s, a, t, i);
    }
    ForkersKept(s, a, t);
  }

  lemma ForkField(s: State, a: Action, t: State, j: nat)
    requires Enabled(s, a) && Steps(s, a, t) && j < |t.ps| && t.ps[j].fork.Child?
    ensures |t.ps| == |s.ps|
    ensures
      || (s.ps[j].fork.Child? && s.ps[j].fork.np == t.ps[j].fork.np)
      || (a.Alloc? && j == a.c && t.ps[j].fork.np == a.np)
  {
    if a.Exit? {
      ExitSlot(s.ps, s.init, a.c, j);
    }
  }

  lemma ForkersKept(s: State, a: Action, t: State)
    requires Inv(s) && Enabled(s, a) && Steps(s, a, t)
    ensures OneForker(t.ps)
  {
    forall i, j |
      && 0 <= i < |t.ps| && 0 <= j < |t.ps|
      && t.ps[i].fork.Child? && t.ps[j].fork.Child? && t.ps[i].fork.np == t.ps[j].fork.np
      ensures i == j
    {
      ForkField(s, a, t, i);
      ForkField(s, a, t, j);
      assert LinksOk(s.ps, s.init, i) && LinksOk(s.ps, s.init, j);
    }
  }

  /** A process leaves its sleep only by a wakeup on its channel, a kill, or, in wait, the exit of a process. */
  lemma WokenOnlyBy(s: State, a: Action, t: State, i: nat)
    requires Inv(s) && Enabled(s, a) && Steps(s, a, t) && i < |s.ps| && s.ps[i].state == SLEEPING
    ensures i < |t.ps|
    ensures t.ps[i].state != SLEEPING ==>
      (a.Wake? && s.ps[i].chan == OnOther(a.n)) || (a.Kill? && a.c == i) || (a.Exit? && s.ps[i].chan.OnProc?)
  {
    assert LinksOk(s.ps, s.init, a.c);
    if a.Exit? {
      assert i < |t.ps| && t.ps[i] == AfterExit(s.ps, s.init, a.c, i);
    } else if a.Wake? {
      assert i < |t.ps| && t.ps[i] == Woken(s.ps[i], OnOther(a.n));
    }
  }

  lemma InitInv(s: State)
    requires Init(s)
    ensures Inv(s)
  {
  }

  lemma {:induction false} RunKeepsInv(tr: seq<State>, k: nat)
    requires Run(tr) && k < |tr|
    ensures Inv(tr[k])
  {
    if k > 0 {
      RunKeepsInv(tr, k - 1);
      assert StepAt(tr, k - 1);
      var a :| Enabled(tr[k - 1], a) && Steps(tr[k - 1], a, tr[k]);
      StepKeepsInv(tr[k - 1], a, tr[k]);
    }
  }

  /** In every run, whenever the table's lock is free: a process asleep in wait has no zombie child
      and has a child that can still exit. */
  lemma NoLostExit(tr: seq<State>, k: nat, i: nat)
    requires Run(tr) && k < |tr| && i < |tr[k].ps| && Waiting(tr[k].ps[i])
    ensures !HasZombie(tr[k].ps, i) && exists j :: LiveChild(tr[k].ps, i, j)
  {
    RunKeepsInv(tr, k);
    assert WaitOk(tr[k].ps, i);
  }

  /** In every run, every started process but init has a live parent, so every zombie has somebody
      to collect it; and init is alive. */
  lemma NoOrphan(tr: seq<State>, k: nat, i: nat)
    requires Run(tr) && k < |tr| && i < |tr[k].ps| && (Live(tr[k].ps[i]) || tr[k].ps[i].state == ZOMBIE)
    ensures if i == tr[k].init then Live(tr[k].ps[i]) else HasParent(tr[k].ps, tr[k].ps[i])
  {
    RunKeepsInv(tr, k);
    assert LinksOk(tr[k].ps, tr[k].init, i);
  }
}
