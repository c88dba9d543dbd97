/**
  Sleep locks and reentrant locks (sleeplock.c, reentrantlock.c) over sleep and wakeup (proc.c),
  one statement at a time. Any number of processes call acquirereentrant and releasereentrant
  at any moment, matched or not, and kill may end any sleep. A spinlock is taken in one step
  when it is free; every other step is one read or one write of shared memory. wakeup1's loop is
  one step because ptable.lock covers it.
*/
module Locks {

  /** Where a process stands. Idle is any place outside this code. */
  datatype Pc =
    | Idle
    // acquirereentrant
    | AcqReadLocked | AcqReadPid
    // acquiresleep
    | TakeSpin | Test | SetLocked | SetPid | DropSpin
    // sleep
    | SleepTakePt | SleepDropSpin | SleepMark | SleepSched | SleepWait | SleepTidy | SleepRetake
    // the rest of acquirereentrant
    | AcqSetLocked | AcqSetPid | AcqCount
    // releasereentrant
    | RelReadLocked | RelReadPid | RelCount | RelClearLocked | RelClearPid
    // releasesleep, with wakeup inside
    | RetakeSpin | ClearLocked | ClearPid | WakeTakePt | WakeLoop | WakeDropPt | RedropSpin

  /** Shared memory. A spinlock is the pid of its holder, or 0. The last two fields are history:
      who has the sleep lock, and whether a releaser's wakeup is still to come. */
  datatype Memory = Memory(
    spin: nat, pt: nat,
    locked: bool, pid: nat,
    rlocked: bool, rpid: nat, recursion: int,
    owner: nat, pending: bool)

  /** A process: where it stands, its unmatched acquires, and whether it is SLEEPING on the lock. */
  datatype Proc = Proc(pc: Pc, depth: nat, asleep: bool)

  datatype Local = Local(m: Memory, proc: Proc)

  /** Whether the statement at c does not have to wait. */
  predicate Ready(m: Memory, x: Proc) {
    match x.pc
    case Idle => false
    case TakeSpin => m.spin == 0
    case SleepRetake => m.spin == 0
    case RetakeSpin => m.spin == 0
    case SleepTakePt => m.pt == 0
    case WakeTakePt => m.pt == 0
    case SleepWait => !x.asleep && m.pt == 0
    case _ => true
  }

  /** One statement of process p. What wakeup1 does to the others is in Next. */
  function Statement(m: Memory, p: nat, x: Proc): Local
    requires Ready(m, x)
  {
    match x.pc
    case AcqReadLocked => Local(m, x.(pc := if m.rlocked then AcqReadPid else TakeSpin))
    case AcqReadPid => Local(m, x.(pc := if m.rpid == p then AcqCount else TakeSpin))
    case TakeSpin => Local(m.(spin := p), x.(pc := Test))
    case Test => Local(m, x.(pc := if m.locked then SleepTakePt else SetLocked))
    case SetLocked => Local(m.(locked := true, owner := p), x.(pc := SetPid))
    case SetPid => Local(m.(pid := p), x.(pc := DropSpin))
    case DropSpin => Local(m.(spin := 0), x.(pc := AcqSetLocked))
    case SleepTakePt => Local(m.(pt := p), x.(pc := SleepDropSpin))
    case SleepDropSpin => Local(m.(spin := 0), x.(pc := SleepMark))
    case SleepMark => Local(m, x.(pc := SleepSched, asleep := true))
    case SleepSched => Local(m.(pt := 0), x.(pc := SleepWait))
    case SleepWait => Local(m.(pt := p), x.(pc := SleepTidy))
    case SleepTidy => Local(m.(pt := 0), x.(pc := SleepRetake))
    case SleepRetake => Local(m.(spin := p), x.(pc := Test))
    case AcqSetLocked => Local(m.(rlocked := true), x.(pc := AcqSetPid))
    case AcqSetPid => Local(m.(rpid := p), x.(pc := AcqCount))
    case AcqCount => Local(m.(recursion := m.recursion + 1), x.(pc := Idle, depth := x.depth + 1))
    case RelReadLocked => Local(m, x.(pc := if m.rlocked then RelReadPid else Idle))
    case RelReadPid => Local(m, x.(pc := if m.rpid == p then RelCount else Idle))
    case RelCount =>
      Local(m.(recursion := m.recursion - 1),
        x.(pc := if m.recursion - 1 == 0 then RelClearLocked else Idle,
           depth := if x.depth > 0 then x.depth - 1 else 0))
    case RelClearLocked => Local(m.(rlocked := false), x.(pc := RelClearPid))
    case RelClearPid => Local(m.(rpid := 0), x.(pc := RetakeSpin))
    case RetakeSpin => Local(m.(spin := p), x.(pc := ClearLocked))
    case ClearLocked => Local(m.(locked := false, owner := 0, pending := true), x.(pc := ClearPid))
    case ClearPid => Local(m.(pid := 0), x.(pc := WakeTakePt))
    case WakeTakePt => Local(m.(pt := p), x.(pc := WakeLoop))
    case WakeLoop => Local(m.(pending := false), x.(pc := WakeDropPt))
    case WakeDropPt => Local(m.(pt := 0), x.(pc := RedropSpin))
    case RedropSpin => Local(m.(spin := 0), x.(pc := Idle))
  }

  // ---------------------------------------------------------------- what holds at every place

  predicate HoldsSpin(c: Pc) {
    || c.Test? || c.SetLocked? || c.SetPid? || c.DropSpin? || c.SleepTakePt? || c.SleepDropSpin?
    || c.ClearLocked? || c.ClearPid? || c.WakeTakePt? || c.WakeLoop? || c.WakeDropPt? || c.RedropSpin?
  }

  predicate HoldsPt(c: Pc) {
    c.SleepDropSpin? || c.SleepMark? || c.SleepSched? || c.SleepTidy? || c.WakeLoop? || c.WakeDropPt?
  }

  /** Places where a process can be with the reentrant lock held or not. */
  predicate Outer(c: Pc) {
    c.Idle? || c.AcqReadLocked? || c.AcqReadPid? || c.RelReadLocked? || c.RelReadPid?
  }

  /** Where the reentrant lock names this process. */
  predicate Named(x: Proc) {
    if Outer(x.pc) then x.depth > 0 else x.pc.AcqCount? || x.pc.RelCount? || x.pc.RelClearLocked? || x.pc.RelClearPid?
  }

  /** From SetPid up to ClearLocked the sleep lock is this process's. */
  predicate Owns(x: Proc) {
    || Named(x) || x.pc.SetPid? || x.pc.DropSpin? || x.pc.AcqSetLocked? || x.pc.AcqSetPid?
    || x.pc.RetakeSpin? || x.pc.ClearLocked?
  }

  predicate ProcOk(m: Memory, p: nat, x: Proc) {
    var c := x.pc;
    && (HoldsSpin(c) <==> m.spin == p)
    && (HoldsPt(c) <==> m.pt == p)
    && (Owns(x) <==> m.owner == p)
    && (Named(x) <==> m.rpid == p)
    && ((Owns(x) && !c.SetPid?) || c.ClearPid? <==> m.pid == p)
    && (c.ClearPid? || c.WakeTakePt? || c.WakeLoop? <==> m.pending && m.spin == p)
    && (!Outer(c) && !c.AcqCount? && !c.RelCount? ==> x.depth == 0)
    && (c.RelCount? ==> x.depth > 0)
    && ((Named(x) && !c.RelClearPid?) || c.AcqSetPid? ==> m.rlocked)
    && (Owns(x) && (!Named(x) || c.RelClearPid?) && !c.AcqSetPid? ==> !m.rlocked)
    && (Owns(x) ==> m.recursion == x.depth)
    && (x.asleep ==> c.SleepSched? || c.SleepWait?)
    && (c.SetLocked? ==> !m.locked)
    && (c.SleepTakePt? || c.SleepDropSpin? ==> m.locked)
    && (c.SleepMark? || x.asleep ==> m.locked || m.pending)
  }

  predicate MemoryOk(m: Memory) {
    && (m.locked <==> m.owner != 0)
    && (m.owner == 0 ==> m.recursion == 0 && !m.rlocked)
    && (m.rpid == 0 || m.rpid == m.owner)
    && (m.pid == 0 || m.pid == m.owner || (m.pending && m.pid == m.spin))
    && (m.pending ==> m.spin != 0)
  }

  /** A field that holds a pid changes only from 0 to p or from p to 0. */
  predicate Handed(before: nat, after: nat, p: nat) {
    after == before || ((before == 0 || before == p) && (after == 0 || after == p))
  }

  /** What a statement of p may do to what the others rely on. */
  predicate Changes(m: Memory, n: Memory, p: nat) {
    && Handed(m.spin, n.spin, p) && Handed(m.pt, n.pt, p) && Handed(m.owner, n.owner, p)
    && Handed(m.rpid, n.rpid, p) && Handed(m.pid, n.pid, p)
    && (n.locked != m.locked || n.pending != m.pending ==> m.spin == p)
    && (n.rlocked != m.rlocked || n.recursion != m.recursion ==> m.owner == p)
    && (m.locked || m.pending ==> n.locked || n.pending || m.pt == p)
  }

  /** A statement keeps what holds of memory and of its process, and touches only its own. */
  ghost predicate Kept(m: Memory, p: nat, x: Proc)
    requires Ready(m, x)
  {
    var t := Statement(m, p, x);
    MemoryOk(t.m) && ProcOk(t.m, p, t.proc) && Changes(m, t.m, p)
  }

  lemma ReadKept(m: Memory, p: nat, x: Proc)
    requires p != 0 && MemoryOk(m) && ProcOk(m, p, x) && Ready(m, x)
    requires x.pc.AcqReadLocked? || x.pc.AcqReadPid? || x.pc.RelReadLocked? || x.pc.RelReadPid?
    ensures Kept(m, p, x)
  {
  }

  lemma AcquireSleepKept(m: Memory, p: nat, x: Proc)
    requires p != 0 && MemoryOk(m) && ProcOk(m, p, x) && Ready(m, x)
    requires x.pc.TakeSpin? || x.pc.Test? || x.pc.SetLocked? || x.pc.SetPid? || x.pc.DropSpin?
    ensures Kept(m, p, x)
  {
  }

  lemma SleepDownKept(m: Memory, p: nat, x: Proc)
    requires p != 0 && MemoryOk(m) && ProcOk(m, p, x) && Ready(m, x)
    requires x.pc.SleepTakePt? || x.pc.SleepDropSpin? || x.pc.SleepMark? || x.pc.SleepSched?
    ensures Kept(m, p, x)
  {
  }

  lemma SleepUpKept(m: Memory, p: nat, x: Proc)
    requires p != 0 && MemoryOk(m) && ProcOk(m, p, x) && Ready(m, x)
    requires x.pc.SleepWait? || x.pc.SleepTidy? || x.pc.SleepRetake?
    ensures Kept(m, p, x)
  {
  }

  lemma AcquiredKept(m: Memory, p: nat, x: Proc)
    requires p != 0 && MemoryOk(m) && ProcOk(m, p, x) && Ready(m, x)
    requires x.pc.AcqSetLocked? || x.pc.AcqSetPid? || x.pc.AcqCount?
    ensures Kept(m, p, x)
  {
  }

  lemma ReleasingKept(m: Memory, p: nat, x: Proc)
    requires p != 0 && MemoryOk(m) && ProcOk(m, p, x) && Ready(m, x)
    requires x.pc.RelCount? || x.pc.RelClearLocked? || x.pc.RelClearPid?
    ensures Kept(m, p, x)
  {
  }

  lemma ClearKept(m: Memory, p: nat, x: Proc)
    requires p != 0 && MemoryOk(m) && ProcOk(m, p, x) && Ready(m, x)
    requires x.pc.RetakeSpin? || x.pc.ClearLocked? || x.pc.ClearPid?
    ensures Kept(m, p, x)
  {
  }

  lemma WakeKept(m: Memory, p: nat, x: Proc)
    requires p != 0 && MemoryOk(m) && ProcOk(m, p, x) && Ready(m, x)
    requires x.pc.WakeTakePt? || x.pc.WakeLoop? || x.pc.WakeDropPt? || x.pc.RedropSpin?
    ensures Kept(m, p, x)
  {
  }

  lemma StatementKept(m: Memory, p: nat, x: Proc)
    requires p != 0 && MemoryOk(m) && ProcOk(m, p, x) && Ready(m, x)
    ensures Kept(m, p, x)
  {
    match x.pc
    case AcqReadLocked => ReadKept(m, p, x);
    case AcqReadPid => ReadKept(m, p, x);
    case RelReadLocked => ReadKept(m, p, x);
    case RelReadPid => ReadKept(m, p, x);
    case TakeSpin => AcquireSleepKept(m, p, x);
    case Test => AcquireSleepKept(m, p, x);
    case SetLocked => AcquireSleepKept(m, p, x);
    case SetPid => AcquireSleepKept(m, p, x);
    case DropSpin => AcquireSleepKept(m, p, x);
    case SleepTakePt => SleepDownKept(m, p, x);
    case SleepDropSpin => SleepDownKept(m, p, x);
    case SleepMark => SleepDownKept(m, p, x);
    case SleepSched => SleepDownKept(m, p, x);
    case SleepWait => SleepUpKept(m, p, x);
    case SleepTidy => SleepUpKept(m, p, x);
    case SleepRetake => SleepUpKept(m, p, x);
    case AcqSetLocked => AcquiredKept(m, p, x);
    case AcqSetPid => AcquiredKept(m, p, x);
    case AcqCount => AcquiredKept(m, p, x);
    case RelCount => ReleasingKept(m, p, x);
    case RelClearLocked => ReleasingKept(m, p, x);
    case RelClearPid => ReleasingKept(m, p, x);
    case RetakeSpin => ClearKept(m, p, x);
    case ClearLocked => ClearKept(m, p, x);
    case ClearPid => ClearKept(m, p, x);
    case WakeTakePt => WakeKept(m, p, x);
    case WakeLoop => WakeKept(m, p, x);
    case WakeDropPt => WakeKept(m, p, x);
    case RedropSpin => WakeKept(m, p, x);
  }

  lemma OtherKept(m: Memory, n: Memory, p: nat, q: nat, x: Proc)
    requires p != 0 && q != 0 && p != q && MemoryOk(m) && ProcOk(m, q, x) && Changes(m, n, p)
    requires x.asleep ==> n.locked || n.pending
    ensures ProcOk(n, q, x)
  {
  }

  // ---------------------------------------------------------------- runs

  /** Pids run from 1; index 0 of the sequence is unused. */
  datatype State = State(m: Memory, procs: seq<Proc>)

  datatype Action = Acquire(p: nat) | Release(p: nat) | Step(p: nat) | Kill(p: nat)

  ghost predicate IsProc(s: State, p: nat) {
    0 < p < |s.procs|
  }

  ghost predicate Enabled(s: State, a: Action) {
    && IsProc(s, a.p)
    && match a
       case Step(p) => Ready(s.m, s.procs[p])
       case Kill(_) => s.m.pt == 0
       case _ => s.procs[a.p].pc.Idle?
  }

  function Awake(xs: seq<Proc>): (r: seq<Proc>)
    ensures |r| == |xs| && forall i :: 0 <= i < |xs| ==> r[i] == xs[i].(asleep := false)
  {
    if xs == [] then [] else Awake(xs[..|xs| - 1]) + [xs[|xs| - 1].(asleep := false)]
  }

  ghost function Next(s: State, a: Action): State
    requires Enabled(s, a)
  {
    var x := s.procs[a.p];
    match a
    case Acquire(p) => s.(procs := s.procs[p := x.(pc := AcqReadLocked)])
    case Release(p) => s.(procs := s.procs[p := x.(pc := RelReadLocked)])
    case Kill(p) => s.(procs := s.procs[p := x.(asleep := false)])
    case Step(p) =>
      var t := Statement(s.m, p, x);
      State(t.m, (if x.pc.WakeLoop? then Awake(s.procs) else s.procs)[p := t.proc])
  }

  const FREE := Memory(0, 0, false, 0, false, 0, 0, 0, false)

  /** All locks free and all processes outside. */
  ghost predicate Init(s: State) {
    s.m == FREE && forall p: nat :: IsProc(s, p) ==> s.procs[p] == Proc(Idle, 0, false)
  }

  ghost predicate StepAt(tr: seq<State>, k: nat)
    requires k + 1 < |tr|
  {
    exists a :: Enabled(tr[k], a) && tr[k + 1] == Next(tr[k], a)
  }

  ghost predicate Run(tr: seq<State>) {
    tr != [] && Init(tr[0]) && forall k: nat {:trigger StepAt(tr, k)} :: k < |tr| - 1 ==> StepAt(tr, k)
  }

  ghost predicate Real(s: State, p: nat) {
    p == 0 || IsProc(s, p)
  }

  ghost predicate Inv(s: State) {
    && MemoryOk(s.m) && Real(s, s.m.spin) && Real(s, s.m.pt) && Real(s, s.m.owner)
    && forall p: nat {:trigger s.procs[p]} :: IsProc(s, p) ==> ProcOk(s.m, p, s.procs[p])
  }

  lemma OthersKept(s: State, a: Action, q: nat)
    requires Inv(s) && Enabled(s, a) && IsProc(s, q) && q != a.p
    ensures ProcOk(Next(s, a).m, q, Next(s, a).procs[q])
  {
    if a.Step? {
      var x := s.procs[a.p];
      var t := Statement(s.m, a.p, x);
      StatementKept(s.m, a.p, x);
      assert ProcOk(s.m, q, s.procs[q]) && ProcOk(s.m, a.p, x);
      var y := Next(s, a).procs[q];
      assert ProcOk(s.m, q, y);
      assert s.m.pt == a.p ==> x.pc.WakeLoop? || t.m.locked || t.m.pending || !(s.m.locked || s.m.pending);
      OtherKept(s.m, t.m, a.p, q, y);
    }
  }

  lemma StepKeepsInv(s: State, a: Action)
    requires Inv(s) && Enabled(s, a)
    ensures Inv(Next(s, a))
  {
    var t := Next(s, a);
    if a.Step? {
      StatementKept(s.m, a.p, s.procs[a.p]);
    }
    forall q: nat | IsProc(t, q) ensures ProcOk(t.m, q, t.procs[q]) {
      if q != a.p {
        OthersKept(s, a, q);
      }
    }
  }

  lemma InitInv(s: State)
    requires Init(s)
    ensures Inv(s)
  {
  }

  lemma {:induction false} RunKeepsInv(tr: seq<State>, k: nat)
    requires Run(tr) && k < |tr|
    ensures Inv(tr[k])
  {
    if k > 0 {
      RunKeepsInv(tr, k - 1);
      assert StepAt(tr, k - 1);
      var a :| Enabled(tr[k - 1], a) && tr[k] == Next(tr[k - 1], a);
      StepKeepsInv(tr[k - 1], a);
    }
  }

  /** A process inside acquirereentrant's and releasereentrant's bracket. */
  ghost predicate Inside(s: State, p: nat) {
    IsProc(s, p) && s.procs[p].depth > 0
  }

  /** At most one process is inside, and the recursion count is its number of unmatched acquires;
      the sleep lock is free only if nobody is inside. */
  lemma MutualExclusion(tr: seq<State>, k: nat, p: nat, q: nat)
    requires Run(tr) && k < |tr| && Inside(tr[k], p)
    ensures Inside(tr[k], q) ==> p == q
    ensures tr[k].m.locked && tr[k].m.owner == p && tr[k].m.recursion == tr[k].procs[p].depth
  {
    RunKeepsInv(tr, k);
    assert ProcOk(tr[k].m, p, tr[k].procs[p]);
    assert Inside(tr[k], q) ==> ProcOk(tr[k].m, q, tr[k].procs[q]);
  }

  /** The unlocked reads of holdingreentrant answer whether the caller is inside: a process that is
      goes on to count, one that is not goes for the sleep lock or returns. */
  lemma UnlockedReadsSafe(tr: seq<State>, k: nat, p: nat)
    requires Run(tr) && k < |tr| && IsProc(tr[k], p)
    ensures var s := tr[k]; var c := s.procs[p].pc;
      && (c.AcqReadLocked? || c.AcqReadPid? || c.RelReadLocked? || c.RelReadPid? || c.Idle? ==>
            (s.m.rlocked && s.m.rpid == p <==> Inside(s, p)))
      && (Inside(s, p) ==> !c.TakeSpin?) && (c.RelCount? ==> Inside(s, p))
  {
    RunKeepsInv(tr, k);
    assert ProcOk(tr[k].m, p, tr[k].procs[p]);
  }

  /** Between its calls a process has the sleep lock exactly while it has unmatched acquires. */
  lemma OwnedWhileInside(tr: seq<State>, k: nat, p: nat)
    requires Run(tr) && k < |tr| && IsProc(tr[k], p) && tr[k].procs[p].pc.Idle?
    ensures tr[k].m.owner == p <==> Inside(tr[k], p)
  {
    RunKeepsInv(tr, k);
    assert ProcOk(tr[k].m, p, tr[k].procs[p]);
  }

  /** The sleep lock is freed only by its owner, with the count back at zero and nobody inside. */
  lemma FreedAtZero(tr: seq<State>, k: nat, a: Action, q: nat)
    requires Run(tr) && k < |tr| && Enabled(tr[k], a)
    requires tr[k].m.locked && !Next(tr[k], a).m.locked
    ensures a.Step? && a.p == tr[k].m.owner && tr[k].m.recursion == 0 && !tr[k].m.rlocked && !Inside(tr[k], q)
  {
    RunKeepsInv(tr, k);
    assert ProcOk(tr[k].m, a.p, tr[k].procs[a.p]);
    assert IsProc(tr[k], q) ==> ProcOk(tr[k].m, q, tr[k].procs[q]);
  }

  /** No lost wakeup: while a process sleeps, the lock it waits for is held or the wakeup of the
      process that freed it is still to come. */
  lemma NoLostWakeup(tr: seq<State>, k: nat, p: nat)
    requires Run(tr) && k < |tr| && IsProc(tr[k], p)
    ensures tr[k].procs[p].asleep ==>
      tr[k].m.locked || (exists q: nat :: IsProc(tr[k], q) && WakeToCome(tr[k].procs[q].pc))
  {
    RunKeepsInv(tr, k);
    var s := tr[k];
    assert ProcOk(s.m, p, s.procs[p]);
    if s.procs[p].asleep && !s.m.locked {
      assert ProcOk(s.m, s.m.spin, s.procs[s.m.spin]);
      assert WakeToCome(s.procs[s.m.spin].pc);
    }
  }

  predicate WakeToCome(c: Pc) {
    c.ClearPid? || c.WakeTakePt? || c.WakeLoop?
  }

  /** No deadlock: as long as a process is inside this code some process can take a step, or the
      lock's owner is outside it with the lock held. */
  lemma NoDeadlock(tr: seq<State>, k: nat, p: nat)
    requires Run(tr) && k < |tr| && IsProc(tr[k], p)
    ensures tr[k].procs[p].pc.Idle? || exists q: nat :: IsProc(tr[k], q) && CanGoOn(tr[k], q)
  {
    RunKeepsInv(tr, k);
    var s := tr[k];
    var q := if s.m.pt != 0 then s.m.pt else if s.m.spin != 0 then s.m.spin
             else if s.procs[p].asleep then s.m.owner else p;
    assert ProcOk(s.m, p, s.procs[p]);
    assert IsProc(s, q);
    assert ProcOk(s.m, q, s.procs[q]);
    assert s.procs[p].pc.Idle? || CanGoOn(s, q);
  }

  /** Process q can take a step of this code, or holds the lock and runs outside it. */
  ghost predicate CanGoOn(s: State, q: nat)
    requires IsProc(s, q)
  {
    Ready(s.m, s.procs[q]) || (s.procs[q].pc.Idle? && Inside(s, q))
  }
}
