/**
  sleep and wakeup (proc.c) for any spinlock, any data it protects and any conditions to wait for,
  one statement at a time. A process that holds the lock may change the data, wake a channel, go to
  sleep on a channel whose condition keeps it from going on, or leave. Code that uses sleep has one
  rule to keep: it does not give the lock up, by leaving or by sleeping, while a change of its own
  has made a condition true and the wakeup of that channel is still to come.
*/
module Sleep {

  /** Where a process stands; C is the type of channels. */
  datatype Pc<C> =
    | Out | WantLock | Inside
    | SleepTakePt(ch: C) | SleepDropLock(ch: C) | SleepMark(ch: C) | SleepSched(ch: C) | SleepWait(ch: C)
    | SleepTidy | Relock
    | WakeTakePt(ch: C) | WakeLoop(ch: C) | WakeDropPt

  /** A lock holds the pid of its holder, or 0. `owed` is history: the channels whose condition the
      holder has made true and not yet woken. */
  datatype Memory<D, C> = Memory(lock: nat, pt: nat, data: D, owed: set<C>)

  datatype Proc<C> = Proc(pc: Pc<C>, asleep: bool)

  /** Pids run from 1; index 0 of the sequence is unused. */
  datatype State<D, C> = State(m: Memory<D, C>, procs: seq<Proc<C>>)

  datatype Action<D, C> =
    | Enter(p: nat)
    | Change(p: nat, data: D, owes: set<C>)
    | Wakeup(p: nat, ch: C)
    | SleepOn(p: nat, ch: C)
    | Leave(p: nat)
    | Step(p: nat)
    | Kill(p: nat)

  ghost predicate IsProc<D, C>(s: State<D, C>, p: nat) {
    0 < p < |s.procs|
  }

  /** The statement at which the process stands does not have to wait. */
  ghost predicate Ready<D, C>(m: Memory<D, C>, x: Proc<C>) {
    match x.pc
    case WantLock => m.lock == 0
    case Relock => m.lock == 0
    case SleepTakePt(_) => m.pt == 0
    case WakeTakePt(_) => m.pt == 0
    case SleepWait(_) => !x.asleep && m.pt == 0
    case Out => false
    case Inside => false
    case _ => true
  }

  /** Blocked(ch, d) says that with data d a process waiting on ch cannot go on. */
  ghost predicate Enabled<D(!new), C(!new)>(blocked: (C, D) -> bool, s: State<D, C>, a: Action<D, C>) {
    && IsProc(s, a.p)
    && var x := s.procs[a.p];
       match a
       case Enter(_) => x.pc.Out?
       case Change(_, d, owes) =>
         x.pc.Inside? && forall ch :: blocked(ch, s.m.data) && !blocked(ch, d) ==> ch in owes
       case Wakeup(_, _) => x.pc.Inside?
       case SleepOn(_, ch) => x.pc.Inside? && blocked(ch, s.m.data) && s.m.owed == {}
       case Leave(_) => x.pc.Inside? && s.m.owed == {}
       case Step(_) => Ready(s.m, x)
       case Kill(_) => s.m.pt == 0
  }

  /** wakeup1 at one process. */
  function Woken<C(==)>(x: Proc<C>, ch: C): Proc<C> {
    if x.asleep && (x.pc == SleepSched(ch) || x.pc == SleepWait(ch)) then Proc(x.pc, false) else x
  }

  ghost predicate WokenAll<C>(xs: seq<Proc<C>>, ys: seq<Proc<C>>, ch: C, p: nat) {
    |ys| == |xs| && forall q: nat {:trigger ys[q]} :: q < |xs| && q != p ==> ys[q] == Woken(xs[q], ch)
  }

  function Moved<D, C>(s: State<D, C>, p: nat, m: Memory<D, C>, c: Pc<C>): State<D, C>
    requires p < |s.procs|
  {
    State(m, s.procs[p := Proc(c, s.procs[p].asleep)])
  }

  ghost predicate Steps<D(!new), C(!new)>(blocked: (C, D) -> bool, s: State<D, C>, a: Action<D, C>, t: State<D, C>)
    requires Enabled(blocked, s, a)
  {
    match a
    case Enter(p) => t == Moved(s, p, s.m, WantLock)
    case Change(p, d, owes) => t == s.(m := s.m.(data := d, owed := s.m.owed + owes))
    case Wakeup(p, ch) => t == Moved(s, p, s.m, WakeTakePt(ch))
    case SleepOn(p, ch) => t == Moved(s, p, s.m, SleepTakePt(ch))
    case Leave(p) => t == Moved(s, p, s.m.(lock := 0), Out)
    case Kill(p) => t == s.(procs := s.procs[p := Proc(s.procs[p].pc, false)])
    case Step(p) => Statement(s, p, t)
  }

  ghost predicate Statement<D(!new), C(!new)>(s: State<D, C>, p: nat, t: State<D, C>)
    requires IsProc(s, p) && Ready(s.m, s.procs[p])
  {
    match s.procs[p].pc
    case WantLock => t == Moved(s, p, s.m.(lock := p), Inside)
    case SleepTakePt(ch) => t == Moved(s, p, s.m.(pt := p), SleepDropLock(ch))
    case SleepDropLock(ch) => t == Moved(s, p, s.m.(lock := 0), SleepMark(ch))
    case SleepMark(ch) => t == State(s.m, s.procs[p := Proc(SleepSched(ch), true)])
    case SleepSched(ch) => t == Moved(s, p, s.m.(pt := 0), SleepWait(ch))
    case SleepWait(_) => t == Moved(s, p, s.m.(pt := p), SleepTidy)
    case SleepTidy => t == Moved(s, p, s.m.(pt := 0), Relock)
    case Relock => t == Moved(s, p, s.m.(lock := p), Inside)
    case WakeTakePt(ch) => t == Moved(s, p, s.m.(pt := p), WakeLoop(ch))
    case WakeLoop(ch) =>
      && t.m == s.m.(owed := s.m.owed - {ch})
      && WokenAll(s.procs, t.procs, ch, p) && t.procs[p] == Proc(WakeDropPt, s.procs[p].asleep)
    case WakeDropPt => t == Moved(s, p, s.m.(pt := 0), Inside)
  }

  ghost predicate StepAt<D(!new), C(!new)>(blocked: (C, D) -> bool, tr: seq<State<D, C>>, k: nat)
    requires k + 1 < |tr|
  {
    exists a :: Enabled(blocked, tr[k], a) && Steps(blocked, tr[k], a, tr[k + 1])
  }

  ghost predicate Run<D(!new), C(!new)>(blocked: (C, D) -> bool, tr: seq<State<D, C>>) {
    && tr != [] && tr[0].m.lock == 0 && tr[0].m.pt == 0 && tr[0].m.owed == {}
    && (forall p: nat {:trigger tr[0].procs[p]} :: IsProc(tr[0], p) ==> tr[0].procs[p] == Proc(Out, false))
    && (forall k: nat {:trigger StepAt(blocked, tr, k)} :: k < |tr| - 1 ==> StepAt(blocked, tr, k))
  }

  // ---------------------------------------------------------------- what every run keeps

  predicate HoldsLock<C>(c: Pc<C>) {
    c.Inside? || c.SleepTakePt? || c.SleepDropLock? || c.WakeTakePt? || c.WakeLoop? || c.WakeDropPt?
  }

  predicate HoldsPt<C>(c: Pc<C>) {
    c.SleepDropLock? || c.SleepMark? || c.SleepSched? || c.SleepTidy? || c.WakeLoop? || c.WakeDropPt?
  }

  ghost predicate ProcOk<D, C>(blocked: (C, D) -> bool, m: Memory<D, C>, p: nat, x: Proc<C>) {
    var c := x.pc;
    && (HoldsLock(c) <==> m.lock == p)
    && (HoldsPt(c) <==> m.pt == p)
    && (x.asleep ==> c.SleepSched? || c.SleepWait?)
    && (c.SleepTakePt? || c.SleepDropLock? ==> blocked(c.ch, m.data) && m.owed == {})
    && (c.SleepMark? || x.asleep ==> blocked(c.ch, m.data) || c.ch in m.owed)
  }

  ghost predicate Inv<D, C>(blocked: (C, D) -> bool, s: State<D, C>) {
    && (s.m.owed != {} ==> s.m.lock != 0)
    && forall p: nat {:trigger s.procs[p]} :: IsProc(s, p) ==> ProcOk(blocked, s.m, p, s.procs[p])
  }

  lemma ActingKept<D(!new), C(!new)>(blocked: (C, D) -> bool, s: State<D, C>, a: Action<D, C>, t: State<D, C>)
    requires Inv(blocked, s) && Enabled(blocked, s, a) && Steps(blocked, s, a, t)
    ensures |t.procs| == |s.procs| && ProcOk(blocked, t.m, a.p, t.procs[a.p]) && (t.m.owed != {} ==> t.m.lock != 0)
  {
    assert ProcOk(blocked, s.m, a.p, s.procs[a.p]);
  }

  lemma OthersKept<D(!new), C(!new)>(blocked: (C, D) -> bool, s: State<D, C>, a: Action<D, C>, t: State<D, C>, q: nat)
    requires Inv(blocked, s) && Enabled(blocked, s, a) && Steps(blocked, s, a, t) && IsProc(s, q) && q != a.p
    ensures |t.procs| == |s.procs| && ProcOk(blocked, t.m, q, t.procs[q])
  {
    assert ProcOk(blocked, s.m, a.p, s.procs[a.p]) && ProcOk(blocked, s.m, q, s.procs[q]);
  }

  lemma {:induction false} RunKeepsInv<D(!new), C(!new)>(blocked: (C, D) -> bool, tr: seq<State<D, C>>, k: nat)
    requires Run(blocked, tr) && k < |tr|
    ensures Inv(blocked, tr[k])
  {
    if k > 0 {
      RunKeepsInv(blocked, tr, k - 1);
      assert StepAt(blocked, tr, k - 1);
      var s, t := tr[k - 1], tr[k];
      var a :| Enabled(blocked, s, a) && Steps(blocked, s, a, t);
      ActingKept(blocked, s, a, t);
      forall q: nat | IsProc(t, q) ensures ProcOk(blocked, t.m, q, t.procs[q]) {
        if q != a.p {
          OthersKept(blocked, s, a, t, q);
        }
      }
    }
  }

  /** No lost wakeup, for any lock and any conditions: in every run, while a process sleeps on a
      channel its condition still keeps it from going on, or the process that holds the lock owes
      the channel a wakeup. With the lock free the first is the case. */
  lemma NoLostWakeup<D(!new), C(!new)>(blocked: (C, D) -> bool, tr: seq<State<D, C>>, k: nat, p: nat)
    requires Run(blocked, tr) && k < |tr| && IsProc(tr[k], p)
    ensures var s := tr[k]; s.procs[p].asleep ==>
      && (s.procs[p].pc.SleepSched? || s.procs[p].pc.SleepWait?)
      && (blocked(s.procs[p].pc.ch, s.m.data) || (s.procs[p].pc.ch in s.m.owed && s.m.lock != 0))
  {
    RunKeepsInv(blocked, tr, k);
    assert ProcOk(blocked, tr[k].m, p, tr[k].procs[p]);
  }
}
