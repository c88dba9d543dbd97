/**
  Pipes as a machine of processes (pipe.c). One step is one critical section of the pipe's lock:
  from the acquire, or the return of a sleep, to the release or the next sleep.
*/
module PipeModel {
  import opened Blocks

  const PIPESIZE := 512

  /** A process inside pipewrite, with i bytes stored so far, or inside piperead. */
  datatype Phase =
    | Writing(src: seq<byte>, i: nat, asleep: bool)
    | Reading(n: nat, asleep: bool)

  datatype State = State(
    buf: seq<byte>, stored: seq<byte>, delivered: seq<byte>, readopen: bool, writeopen: bool,
    procs: map<nat, Phase>, killed: set<nat>)

  datatype Action =
    | StartWrite(p: nat, src: seq<byte>)
    | StartRead(p: nat, n: nat)
    | Write(p: nat)
    | Read(p: nat)
    | Close(writable: bool)
    | Kill(p: nat)

  function Min(a: nat, b: nat): nat {
    if a < b then a else b
  }

  function Woken(f: Phase): Phase {
    match f
    case Writing(src, i, _) => Writing(src, i, false)
    case Reading(n, _) => Reading(n, false)
  }

  /** wakeup(&p->nread) and wakeup(&p->nwrite). */
  function WakeReaders(procs: map<nat, Phase>): map<nat, Phase> {
    map p | p in procs :: if procs[p].Reading? then Woken(procs[p]) else procs[p]
  }

  function WakeWriters(procs: map<nat, Phase>): map<nat, Phase> {
    map p | p in procs :: if procs[p].Writing? then Woken(procs[p]) else procs[p]
  }

  predicate CanWrite(s: State, p: nat) {
    p in s.procs && s.procs[p].Writing? && !s.procs[p].asleep && s.procs[p].i <= |s.procs[p].src| && |s.buf| <= PIPESIZE
  }

  predicate CanRead(s: State, p: nat) {
    p in s.procs && s.procs[p].Reading? && !s.procs[p].asleep
  }

  function DoWrite(s: State, p: nat): State
    requires CanWrite(s, p)
  {
    var w := s.procs[p];
    var more := w.src[w.i..w.i + Min(PIPESIZE - |s.buf|, |w.src| - w.i)];
    var t := s.(buf := s.buf + more, stored := s.stored + more);
    if w.i + |more| == |w.src| then t.(procs := WakeReaders(s.procs - {p}))
    else if !s.readopen || p in s.killed then t.(procs := s.procs - {p})
    else t.(procs := WakeReaders(s.procs)[p := Writing(w.src, w.i + |more|, true)])
  }

  function DoRead(s: State, p: nat): State
    requires CanRead(s, p)
  {
    if s.buf == [] && s.writeopen then
      if p in s.killed then s.(procs := s.procs - {p}) else s.(procs := s.procs[p := Reading(s.procs[p].n, true)])
    else
      var out := s.buf[..Min(s.procs[p].n, |s.buf|)];
      s.(buf := s.buf[|out|..], delivered := s.delivered + out, procs := WakeWriters(s.procs - {p}))
  }

  function DoClose(s: State, writable: bool): State {
    if writable then s.(writeopen := false, procs := WakeReaders(s.procs))
    else s.(readopen := false, procs := WakeWriters(s.procs))
  }

  /** kill sets a flag and takes its target out of any sleep. */
  function DoKill(s: State, p: nat): State {
    s.(killed := s.killed + {p}, procs := if p in s.procs then s.procs[p := Woken(s.procs[p])] else s.procs)
  }

  /** A process uses an end only through a descriptor, so an end is open while a process is
      inside it, and the last close of an end finds nobody inside. */
  predicate Enabled(s: State, a: Action) {
    match a
    case StartWrite(p, _) => p !in s.procs && s.writeopen
    case StartRead(p, _) => p !in s.procs && s.readopen
    case Write(p) => CanWrite(s, p)
    case Read(p) => CanRead(s, p)
    case Close(true) => s.writeopen && forall p :: p in s.procs ==> s.procs[p].Reading?
    case Close(false) => s.readopen && forall p :: p in s.procs ==> s.procs[p].Writing?
    case Kill(_) => true
  }

  function Next(s: State, a: Action): State
    requires Enabled(s, a)
  {
    match a
    case StartWrite(p, src) => s.(procs := s.procs[p := Writing(src, 0, false)])
    case StartRead(p, n) => s.(procs := s.procs[p := Reading(n, false)])
    case Write(p) => DoWrite(s, p)
    case Read(p) => DoRead(s, p)
    case Close(w) => DoClose(s, w)
    case Kill(p) => DoKill(s, p)
  }

  const INIT := State([], [], [], true, true, map[], {})

  ghost predicate StepAt(tr: seq<State>, acts: seq<Action>, k: nat)
    requires |tr| == |acts| + 1 && k < |acts|
  {
    Enabled(tr[k], acts[k]) && tr[k + 1] == Next(tr[k], acts[k])
  }

  ghost predicate Run(tr: seq<State>, acts: seq<Action>) {
    && |tr| == |acts| + 1 && tr[0] == INIT
    && forall k {:trigger StepAt(tr, acts, k)} :: 0 <= k < |acts| ==> StepAt(tr, acts, k)
  }

  // ---------------------------------------------------------------- invariants

  ghost predicate PhaseOk(s: State, f: Phase) {
    match f
    case Writing(src, i, asleep) => s.writeopen && i <= |src| && (asleep ==> |s.buf| == PIPESIZE && s.readopen)
    case Reading(_, _) => s.readopen
  }

  /** First in, first out, within the ring's size; and a sleeping writer faces a full pipe. */
  ghost predicate Inv(s: State) {
    && s.stored == s.delivered + s.buf
    && |s.buf| <= PIPESIZE
    && forall p {:trigger s.procs[p]} :: p in s.procs ==> PhaseOk(s, s.procs[p])
  }

  ghost predicate ReaderAsleep(s: State, p: nat) {
    p in s.procs && s.procs[p].Reading? && s.procs[p].asleep
  }

  /** A sleeping reader faces an empty pipe that can still be written. */
  ghost predicate ReadersOk(s: State) {
    forall p {:trigger ReaderAsleep(s, p)} :: ReaderAsleep(s, p) ==> s.buf == [] && s.writeopen
  }

  /** The one step that strands a reader: a killed writer with more than a pipeful left, which
      returns from the full test without a wakeup. */
  ghost predicate Strands(s: State, a: Action) {
    && a.Write?
    && CanWrite(s, a.p)
    && a.p in s.killed
    && |s.procs[a.p].src| - s.procs[a.p].i > PIPESIZE
    && exists r :: ReaderAsleep(s, r)
  }

  lemma StepKeepsInv(s: State, a: Action)
    requires Inv(s) && Enabled(s, a)
    ensures Inv(Next(s, a))
  {
    match a
    case Write(p) => WriteKeepsInv(s, p);
    case Read(p) => ReadKeepsInv(s, p);
    case Kill(p) => assert p in s.procs ==> PhaseOk(s, s.procs[p]);
    case _ =>
  }

  lemma WriteKeepsInv(s: State, p: nat)
    requires Inv(s) && CanWrite(s, p)
    ensures Inv(DoWrite(s, p))
  {
    var t := DoWrite(s, p);
    assert PhaseOk(s, s.procs[p]);
    assert t.stored == t.delivered + t.buf;
    forall q | q in t.procs ensures PhaseOk(t, t.procs[q]) {
      assert PhaseOk(s, s.procs[q]);
    }
  }

  lemma ReadMoves(stored: seq<byte>, delivered: seq<byte>, buf: seq<byte>, n: nat)
    requires n <= |buf| && stored == delivered + buf
    ensures stored == delivered + buf[..n] + buf[n..]
  {
    assert buf == buf[..n] + buf[n..];
  }

  lemma ReadKeepsInv(s: State, p: nat)
    requires Inv(s) && CanRead(s, p)
    ensures Inv(DoRead(s, p))
  {
    var t := DoRead(s, p);
    ReadMoves(s.stored, s.delivered, s.buf, Min(s.procs[p].n, |s.buf|));
    forall q | q in t.procs ensures PhaseOk(t, t.procs[q]) {
      assert PhaseOk(s, s.procs[q]);
    }
  }

  /** From a good state a step leaves a reader asleep at a non-empty pipe exactly when it is such
      a write. */
  lemma StrandsIff(s: State, a: Action)
    requires Inv(s) && ReadersOk(s) && Enabled(s, a)
    ensures ReadersOk(Next(s, a)) <==> !Strands(s, a)
  {
    if a.Write? {
      WriteStrands(s, a.p);
    } else {
      OtherSteps(s, a);
    }
  }

  /** Who sleeps in piperead after a step that is no write. */
  lemma OtherSteps(s: State, a: Action)
    requires Inv(s) && ReadersOk(s) && Enabled(s, a) && !a.Write?
    ensures ReadersOk(Next(s, a))
  {
    var t := Next(s, a);
    forall p | ReaderAsleep(t, p) ensures t.buf == [] && t.writeopen {
      assert ReaderAsleep(s, p) || (a.Read? && a.p == p && s.buf == [] && s.writeopen);
    }
  }

  lemma WriteStrands(s: State, p: nat)
    requires Inv(s) && ReadersOk(s) && CanWrite(s, p)
    ensures ReadersOk(Next(s, Write(p))) <==> !Strands(s, Write(p))
  {
    var t := Next(s, Write(p));
    assert PhaseOk(s, s.procs[p]);
    assert forall r :: ReaderAsleep(t, r) ==> ReaderAsleep(s, r);
    if Strands(s, Write(p)) {
      var r :| ReaderAsleep(s, r);
      assert ReaderAsleep(t, r);
    }
  }

  /** Over every run, with kills: the bytes stored are the bytes delivered followed by the bytes
      buffered, at most a pipeful is buffered, and a sleeping writer faces a full pipe. */
  lemma {:induction false} RunIsFifo(tr: seq<State>, acts: seq<Action>, k: nat)
    requires Run(tr, acts) && k < |tr|
    ensures Inv(tr[k])
  {
    if k > 0 {
      RunIsFifo(tr, acts, k - 1);
      assert StepAt(tr, acts, k - 1);
      StepKeepsInv(tr[k - 1], acts[k - 1]);
    }
  }

  // ---------------------------------------------------------------- what a call of pipewrite stores

  /** What is behind the first bytes of a longer sequence. */
  function Behind(before: seq<byte>, now: seq<byte>): seq<byte> {
    if |before| <= |now| then now[|before|..] else []
  }

  /** The bytes that the steps of process p added to the stream between moments j and k. */
  ghost function Contributed(tr: seq<State>, acts: seq<Action>, p: nat, j: nat, k: nat): seq<byte>
    requires |tr| == |acts| + 1 && j <= k < |tr|
  {
    if j == k then []
    else
      Contributed(tr, acts, p, j, k - 1) +
      if acts[k - 1] == Write(p) then Behind(tr[k - 1].stored, tr[k].stored) else []
  }

  /** One section of pipewrite: as many of the bytes that are left as there is room for. */
  lemma WriteStores(s: State, p: nat, n: nat)
    requires Inv(s) && CanWrite(s, p) && n == Min(512 - |s.buf|, |s.procs[p].src| - s.procs[p].i)
    ensures var w, t := s.procs[p], Next(s, Write(p));
      && Behind(s.stored, t.stored) == w.src[w.i..w.i + n] && t.buf == s.buf + w.src[w.i..w.i + n]
      && (p in t.procs ==> t.procs[p] == Writing(w.src, w.i + n, true) && s.readopen && p !in s.killed)
      && (p !in t.procs ==> w.i + n == |w.src| || (|t.buf| == 512 && (!s.readopen || p in s.killed)))
  {
  }

  /** The state after such a section. */
  lemma WriteIs(s: State, p: nat, n: nat)
    requires CanWrite(s, p) && n == Min(512 - |s.buf|, |s.procs[p].src| - s.procs[p].i)
    ensures var w := s.procs[p]; var more := w.src[w.i..w.i + n];
      Next(s, Write(p)) == s.(buf := s.buf + more, stored := s.stored + more, procs :=
        if w.i + n == |w.src| then WakeReaders(s.procs - {p})
        else if !s.readopen || p in s.killed then s.procs - {p}
        else WakeReaders(s.procs)[p := Writing(w.src, w.i + n, true)])
  {
  }

  /** The steps of other processes leave a call where it is. */
  lemma OthersStep(s: State, a: Action, p: nat)
    requires Inv(s) && Enabled(s, a) && p in s.procs && s.procs[p].Writing? && a != Write(p)
    ensures var t := Next(s, a);
      p in t.procs && t.procs[p].Writing? && t.procs[p].src == s.procs[p].src && t.procs[p].i == s.procs[p].i
  {
  }

  /** A step, seen from a call that goes on after it. */
  lemma CallStep(s: State, a: Action, p: nat)
    requires Inv(s) && Enabled(s, a) && p in s.procs && s.procs[p].Writing? && p in Next(s, a).procs
    ensures var w, t := s.procs[p], Next(s, a); var u := t.procs[p];
      && u.Writing? && u.src == w.src && w.i <= u.i <= |w.src|
      && w.src[w.i..u.i] == if a == Write(p) then Behind(s.stored, t.stored) else []
  {
    assert PhaseOk(s, s.procs[p]);
    if a == Write(p) {
      WriteStores(s, p, Min(512 - |s.buf|, |s.procs[p].src| - s.procs[p].i));
    } else {
      OthersStep(s, a, p);
    }
  }

  lemma Longer(src: seq<byte>, i: nat, j: nat)
    requires i <= j <= |src|
    ensures src[..i] + src[i..j] == src[..j]
  {
  }

  /** While a call that began at moment j goes on, what it has stored is the first i bytes of its source. */
  lemma {:induction false} CallStores(tr: seq<State>, acts: seq<Action>, p: nat, src: seq<byte>, j: nat, k: nat)
    requires Run(tr, acts) && 0 < j <= k < |tr| && acts[j - 1] == StartWrite(p, src)
    requires forall m :: j <= m <= k ==> p in tr[m].procs
    ensures var w := tr[k].procs[p];
      w.Writing? && w.src == src && w.i <= |src| && Contributed(tr, acts, p, j, k) == src[..w.i]
    decreases k
  {
    if j < k {
      CallStores(tr, acts, p, src, j, k - 1);
      RunIsFifo(tr, acts, k - 1);
      assert StepAt(tr, acts, k - 1);
      CallStep(tr[k - 1], acts[k - 1], p);
      Longer(src, tr[k - 1].procs[p].i, tr[k].procs[p].i);
    } else {
      assert StepAt(tr, acts, j - 1);
    }
  }

  /** When the call returns, it has stored all of its source, or the pipe is full and it has been given up. */
  lemma CallReturns(tr: seq<State>, acts: seq<Action>, p: nat, src: seq<byte>, j: nat, k: nat) returns (i: nat)
    requires Run(tr, acts) && 0 < j <= k < |acts| && acts[j - 1] == StartWrite(p, src)
    requires (forall m :: j <= m <= k ==> p in tr[m].procs) && p !in tr[k + 1].procs
    ensures i <= |src| && Contributed(tr, acts, p, j, k + 1) == src[..i] && acts[k] == Write(p)
    ensures i == |src| || (|tr[k + 1].buf| == 512 && (!tr[k].readopen || p in tr[k].killed))
  {
    CallStores(tr, acts, p, src, j, k);
    RunIsFifo(tr, acts, k);
    assert StepAt(tr, acts, k);
    var s := tr[k];
    if acts[k] != Write(p) {
      OthersStep(s, acts[k], p);
    }
    var n := Min(512 - |s.buf|, |src| - s.procs[p].i);
    WriteStores(s, p, n);
    i := s.procs[p].i + n;
    Longer(src, s.procs[p].i, i);
  }

  /** A run never leaves a reader asleep at a readable pipe if and only if no step of it strands
      one. */
  lemma {:induction false} NoReaderStranded(tr: seq<State>, acts: seq<Action>)
    requires Run(tr, acts)
    ensures (forall k :: 0 <= k < |tr| ==> ReadersOk(tr[k])) <==>
      (forall k :: 0 <= k < |acts| ==> !Strands(tr[k], acts[k]))
  {
    if forall k :: 0 <= k < |acts| ==> !Strands(tr[k], acts[k]) {
      forall k | 0 <= k < |tr| ensures ReadersOk(tr[k]) {
        ReadersOkTo(tr, acts, k);
      }
    } else {
      var k :| 0 <= k < |acts| && Strands(tr[k], acts[k]);
      RunIsFifo(tr, acts, k);
      assert StepAt(tr, acts, k);
      if ReadersOk(tr[k]) {
        StrandsIff(tr[k], acts[k]);
        assert !ReadersOk(tr[k + 1]);
      }
    }
  }

  lemma {:induction false} ReadersOkTo(tr: seq<State>, acts: seq<Action>, k: nat)
    requires Run(tr, acts) && k < |tr|
    requires forall j :: 0 <= j < |acts| ==> !Strands(tr[j], acts[j])
    ensures ReadersOk(tr[k])
  {
    if k > 0 {
      ReadersOkTo(tr, acts, k - 1);
      RunIsFifo(tr, acts, k - 1);
      assert StepAt(tr, acts, k - 1);
      StrandsIff(tr[k - 1], acts[k - 1]);
    }
  }

  /** In every run a process that has been killed does not sleep in the pipe. */
  lemma {:induction false} KilledAwake(tr: seq<State>, acts: seq<Action>, k: nat, p: nat)
    requires Run(tr, acts) && k < |tr| && p in tr[k].procs && tr[k].procs[p].asleep
    ensures p !in tr[k].killed
  {
    if k > 0 {
      assert StepAt(tr, acts, k - 1);
      if p in tr[k - 1].procs && tr[k - 1].procs[p].asleep {
        KilledAwake(tr, acts, k - 1, p);
      }
      StaysAwake(tr[k - 1], acts[k - 1], p);
    }
  }

  /** A step puts nobody to sleep who has been killed, and a kill wakes its target. */
  lemma StaysAwake(s: State, a: Action, p: nat)
    requires Enabled(s, a) && (p in s.procs && s.procs[p].asleep ==> p !in s.killed)
    ensures var t := Next(s, a); p in t.procs && t.procs[p].asleep ==> p !in t.killed
  {
  }

  /** In a run without kills both ends are safe: a sleeping reader implies empty and a sleeping
      writer implies full, so the two never sleep together. */
  lemma KillFree(tr: seq<State>, acts: seq<Action>, k: nat, p: nat, q: nat)
    requires Run(tr, acts) && k < |tr|
    requires forall j :: 0 <= j < |acts| ==> !acts[j].Kill?
    ensures ReadersOk(tr[k])
    ensures !(ReaderAsleep(tr[k], p) && q in tr[k].procs && tr[k].procs[q].Writing? && tr[k].procs[q].asleep)
  {
    forall j | 0 <= j < |acts| ensures !Strands(tr[j], acts[j]) {
      NoneKilled(tr, acts, j);
    }
    ReadersOkTo(tr, acts, k);
    RunIsFifo(tr, acts, k);
    assert q in tr[k].procs ==> PhaseOk(tr[k], tr[k].procs[q]);
  }

  lemma {:induction false} NoneKilled(tr: seq<State>, acts: seq<Action>, k: nat)
    requires Run(tr, acts) && k < |tr|
    requires forall j :: 0 <= j < |acts| ==> !acts[j].Kill?
    ensures tr[k].killed == {}
  {
    if k > 0 {
      NoneKilled(tr, acts, k - 1);
      assert StepAt(tr, acts, k - 1);
    }
  }

  /** A run in which a killed writer leaves a reader asleep at a full pipe. */
  lemma StrandedReader(src: seq<byte>) returns (tr: seq<State>, acts: seq<Action>)
    requires |src| == PIPESIZE + 1
    ensures Run(tr, acts) && !ReadersOk(tr[|acts|])
  {
    acts := [StartRead(1, 1), Read(1), StartWrite(2, src), Kill(2), Write(2)];
    var s1 := Next(INIT, acts[0]);
    var s2 := Next(s1, acts[1]);
    var s3 := Next(s2, acts[2]);
    var s4 := Next(s3, acts[3]);
    assert CanWrite(s4, 2);
    var s5 := Next(s4, acts[4]);
    tr := [INIT, s1, s2, s3, s4, s5];
    assert StepAt(tr, acts, 0) && StepAt(tr, acts, 1) && StepAt(tr, acts, 2);
    assert StepAt(tr, acts, 3) && StepAt(tr, acts, 4);
    assert ReaderAsleep(s4, 1) && ReaderAsleep(s5, 1);
    assert |s5.buf| == PIPESIZE;
  }
}
