/**
  fibonacci_number (proc.c) called by any number of processes at once, as frames over the
  statement-level lock machine of Locks. A frame enters the reentrant lock, looks at the memo
  table, calls itself twice and adds, marks its entry valid, leaves the lock and only then reads
  its result.
*/
module FibRuns {
  import L = Locks
  import opened Fibonacci

  /** What a frame does next. First and Second wait for a nested call; Got1 and Got2 hold its result. */
  datatype Stage =
    | Enter | First | Got1(r: int) | Half | Second | Got2(r: int) | Full | Set | Leave

  datatype Frame = Frame(n: nat, stage: Stage)

  /** The lock, the memo table, and the frames of each process, outermost first. */
  datatype State = State(l: L.State, fibs: seq<int>, valid: seq<bool>, stack: seq<seq<Frame>>)

  datatype Action =
    | Call(p: nat, n: nat)      // a process calls fibonacci_number
    | Lock(a: L.Action)         // a statement of the lock's code, or a kill
    | Go(p: nat)                // the next statement of the innermost frame

  ghost predicate Shape(s: State) {
    |s.stack| == |s.l.procs| && |s.fibs| == |s.valid| == SIZE
  }

  function Top(fs: seq<Frame>): Frame
    requires fs != []
  {
    fs[|fs| - 1]
  }

  ghost predicate Enabled(s: State, a: Action) {
    && Shape(s)
    && match a
       case Call(p, n) => L.IsProc(s.l, p) && n < SIZE && s.stack[p] == [] && s.l.procs[p].pc.Idle?
       case Lock(b) => (b.Step? || b.Kill?) && L.Enabled(s.l, b)
       case Go(p) => L.IsProc(s.l, p) && s.stack[p] != [] && s.l.procs[p].pc.Idle? && Top(s.stack[p]).n < SIZE
  }

  /** The stack with the innermost frame at another stage. */
  function Put(fs: seq<Frame>, stage: Stage): seq<Frame>
    requires fs != []
  {
    fs[|fs| - 1 := Frame(Top(fs).n, stage)]
  }

  /** A frame that has the result of its nested call. */
  function Receive(f: Frame, r: int): Frame {
    Frame(f.n, if f.stage.First? then Got1(r) else Got2(r))
  }

  /** The frames behind a return. */
  ghost function Returned(s: State, fs: seq<Frame>): seq<Frame>
    requires Shape(s) && fs != [] && Top(fs).n < SIZE
  {
    var rest := fs[..|fs| - 1];
    if rest == [] then [] else rest[|rest| - 1 := Receive(Top(rest), s.fibs[Top(fs).n])]
  }

  ghost function Next(s: State, a: Action): State
    requires Enabled(s, a)
  {
    match a
    case Call(p, n) => s.(l := L.Next(s.l, L.Acquire(p)), stack := s.stack[p := [Frame(n, Enter)]])
    case Lock(b) => s.(l := L.Next(s.l, b))
    case Go(p) => Statement(s, p)
  }

  /** A nested call for entry m, made at the given stage. */
  ghost function Nest(s: State, p: nat, stage: Stage, m: nat): State
    requires Shape(s) && L.IsProc(s.l, p) && s.stack[p] != [] && s.l.procs[p].pc.Idle?
  {
    s.(l := L.Next(s.l, L.Acquire(p)), stack := s.stack[p := Put(s.stack[p], stage) + [Frame(m, Enter)]])
  }

  ghost function Statement(s: State, p: nat): State
    requires Enabled(s, Go(p))
  {
    var fs := s.stack[p];
    var f := Top(fs);
    match f.stage
    case Enter =>
      if s.valid[f.n] then s.(l := L.Next(s.l, L.Release(p)), stack := s.stack[p := Put(fs, Leave)])
      else Nest(s, p, First, if f.n >= 1 then f.n - 1 else 0)
    case Got1(r) => s.(fibs := s.fibs[f.n := s.fibs[f.n] + r], stack := s.stack[p := Put(fs, Half)])
    case Half => Nest(s, p, Second, if f.n >= 2 then f.n - 2 else 0)
    case Got2(r) => s.(fibs := s.fibs[f.n := s.fibs[f.n] + r], stack := s.stack[p := Put(fs, Full)])
    case Full => s.(valid := s.valid[f.n := true], stack := s.stack[p := Put(fs, Set)])
    case Set => s.(l := L.Next(s.l, L.Release(p)), stack := s.stack[p := Put(fs, Leave)])
    case Leave => s.(stack := s.stack[p := Returned(s, fs)])
    case First => s
    case Second => s
  }

  /** After _fib_init, with nobody inside. */
  ghost predicate Init(s: State) {
    && L.Init(s.l) && Shape(s)
    && (forall i :: 0 <= i < SIZE ==> s.valid[i] == (i < 2) && s.fibs[i] == if i < 2 then 1 else 0)
    && (forall p :: 0 <= p < |s.stack| ==> s.stack[p] == [])
  }

  ghost predicate StepAt(tr: seq<State>, k: nat)
    requires k + 1 < |tr|
  {
    exists a :: Enabled(tr[k], a) && tr[k + 1] == Next(tr[k], a)
  }

  ghost predicate Run(tr: seq<State>) {
    tr != [] && Init(tr[0]) && forall k: nat {:trigger StepAt(tr, k)} :: k < |tr| - 1 ==> StepAt(tr, k)
  }

  // ---------------------------------------------------------------- places in the lock's code

  predicate RelEarly(c: L.Pc) {
    c.RelReadLocked? || c.RelReadPid? || c.RelCount?
  }

  predicate RelLate(c: L.Pc) {
    || c.RelClearLocked? || c.RelClearPid? || c.RetakeSpin? || c.ClearLocked? || c.ClearPid?
    || c.WakeTakePt? || c.WakeLoop? || c.WakeDropPt? || c.RedropSpin?
  }

  predicate AcqCode(c: L.Pc) {
    !c.Idle? && !RelEarly(c) && !RelLate(c)
  }

  /** How a statement of the lock's code moves a process: acquire ends one deeper, release of a lock
      that is held ends one less deep. */
  ghost predicate LockMoves(x: L.Proc, y: L.Proc) {
    && (AcqCode(x.pc) ==> (AcqCode(y.pc) && y.depth == x.depth) || (y.pc.Idle? && y.depth == x.depth + 1))
    && (RelEarly(x.pc) && x.depth > 0 ==>
          (RelEarly(y.pc) && y.depth == x.depth) || ((y.pc.Idle? || RelLate(y.pc)) && y.depth == x.depth - 1))
    && (RelLate(x.pc) ==> (y.pc.Idle? || RelLate(y.pc)) && y.depth == x.depth)
  }

  lemma StatementMoves(m: L.Memory, p: nat, x: L.Proc)
    requires L.ProcOk(m, p, x) && L.Ready(m, x)
    ensures LockMoves(x, L.Statement(m, p, x).proc)
  {
  }

  // ---------------------------------------------------------------- the invariant

  /** Frame j waits for the call that frame j + 1 is. */
  ghost predicate Waits(fs: seq<Frame>, j: nat)
    requires j + 1 < |fs|
  {
    && (fs[j].stage.First? || fs[j].stage.Second?) && fs[j].n >= 2
    && fs[j + 1].n == fs[j].n - if fs[j].stage.First? then 1 else 2
  }

  ghost predicate Above(fs: seq<Frame>, j: nat, k: nat)
    requires j < |fs| && k < |fs|
  {
    fs[j].n > fs[k].n
  }

  /** The frames of a process nest as the code calls them. */
  ghost predicate Nested(fs: seq<Frame>) {
    && (forall j :: 0 <= j < |fs| ==> fs[j].n < SIZE)
    && (forall j: nat, k: nat {:trigger Above(fs, j, k)} :: j < k < |fs| ==> Above(fs, j, k))
    && (forall j: nat {:trigger Waits(fs, j)} :: j + 1 < |fs| ==> Waits(fs, j))
    && (fs != [] ==> !Top(fs).stage.First? && !Top(fs).stage.Second?)
  }

  /** The lock's depth counts the frames that are inside it. */
  ghost predicate DepthOk(fs: seq<Frame>, x: L.Proc) {
    if fs == [] then x.pc.Idle? && x.depth == 0
    else
      match Top(fs).stage
      case Enter => (x.pc.Idle? && x.depth == |fs|) || (AcqCode(x.pc) && x.depth == |fs| - 1)
      case Leave => ((x.pc.Idle? || RelLate(x.pc)) && x.depth == |fs| - 1) || (RelEarly(x.pc) && x.depth == |fs|)
      case _ => x.pc.Idle? && x.depth == |fs|
  }

  predicate Mid(g: Stage) {
    g.First? || g.Got1? || g.Half? || g.Second? || g.Got2? || g.Full?
  }

  /** What the memo table holds for a frame at each stage. */
  ghost predicate FrameOk(fib: int, valid: bool, f: Frame) {
    && (Mid(f.stage) ==> !valid && f.n >= 2)
    && match f.stage
       case Enter => true
       case First => fib == 0
       case Got1(r) => fib == 0 && r == F(f.n - 1)
       case Half => fib == F(f.n - 1)
       case Second => fib == F(f.n - 1)
       case Got2(r) => fib == F(f.n - 1) && r == F(f.n - 2)
       case Full => fib == F(f.n)
       case Set => valid
       case Leave => valid
  }

  ghost predicate FramesOk(s: State, fs: seq<Frame>)
    requires Shape(s)
  {
    forall j :: 0 <= j < |fs| ==> fs[j].n < SIZE && FrameOk(s.fibs[fs[j].n], s.valid[fs[j].n], fs[j])
  }

  /** Process p is in the middle of computing entry i. */
  ghost predicate Working(fs: seq<Frame>, i: int) {
    exists j :: 0 <= j < |fs| && fs[j].n == i && Mid(fs[j].stage)
  }

  /** A valid entry is right; any other is 0 unless somebody is computing it. */
  ghost predicate EntryOk(s: State, i: int)
    requires Shape(s) && 0 <= i < SIZE
  {
    if s.valid[i] then s.fibs[i] == F(i)
    else s.fibs[i] == 0 || exists p: nat :: L.IsProc(s.l, p) && p < |s.stack| && Working(s.stack[p], i)
  }

  ghost predicate ProcOk(s: State, p: nat)
    requires Shape(s) && L.IsProc(s.l, p)
  {
    Nested(s.stack[p]) && DepthOk(s.stack[p], s.l.procs[p]) && FramesOk(s, s.stack[p])
  }

  ghost predicate Inv(s: State) {
    && Shape(s) && L.Inv(s.l) && s.valid[0] && s.valid[1]
    && (forall p: nat {:trigger ProcOk(s, p)} :: L.IsProc(s.l, p) ==> ProcOk(s, p))
    && (forall i {:trigger EntryOk(s, i)} :: 0 <= i < SIZE ==> EntryOk(s, i))
  }

  /** A process with a frame in the middle of its work is inside the lock, so it is the only one. */
  lemma OnlyWorker(s: State, p: nat, q: nat, j: int)
    requires Inv(s) && L.IsProc(s.l, p) && L.IsProc(s.l, q) && s.l.procs[p].depth > 0
    requires 0 <= j < |s.stack[q]| && Mid(s.stack[q][j].stage)
    ensures p == q
  {
    assert ProcOk(s, q);
    assert j + 1 < |s.stack[q]| ==> Waits(s.stack[q], j);
    assert s.l.procs[q].depth > 0;
    assert L.ProcOk(s.l.m, p, s.l.procs[p]) && L.ProcOk(s.l.m, q, s.l.procs[q]);
  }

  // ---------------------------------------------------------------- steps of the lock

  lemma LockKeeps(s: State, b: L.Action)
    requires Inv(s) && Enabled(s, Lock(b))
    ensures Inv(Next(s, Lock(b)))
  {
    var t := Next(s, Lock(b));
    L.StepKeepsInv(s.l, b);
    var x := s.l.procs[b.p];
    assert L.ProcOk(s.l.m, b.p, x) && ProcOk(s, b.p);
    if b.Step? {
      StatementMoves(s.l.m, b.p, x);
    }
    forall q: nat | L.IsProc(t.l, q) ensures ProcOk(t, q) {
      assert ProcOk(s, q);
      assert q != b.p ==> t.l.procs[q].pc == s.l.procs[q].pc && t.l.procs[q].depth == s.l.procs[q].depth;
    }
    forall i | 0 <= i < SIZE ensures EntryOk(t, i) {
      EntryKept(s, t, i);
    }
  }

  lemma EntryKept(s: State, t: State, i: int)
    requires Shape(s) && Shape(t) && 0 <= i < SIZE && EntryOk(s, i) && |t.l.procs| == |s.l.procs|
    requires t.fibs[i] == s.fibs[i] && t.valid[i] == s.valid[i]
    requires forall p: nat {:trigger t.stack[p]} :: L.IsProc(s.l, p) && Working(s.stack[p], i) ==>
      Working(t.stack[p], i)
    ensures EntryOk(t, i)
  {
    if !s.valid[i] && s.fibs[i] != 0 {
      var p: nat :| L.IsProc(s.l, p) && p < |s.stack| && Working(s.stack[p], i);
      assert Working(t.stack[p], i);
    }
  }

  // ---------------------------------------------------------------- statements of a frame

  /** What a statement of p's innermost frame, for entry n, may change. */
  ghost predicate Local(s: State, t: State, p: nat, n: nat) {
    && Shape(s) && Shape(t) && |t.l.procs| == |s.l.procs| && L.IsProc(s.l, p) && n < SIZE
    && (forall q: nat {:trigger t.stack[q]} :: L.IsProc(s.l, q) && q != p ==>
          t.stack[q] == s.stack[q] && t.l.procs[q].pc == s.l.procs[q].pc && t.l.procs[q].depth == s.l.procs[q].depth)
    && (forall i {:trigger t.fibs[i]} {:trigger t.valid[i]} ::
         0 <= i < SIZE && i != n ==> t.fibs[i] == s.fibs[i] && t.valid[i] == s.valid[i])
    && (s.valid[n] ==> t.valid[n] && t.fibs[n] == s.fibs[n])
    && (t.fibs[n] != s.fibs[n] || t.valid[n] != s.valid[n] ==> s.l.procs[p].depth > 0)
  }

  lemma OthersKept(s: State, t: State, p: nat, n: nat, q: nat)
    requires Inv(s) && Local(s, t, p, n) && L.IsProc(s.l, q) && q != p
    ensures ProcOk(t, q)
  {
    assert ProcOk(s, q) && t.stack[q] == s.stack[q];
    forall j | 0 <= j < |s.stack[q]| ensures FrameOk(t.fibs[s.stack[q][j].n], t.valid[s.stack[q][j].n], s.stack[q][j]) {
      var f := s.stack[q][j];
      assert FrameOk(s.fibs[f.n], s.valid[f.n], f);
      if Mid(f.stage) && s.l.procs[p].depth > 0 {
        OnlyWorker(s, p, q, j);
      }
    }
  }

  /** Together: what p's own frames and its entry are like decides the rest. */
  lemma LocalKeeps(s: State, t: State, p: nat, n: nat)
    requires Inv(s) && Local(s, t, p, n) && L.Inv(t.l) && ProcOk(t, p) && EntryOk(t, n)
    requires forall i :: i != n && Working(s.stack[p], i) ==> Working(t.stack[p], i)
    ensures Inv(t)
  {
    forall q: nat | L.IsProc(t.l, q) ensures ProcOk(t, q) {
      if q != p {
        OthersKept(s, t, p, n, q);
      }
    }
    forall i | 0 <= i < SIZE ensures EntryOk(t, i) {
      if i != n {
        assert EntryOk(s, i);
        EntryKept(s, t, i);
      }
    }
  }

  /** Putting the innermost frame at another stage keeps who works on what. */
  lemma PutWorking(fs: seq<Frame>, g: Stage, i: int)
    requires fs != [] && Nested(fs) && Working(fs, i) && i != Top(fs).n
    ensures Working(Put(fs, g), i)
  {
    var j :| 0 <= j < |fs| && fs[j].n == i && Mid(fs[j].stage);
    assert Put(fs, g)[j] == fs[j];
  }

  lemma TopWorking(fs: seq<Frame>, g: Stage)
    requires fs != [] && Mid(g)
    ensures Working(Put(fs, g), Top(fs).n)
  {
    var r := Put(fs, g);
    assert r[|r| - 1].n == Top(fs).n && Mid(r[|r| - 1].stage);
  }

  /** Nobody computes the entry of a frame that has just entered. */
  lemma FreshEntry(s: State, p: nat)
    requires Inv(s) && L.IsProc(s.l, p) && s.stack[p] != [] && s.l.procs[p].pc.Idle? && Top(s.stack[p]).stage.Enter?
    ensures var n := Top(s.stack[p]).n; n < SIZE && (!s.valid[n] ==> s.fibs[n] == 0 && n >= 2)
  {
    var fs := s.stack[p];
    var n := Top(fs).n;
    assert ProcOk(s, p) && EntryOk(s, n);
    forall q: nat | L.IsProc(s.l, q) ensures !Working(s.stack[q], n) {
      forall j | 0 <= j < |s.stack[q]| && Mid(s.stack[q][j].stage) ensures s.stack[q][j].n != n {
        OnlyWorker(s, p, q, j);
        assert j < |fs| - 1 ==> Above(fs, j, |fs| - 1);
      }
    }
  }

  /** Frames that differ only in stage, and there only above the innermost two. */
  lemma SameNumbers(fs: seq<Frame>, r: seq<Frame>)
    requires Nested(fs) && |r| <= |fs| && (forall j :: 0 <= j < |r| ==> r[j].n == fs[j].n)
    requires (forall j :: 0 <= j < |r| - 1 ==> r[j] == fs[j])
    requires (r != [] ==> !Top(r).stage.First? && !Top(r).stage.Second?)
    ensures Nested(r)
  {
    forall j: nat, k: nat | j < k < |r| ensures Above(r, j, k) {
      assert Above(fs, j, k);
    }
    forall j: nat | j + 1 < |r| ensures Waits(r, j) {
      assert Waits(fs, j);
    }
  }

  lemma PutNested(fs: seq<Frame>, g: Stage)
    requires fs != [] && Nested(fs) && !g.First? && !g.Second?
    ensures Nested(Put(fs, g))
  {
    SameNumbers(fs, Put(fs, g));
  }

  lemma PutFrames(s: State, t: State, p: nat, fs: seq<Frame>, g: Stage)
    requires fs != [] && Nested(fs) && Local(s, t, p, Top(fs).n) && FramesOk(s, fs)
    requires var n := Top(fs).n; FrameOk(t.fibs[n], t.valid[n], Frame(n, g))
    ensures FramesOk(t, Put(fs, g))
  {
    var r := Put(fs, g);
    forall j | 0 <= j < |r| ensures r[j].n < SIZE && FrameOk(t.fibs[r[j].n], t.valid[r[j].n], r[j]) {
      if j < |fs| - 1 {
        assert r[j] == fs[j];
        assert Above(fs, j, |fs| - 1);
      }
    }
  }

  /** A statement that only moves the innermost frame on and may write its entry. */
  lemma PutKeeps(s: State, t: State, p: nat, g: Stage)
    requires Inv(s) && L.IsProc(s.l, p) && s.stack[p] != []
    requires Top(s.stack[p]).n < SIZE && Local(s, t, p, Top(s.stack[p]).n) && EntryOk(t, Top(s.stack[p]).n)
    requires t.stack[p] == Put(s.stack[p], g) && L.Inv(t.l) && !g.First? && !g.Second?
    requires DepthOk(Put(s.stack[p], g), t.l.procs[p])
    requires var n := Top(s.stack[p]).n; FrameOk(t.fibs[n], t.valid[n], Frame(n, g))
    ensures Inv(t)
  {
    var fs := s.stack[p];
    assert ProcOk(s, p);
    PutNested(fs, g);
    PutFrames(s, t, p, fs, g);
    forall i | i != Top(fs).n && Working(fs, i) ensures Working(t.stack[p], i) {
      PutWorking(fs, g, i);
    }
    assert ProcOk(t, p);
    LocalKeeps(s, t, p, Top(fs).n);
  }

  /** acquirereentrant and releasereentrant are called from outside the lock's code. */
  lemma CallsLock(l: L.State, p: nat)
    requires L.Inv(l) && L.IsProc(l, p) && l.procs[p].pc.Idle?
    ensures var x := l.procs[p];
      && L.Enabled(l, L.Acquire(p)) && L.Enabled(l, L.Release(p))
      && L.Inv(L.Next(l, L.Acquire(p))) && L.Inv(L.Next(l, L.Release(p)))
      && L.Next(l, L.Acquire(p)).procs == l.procs[p := x.(pc := L.AcqReadLocked)]
      && L.Next(l, L.Release(p)).procs == l.procs[p := x.(pc := L.RelReadLocked)]
  {
    L.StepKeepsInv(l, L.Acquire(p));
    L.StepKeepsInv(l, L.Release(p));
  }

  /** A statement on the innermost frame, from a state in order. */
  ghost predicate CanGo(s: State, p: nat) {
    Inv(s) && L.IsProc(s.l, p) && s.stack[p] != [] && s.l.procs[p].pc.Idle?
  }

  lemma LeavingKeeps(s: State, p: nat)
    requires CanGo(s, p) && Enabled(s, Go(p))
    requires Top(s.stack[p]).stage.Set? || (Top(s.stack[p]).stage.Enter? && s.valid[Top(s.stack[p]).n])
    ensures Inv(Statement(s, p))
  {
    assert ProcOk(s, p);
    var n := Top(s.stack[p]).n;
    CallsLock(s.l, p);
    assert EntryOk(s, n);
    PutKeeps(s, Statement(s, p), p, Leave);
  }

  lemma AddKeeps(s: State, p: nat)
    requires CanGo(s, p) && Enabled(s, Go(p)) && (Top(s.stack[p]).stage.Got1? || Top(s.stack[p]).stage.Got2?)
    ensures Inv(Statement(s, p))
  {
    assert ProcOk(s, p);
    var fs := s.stack[p];
    var f, t := Top(fs), Statement(s, p);
    assert FrameOk(s.fibs[f.n], s.valid[f.n], f);
    var g := if f.stage.Got1? then Half else Full;
    TopWorking(fs, g);
    assert EntryOk(t, f.n);
    PutKeeps(s, t, p, g);
  }

  lemma MarkKeeps(s: State, p: nat)
    requires CanGo(s, p) && Enabled(s, Go(p)) && Top(s.stack[p]).stage.Full?
    ensures Inv(Statement(s, p))
  {
    assert ProcOk(s, p);
    var f := Top(s.stack[p]);
    assert FrameOk(s.fibs[f.n], s.valid[f.n], f);
    PutKeeps(s, Statement(s, p), p, Set);
  }

  lemma NestedPush(fs: seq<Frame>, g: Stage, m: nat)
    requires fs != [] && Nested(fs) && (g.First? || g.Second?) && Top(fs).n >= 2
    requires m == Top(fs).n - if g.First? then 1 else 2
    ensures Nested(Put(fs, g) + [Frame(m, Enter)])
  {
    var r := Put(fs, g) + [Frame(m, Enter)];
    var last := |fs| - 1;
    forall j: nat, k: nat | j < k < |r| ensures Above(r, j, k) {
      assert j < last ==> Above(fs, j, last);
      assert k <= last ==> Above(fs, j, k);
    }
    forall j: nat | j + 1 < |r| ensures Waits(r, j) {
      assert j < last ==> Waits(fs, j);
    }
  }

  lemma PushFrames(s: State, t: State, p: nat, fs: seq<Frame>, g: Stage, m: nat)
    requires fs != [] && Nested(fs) && Local(s, t, p, Top(fs).n) && FramesOk(s, fs) && m < SIZE && Mid(g)
    requires var n := Top(fs).n; FrameOk(t.fibs[n], t.valid[n], Frame(n, g))
    ensures FramesOk(t, Put(fs, g) + [Frame(m, Enter)])
    ensures Working(Put(fs, g) + [Frame(m, Enter)], Top(fs).n)
    ensures forall i :: i != Top(fs).n && Working(fs, i) ==> Working(Put(fs, g) + [Frame(m, Enter)], i)
  {
    PutFrames(s, t, p, fs, g);
    var r := Put(fs, g) + [Frame(m, Enter)];
    assert r[|fs| - 1].n == Top(fs).n && Mid(r[|fs| - 1].stage);
    forall i | i != Top(fs).n && Working(fs, i) ensures Working(r, i) {
      var j :| 0 <= j < |fs| && fs[j].n == i && Mid(fs[j].stage);
      assert r[j] == fs[j];
    }
  }

  lemma NestLocal(s: State, p: nat, g: Stage, m: nat)
    requires Shape(s) && L.Inv(s.l) && L.IsProc(s.l, p) && s.stack[p] != [] && s.l.procs[p].pc.Idle?
    requires Top(s.stack[p]).n < SIZE
    ensures Local(s, Nest(s, p, g, m), p, Top(s.stack[p]).n)
  {
    CallsLock(s.l, p);
  }

  lemma NestKeeps(s: State, p: nat)
    requires CanGo(s, p) && Enabled(s, Go(p))
    requires Top(s.stack[p]).stage.Half? || (Top(s.stack[p]).stage.Enter? && !s.valid[Top(s.stack[p]).n])
    ensures Inv(Statement(s, p))
  {
    assert ProcOk(s, p);
    var fs := s.stack[p];
    var f, t := Top(fs), Statement(s, p);
    assert FrameOk(s.fibs[f.n], s.valid[f.n], f);
    if f.stage.Enter? {
      FreshEntry(s, p);
    }
    var g := if f.stage.Enter? then First else Second;
    var m := f.n - if g.First? then 1 else 2;
    assert t == Nest(s, p, g, m);
    PushKeeps(s, p, g, m);
  }

  lemma PushKeeps(s: State, p: nat, g: Stage, m: nat)
    requires CanGo(s, p) && Top(s.stack[p]).n < SIZE && Top(s.stack[p]).n >= 2 && (g.First? || g.Second?)
    requires m == Top(s.stack[p]).n - if g.First? then 1 else 2
    requires var n := Top(s.stack[p]).n; FrameOk(s.fibs[n], s.valid[n], Frame(n, g))
    ensures Inv(Nest(s, p, g, m))
  {
    assert ProcOk(s, p);
    var fs, t := s.stack[p], Nest(s, p, g, m);
    CallsLock(s.l, p);
    NestedPush(fs, g, m);
    NestLocal(s, p, g, m);
    PushFrames(s, t, p, fs, g, m);
    assert EntryOk(s, Top(fs).n);
    assert EntryOk(t, Top(fs).n);
    assert ProcOk(t, p);
    LocalKeeps(s, t, p, Top(fs).n);
  }

  lemma ReturnWorking(s: State, fs: seq<Frame>, i: int)
    requires Shape(s) && fs != [] && Top(fs).n < SIZE && i != Top(fs).n && Working(fs, i)
    ensures Working(Returned(s, fs), i)
  {
    var j :| 0 <= j < |fs| && fs[j].n == i && Mid(fs[j].stage);
    var r := Returned(s, fs);
    assert j < |r| && r[j].n == i && Mid(r[j].stage);
  }

  lemma ReturnKeeps(s: State, p: nat)
    requires CanGo(s, p) && Enabled(s, Go(p)) && Top(s.stack[p]).stage.Leave?
    ensures Inv(Statement(s, p))
  {
    assert ProcOk(s, p);
    var fs := s.stack[p];
    var n, t := Top(fs).n, Statement(s, p);
    assert EntryOk(s, n) && FrameOk(s.fibs[n], s.valid[n], Top(fs));
    ReturnFrames(s, fs);
    forall i | i != n && Working(fs, i) ensures Working(t.stack[p], i) {
      ReturnWorking(s, fs, i);
    }
    assert FramesOk(t, Returned(s, fs));
    ReturnDepth(s, fs, s.l.procs[p]);
    assert ProcOk(t, p) && EntryOk(t, n);
    LocalKeeps(s, t, p, n);
  }

  lemma ReturnDepth(s: State, fs: seq<Frame>, x: L.Proc)
    requires Shape(s) && fs != [] && Top(fs).n < SIZE && DepthOk(fs, x) && Top(fs).stage.Leave? && x.pc.Idle?
    ensures DepthOk(Returned(s, fs), x)
  {
  }

  lemma ReturnFrames(s: State, fs: seq<Frame>)
    requires Shape(s) && fs != [] && Nested(fs) && FramesOk(s, fs) && s.fibs[Top(fs).n] == F(Top(fs).n)
    ensures Nested(Returned(s, fs)) && FramesOk(s, Returned(s, fs))
  {
    var r := Returned(s, fs);
    SameNumbers(fs, r);
    if r != [] {
      var h := fs[|fs| - 2];
      assert Waits(fs, |fs| - 2);
      assert FrameOk(s.fibs[h.n], s.valid[h.n], h);
      assert r[|r| - 1] == Receive(h, F(Top(fs).n));
    }
    forall j | 0 <= j < |r| ensures r[j].n < SIZE && FrameOk(s.fibs[r[j].n], s.valid[r[j].n], r[j]) {
      assert j < |r| - 1 ==> r[j] == fs[j];
    }
  }

  lemma StepKeepsInv(s: State, a: Action)
    requires Inv(s) && Enabled(s, a)
    ensures Inv(Next(s, a))
  {
    match a
    case Lock(b) => LockKeeps(s, b);
    case Call(p, n) =>
      CallsLock(s.l, p);
      assert ProcOk(s, p);
      assert EntryOk(s, n);
      var t := Next(s, a);
      assert Nested(t.stack[p]) && FramesOk(t, t.stack[p]) && DepthOk(t.stack[p], t.l.procs[p]);
      assert ProcOk(t, p);
      EntryKept(s, t, n);
      LocalKeeps(s, t, p, n);
    case Go(p) =>
      assert ProcOk(s, p);
      match Top(s.stack[p]).stage {
        case Enter => if s.valid[Top(s.stack[p]).n] { LeavingKeeps(s, p); } else { NestKeeps(s, p); }
        case Got1(_) => AddKeeps(s, p);
        case Got2(_) => AddKeeps(s, p);
        case Half => NestKeeps(s, p);
        case Full => MarkKeeps(s, p);
        case Set => LeavingKeeps(s, p);
        case Leave => ReturnKeeps(s, p);
      }
  }

  lemma {:induction false} RunKeepsInv(tr: seq<State>, k: nat)
    requires Run(tr) && k < |tr|
    ensures Inv(tr[k])
  {
    if k > 0 {
      RunKeepsInv(tr, k - 1);
      assert StepAt(tr, k - 1);
      var a :| Enabled(tr[k - 1], a) && tr[k] == Next(tr[k - 1], a);
      StepKeepsInv(tr[k - 1], a);
    } else {
      L.InitInv(tr[0].l);
    }
  }

  // ---------------------------------------------------------------- what every run gives

  /** In every interleaving the value that a call reads after it has left the lock is the Fibonacci
      number it was asked for, and fits an int. */
  lemma ResultsRight(tr: seq<State>, k: nat, p: nat)
    requires Run(tr) && k < |tr| && Enabled(tr[k], Go(p))
    ensures var f := Top(tr[k].stack[p]); f.stage.Leave? ==> tr[k].fibs[f.n] == F(f.n) < 0x8000_0000
  {
    RunKeepsInv(tr, k);
    var f := Top(tr[k].stack[p]);
    assert ProcOk(tr[k], p) && EntryOk(tr[k], f.n);
    assert FrameOk(tr[k].fibs[f.n], tr[k].valid[f.n], f);
    FIsInt(f.n);
  }

  /** No step of any run changes a valid entry, and no sum on the way leaves the range of int. */
  lemma ValidEntriesStay(tr: seq<State>, k: nat, a: Action, i: nat)
    requires Run(tr) && k < |tr| && Enabled(tr[k], a) && i < SIZE
    ensures var s, t := tr[k], Next(tr[k], a);
      (s.valid[i] ==> t.valid[i] && t.fibs[i] == s.fibs[i]) && 0 <= t.fibs[i] < 0x8000_0000
  {
    RunKeepsInv(tr, k);
    var s, t := tr[k], Next(tr[k], a);
    StepKeepsInv(s, a);
    if a.Go? {
      var f := Top(s.stack[a.p]);
      assert ProcOk(s, a.p) && FrameOk(s.fibs[f.n], s.valid[f.n], f);
    }
    InRange(t, i);
  }

  lemma InRange(s: State, i: nat)
    requires Inv(s) && i < SIZE
    ensures 0 <= s.fibs[i] < 0x8000_0000
  {
    assert EntryOk(s, i);
    FIsInt(i);
    if !s.valid[i] && s.fibs[i] != 0 {
      var p: nat :| L.IsProc(s.l, p) && p < |s.stack| && Working(s.stack[p], i);
      var j :| 0 <= j < |s.stack[p]| && s.stack[p][j].n == i && Mid(s.stack[p][j].stage);
      assert ProcOk(s, p) && FrameOk(s.fibs[i], s.valid[i], s.stack[p][j]);
      FIsInt(i - 1);
    }
  }
}
