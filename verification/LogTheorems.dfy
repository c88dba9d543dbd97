/** The promises of the log, stated about every run. */
module LogTheorems {
  import opened Common
  import opened Blocks
  import opened LogModel
  import opened LogProof

  /** The disk after slots t and later have been copied to the listed home blocks. */
  function InstallAll(c: Config, disk: seq<Block>, h: seq<nat>, t: nat): (r: seq<Block>)
    requires c.start + 1 + |h| <= |disk| && t <= |h|
    ensures |r| == |disk|
    decreases |h| - t
  {
    if t == |h| then disk else InstallAll(c, Put(disk, h[t], disk[c.start + 1 + t]), h, t + 1)
  }

  /** What an undisturbed recovery makes of a disk. */
  function RecoverDisk(c: Config, disk: seq<Block>): (r: seq<Block>)
    requires c.start < |disk| && HeaderFits(disk[c.start])
    requires c.start + 1 + |Header(disk[c.start])| <= |disk|
  {
    var done := InstallAll(c, disk, Header(disk[c.start]), 0);
    Put(done, c.start, PutHeader(done[c.start], [], 0))
  }

  /** The disk has a header that recovery can follow. */
  predicate CanRecover(c: Config, disk: seq<Block>) {
    && |disk| == c.total && c.start < c.total && HeaderFits(disk[c.start])
    && c.start + 1 + |Header(disk[c.start])| <= c.total
  }

  lemma {:induction false} InstallAllLands(c: Config, disk: seq<Block>, d: seq<Block>, h: seq<nat>, t: nat)
    requires c.Valid() && StandsFor(c, disk, d, h) && t <= |h| && Copied(c, disk, d, h, t)
    ensures SameHome(c, InstallAll(c, disk, h, t), d)
    decreases |h| - t
  {
    if t < |h| {
      CopyStandsFor(c, disk, d, h, t);
      CopyCopied(c, disk, d, h, t);
      InstallAllLands(c, disk[h[t] := d[h[t]]], d, h, t + 1);
    }
  }

  /** Crash atomicity. Stop any run anywhere: recovering from the disk it left gives exactly
      the committed contents, never a mixture. */
  lemma CrashAtomicity(c: Config, base: seq<Block>, tr: seq<State>)
    requires Run(c, base, tr)
    ensures var s := tr[|tr| - 1];
      CanRecover(c, s.disk) && SameHome(c, RecoverDisk(c, s.disk), Apply(base, s.durable))
  {
    var s := tr[|tr| - 1];
    RunKeepsInv(c, base, tr);
    DataRecoverable(c, base, s);
    InstallAllLands(c, s.disk, Durable(base, s), Header(s.disk[c.start]), 0);
  }

  /** A recovery that completes, however many crashes interrupted earlier attempts, leaves the
      home blocks and the cache at the committed contents and the log empty. */
  lemma RecoveryCompletes(c: Config, base: seq<Block>, tr: seq<State>)
    requires Run(c, base, tr) && |tr| > 1
    requires tr[|tr| - 2].pc.Recover? && tr[|tr| - 1].pc.Running?
    ensures var s := tr[|tr| - 1];
      && SameHome(c, s.disk, Apply(base, s.durable)) && SameHome(c, s.cache, Apply(base, s.durable))
      && s.lh == [] && c.start < |s.disk| && HeaderFits(s.disk[c.start]) && Header(s.disk[c.start]) == []
  {
    var s := tr[|tr| - 2];
    var a := LastStep(c, base, tr);
    RunKeepsInv(c, base, tr);
    RunKeepsInv(c, base, tr[..|tr| - 1]);
    assert a.Advance?;
  }

  /** Commit and recovery never index outside the log region, the header or the disk. */
  lemma AdvanceAlwaysOk(c: Config, base: seq<Block>, tr: seq<State>)
    requires Run(c, base, tr)
    ensures AdvanceOk(c, tr[|tr| - 1])
  {
    RunKeepsInv(c, base, tr);
    DataRecoverable(c, base, tr[|tr| - 1]);
  }

  /** On a machine that has just booted, reading a block reads the disk. */
  lemma BootCache(c: Config, base: seq<Block>, tr: seq<State>)
    requires Run(c, base, tr) && tr[|tr| - 1].pc.Boot?
    ensures tr[|tr| - 1].cache == tr[|tr| - 1].disk
  {
    RunKeepsInv(c, base, tr);
  }

  /** A commit runs only with no operation open, so end_op's own panic cannot happen. */
  lemma CommitsAlone(c: Config, base: seq<Block>, tr: seq<State>)
    requires Run(c, base, tr)
    ensures var s := tr[|tr| - 1];
      && s.outstanding == |s.active| && (s.committing ==> s.outstanding == 0 && !s.pc.Running?)
      && (s.active != [] ==> s.pc.Running?) && (!s.committing && !s.pc.Recovers() ==> s.pc.Running?)
  {
    RunKeepsInv(c, base, tr);
  }

  /** The header write is the only step that changes what is durable, and it makes the whole
      group durable at once. */
  lemma CommitPoint(c: Config, s: State, a: Action)
    requires Enabled(c, s, a) && Next(c, s, a).durable != s.durable
    ensures a.Advance? && s.pc == WriteLog(s.pc.tail) && s.pc.tail >= |s.lh|
    ensures Next(c, s, a).durable == s.durable + s.pending && Next(c, s, a).pending == []
    ensures Next(c, s, a).disk == Put(s.disk, c.start, PutHeader(s.cache[c.start], s.lh, |s.lh|))
  {
  }

  /** The step that writes the header of a commit. */
  predicate HeaderWrite(s: State, a: Action) {
    a.Advance? && s.pc.WriteLog? && s.pc.tail >= |s.lh|
  }

  /** What recovery would make of the home blocks changes in one kind of step only. In every run,
      the header write takes it from the committed contents to the contents that all operations of
      the group have given the cache; no other step, and no crash, changes it at all. */
  lemma RecoveryChangesAtCommit(c: Config, base: seq<Block>, tr: seq<State>, a: Action)
    requires Run(c, base, tr) && Enabled(c, tr[|tr| - 1], a)
    ensures var s := tr[|tr| - 1]; var t := Next(c, s, a);
      && CanRecover(c, s.disk) && CanRecover(c, t.disk)
      && (if HeaderWrite(s, a) then
            && SameHome(c, RecoverDisk(c, t.disk), Apply(Apply(base, s.durable), s.pending))
            && SameHome(c, RecoverDisk(c, t.disk), s.cache)
          else SameHome(c, RecoverDisk(c, t.disk), RecoverDisk(c, s.disk)))
  {
    var s := tr[|tr| - 1];
    var t := Next(c, s, a);
    assert Step(c, s, t);
    RunExtend(c, base, tr, t);
    CrashAtomicity(c, base, tr);
    CrashAtomicity(c, base, tr + [t]);
    RunKeepsInv(c, base, tr);
    if HeaderWrite(s, a) {
      ApplyConcat(base, s.durable, s.pending);
    } else {
      assert t.durable == s.durable;
    }
  }

  /** Committed writes are never taken back, not even by crashes. */
  lemma {:induction false} DurableGrows(c: Config, base: seq<Block>, tr: seq<State>, i: nat)
    requires Run(c, base, tr) && i < |tr|
    ensures tr[i].durable <= tr[|tr| - 1].durable
    decreases |tr|
  {
    if i < |tr| - 1 {
      var a := LastStep(c, base, tr);
      DurableGrows(c, base, tr[..|tr| - 1], i);
      if tr[|tr| - 1].durable != tr[|tr| - 2].durable {
        CommitPoint(c, tr[|tr| - 2], a);
      }
    }
  }

  /** At every moment an operation is durable with all the writes it ever issued or with none,
      and an operation still open has none. */
  lemma AllOrNothing(c: Config, base: seq<Block>, tr: seq<State>, id: OpId)
    requires Run(c, base, tr)
    ensures var s := tr[|tr| - 1];
      && (WritesOf(s.durable, id) == WritesOf(s.issued, id) || WritesOf(s.durable, id) == [])
      && (forall i :: 0 <= i < |s.active| && s.active[i].id == id ==> WritesOf(s.durable, id) == [])
  {
    RunKeepsInv(c, base, tr);
    assert FateOk(tr[|tr| - 1], id);
  }

  lemma StepFateOrder(c: Config, s: State, a: Action, id: OpId)
    requires Enabled(c, s, a) && id in s.fate
    ensures id in Next(c, s, a).fate
    ensures !s.fate[id].Live? ==> Next(c, s, a).fate[id] == s.fate[id]
    ensures s.fate[id].Live? && Next(c, s, a).fate[id].Lost? ==> Next(c, s, a).pc.Boot?
  {
  }

  lemma {:induction false} FateOrder(c: Config, base: seq<Block>, tr: seq<State>, i: nat, id: OpId)
    requires Run(c, base, tr) && i < |tr| && id in tr[i].fate && tr[i].fate[id].Live?
    requires forall k :: i < k < |tr| ==> !tr[k].pc.Boot?
    ensures id in tr[|tr| - 1].fate && !tr[|tr| - 1].fate[id].Lost?
    decreases |tr|
  {
    if i < |tr| - 1 {
      var a := LastStep(c, base, tr);
      FateOrder(c, base, tr[..|tr| - 1], i, id);
      StepFateOrder(c, tr[|tr| - 2], a, id);
    }
  }

  /** Durability. If an operation was open and, without a crash in between, a commit reaches its
      end, then every write the operation issued is committed, and the home blocks on disk hold
      the committed contents. */
  lemma DurableAfterCommit(c: Config, base: seq<Block>, tr: seq<State>, i: nat, who: nat)
    requires Run(c, base, tr) && i < |tr| && who < |tr[i].active|
    requires forall k :: i < k < |tr| ==> !tr[k].pc.Boot?
    requires tr[|tr| - 1].pc.Finish?
    ensures var s := tr[|tr| - 1]; var id := tr[i].active[who].id;
      && WritesOf(s.durable, id) == WritesOf(s.issued, id)
      && SameHome(c, s.disk, Apply(base, s.durable))
  {
    var id := tr[i].active[who].id;
    RunPrefix(c, base, tr, i + 1);
    RunKeepsInv(c, base, tr[..i + 1]);
    RunKeepsInv(c, base, tr);
    FateOrder(c, base, tr, i, id);
    assert FateOk(tr[|tr| - 1], id);
  }

  // ----- sleepers in begin_op -----

  /** An idle log is empty, and a process asleep in begin_op has reason to sleep. */
  ghost predicate Waiters(s: State) {
    && (s.pc.Running? && s.outstanding == 0 ==> s.lh == [])
    && (s.asleep != {} ==> MustWait(s) && !s.pc.Recovers())
  }

  lemma StepKeepsWaiters(c: Config, base: seq<Block>, s: State, a: Action)
    requires Inv(c, base, s) && Waiters(s) && Enabled(c, s, a)
    ensures Waiters(Next(c, s, a))
  {
  }

  lemma {:induction false} RunKeepsWaiters(c: Config, base: seq<Block>, tr: seq<State>)
    requires Run(c, base, tr)
    ensures Waiters(tr[|tr| - 1])
    decreases |tr|
  {
    if |tr| == 1 {
      assert StepAt(c, base, tr, 0);
    } else {
      var before := tr[..|tr| - 1];
      var a := LastStep(c, base, tr);
      RunKeepsWaiters(c, base, before);
      RunKeepsInv(c, base, before);
      StepKeepsWaiters(c, base, before[|before| - 1], a);
    }
  }

  /** No lost wakeup in begin_op: in every run, while a process sleeps there a commit is under way
      or the log has no room for it, and somebody is left who will wake it: the commit, or an open
      operation. */
  lemma SleepersHaveReason(c: Config, base: seq<Block>, tr: seq<State>, p: nat)
    requires Run(c, base, tr)
    ensures var s := tr[|tr| - 1]; p in s.asleep ==>
      && (s.committing || |s.lh| + (s.outstanding + 1) * MAXOPBLOCKS > LOGSIZE)
      && (s.committing || (s.outstanding > 0 && s.active != []))
  {
    RunKeepsWaiters(c, base, tr);
    RunKeepsInv(c, base, tr);
  }

  // ----- the reservation of begin_op -----

  /** What the open operations may still log within their budget. */
  function Room(active: seq<Op>): (r: int) {
    if active == [] then 0 else MAXOPBLOCKS - |active[0].blocks| + Room(active[1..])
  }

  lemma {:induction false} RoomConcat(a: seq<Op>, b: seq<Op>)
    ensures Room(a + b) == Room(a) + Room(b)
  {
    if a == [] {
      assert a + b == b;
    } else {
      RoomConcat(a[1..], b);
      assert (a + b)[1..] == a[1..] + b;
    }
  }

  lemma RoomSplit(a: seq<Op>, i: nat)
    requires i < |a|
    ensures Room(a) == Room(a[..i]) + MAXOPBLOCKS - |a[i].blocks| + Room(a[i + 1..])
  {
    assert a == a[..i] + a[i..];
    RoomConcat(a[..i], a[i..]);
    assert a[i..][1..] == a[i + 1..];
  }

  ghost predicate InBudget(s: State) {
    forall i :: 0 <= i < |s.active| ==> |s.active[i].blocks| <= MAXOPBLOCKS
  }

  ghost predicate BudgetRun(c: Config, base: seq<Block>, tr: seq<State>) {
    Run(c, base, tr) && forall k :: 0 <= k < |tr| ==> InBudget(tr[k])
  }

  ghost predicate Reserved(s: State) {
    && (s.pc.Running? ==> |s.lh| + Room(s.active) <= LOGSIZE)
    && (forall i, b :: 0 <= i < |s.active| && b in s.active[i].blocks ==> b in s.lh)
  }

  lemma {:induction false} RoomAtLeast(a: seq<Op>)
    requires forall i :: 0 <= i < |a| ==> |a[i].blocks| <= MAXOPBLOCKS
    ensures 0 <= Room(a)
  {
    if a != [] {
      RoomAtLeast(a[1..]);
    }
  }

  lemma {:induction false} RoomAtMost(a: seq<Op>)
    ensures Room(a) <= MAXOPBLOCKS * |a|
  {
    if a != [] {
      RoomAtMost(a[1..]);
    }
  }

  lemma LogWriteKeepsReserved(c: Config, s: State, a: Action)
    requires a.LogWrite? && Enabled(c, s, a) && Reserved(s)
    ensures Reserved(Next(c, s, a))
  {
    var s' := Next(c, s, a);
    RoomSplit(s.active, a.who);
    RoomSplit(s'.active, a.who);
    var op := s.active[a.who];
    assert s'.active[a.who].blocks == op.blocks + {a.block};
    if a.block in op.blocks {
      assert op.blocks + {a.block} == op.blocks;
    } else {
      assert |op.blocks + {a.block}| == |op.blocks| + 1;
    }
  }

  lemma EndOpKeepsReserved(c: Config, s: State, a: Action)
    requires a.EndOp? && Enabled(c, s, a) && Reserved(s) && InBudget(s)
    requires s.pc.Running? && s.outstanding == |s.active|
    ensures Reserved(Next(c, s, a))
  {
    RoomSplit(s.active, a.who);
    RoomConcat(s.active[..a.who], s.active[a.who + 1..]);
  }

  lemma StepKeepsReserved(c: Config, base: seq<Block>, s: State, a: Action)
    requires Inv(c, base, s) && Enabled(c, s, a) && Reserved(s) && InBudget(s)
    ensures Reserved(Next(c, s, a))
  {
    match a
    case BeginOp(id) =>
      RoomConcat(s.active, [Op(id, {})]);
      RoomAtMost(s.active);
    case LogWrite(_, _, _) => LogWriteKeepsReserved(c, s, a);
    case EndOp(_) => EndOpKeepsReserved(c, s, a);
    case Sleep(_) =>
    case Kill(_) =>
    case Advance =>
    case Crash =>
  }

  lemma LastBudgetStep(c: Config, base: seq<Block>, tr: seq<State>) returns (a: Action)
    requires BudgetRun(c, base, tr) && |tr| > 1
    ensures BudgetRun(c, base, tr[..|tr| - 1]) && InBudget(tr[|tr| - 2]) && Inv(c, base, tr[|tr| - 2])
    ensures Enabled(c, tr[|tr| - 2], a) && tr[|tr| - 1] == Next(c, tr[|tr| - 2], a)
  {
    a := LastStep(c, base, tr);
    RunKeepsInv(c, base, tr[..|tr| - 1]);
  }

  lemma ListFits(c: Config, base: seq<Block>, tr: seq<State>)
    requires Run(c, base, tr)
    ensures |tr[|tr| - 1].lh| <= LOGSIZE
  {
    RunKeepsInv(c, base, tr);
  }

  /** In every run whose operations stay within MAXOPBLOCKS blocks, the blocks listed and the
      blocks still reserved fit LOGSIZE together. */
  lemma {:induction false} ReservationHolds(c: Config, base: seq<Block>, tr: seq<State>)
    requires BudgetRun(c, base, tr)
    ensures Reserved(tr[|tr| - 1]) && |tr[|tr| - 1].lh| <= LOGSIZE
    decreases |tr|
  {
    ListFits(c, base, tr);
    if |tr| == 1 {
      assert StepAt(c, base, tr, 0);
    } else {
      var a := LastBudgetStep(c, base, tr);
      ReservationHolds(c, base, tr[..|tr| - 1]);
      StepKeepsReserved(c, base, tr[|tr| - 2], a);
    }
  }

  /** An operation that logs one more block within its budget. */
  ghost predicate WithinBudget(c: Config, s: State, who: nat, b: nat) {
    who < |s.active| && c.Home(b) && b !in s.lh && |s.active[who].blocks + {b}| <= MAXOPBLOCKS
  }

  /** With a log region of more than LOGSIZE blocks, logging a new block within the budget
      never meets the "too big a transaction" panic. */
  lemma BigLogSuffices(c: Config, base: seq<Block>, tr: seq<State>, who: nat, b: nat)
    requires BudgetRun(c, base, tr) && c.size > LOGSIZE
    requires WithinBudget(c, tr[|tr| - 1], who, b)
    ensures HasSpace(c, tr[|tr| - 1].lh)
  {
    var s := tr[|tr| - 1];
    ReservationHolds(c, base, tr);
    RunKeepsInv(c, base, tr);
    assert InBudget(s);
    RoomSplit(s.active, who);
    RoomAtLeast(s.active[..who]);
    RoomAtLeast(s.active[who + 1..]);
    assert b !in s.active[who].blocks;
    assert |s.active[who].blocks + {b}| == |s.active[who].blocks| + 1;
  }

  // ----- when the reservation is not enough -----

  /** The i-th block outside the log region. */
  function HomeBlock(c: Config, i: nat): (b: nat) {
    if i < c.start then i else i + c.size
  }

  function Cap(x: int): (r: nat) {
    if x <= 0 then 0 else if x >= MAXOPBLOCKS then MAXOPBLOCKS else x
  }

  lemma ExtendRun(c: Config, base: seq<Block>, tr: seq<State>, a: Action) returns (more: seq<State>)
    requires BudgetRun(c, base, tr) && Enabled(c, tr[|tr| - 1], a) && InBudget(Next(c, tr[|tr| - 1], a))
    ensures more == tr + [Next(c, tr[|tr| - 1], a)] && BudgetRun(c, base, more)
  {
    more := tr + [Next(c, tr[|tr| - 1], a)];
    assert Step(c, tr[|tr| - 1], Next(c, tr[|tr| - 1], a));
    RunExtend(c, base, tr, Next(c, tr[|tr| - 1], a));
  }

  /** A booted machine with three operations open. */
  lemma ThreeOps(c: Config, base: seq<Block>) returns (tr: seq<State>)
    requires c.Valid() && |base| == c.total && HeaderFits(base[c.start]) && Header(base[c.start]) == []
    ensures BudgetRun(c, base, tr) && var s := tr[|tr| - 1];
      && s.pc.Running? && s.lh == [] && s.outstanding == 3 && |s.active| == 3
      && forall k :: 0 <= k < 3 ==> s.active[k].blocks == {}
  {
    tr := [State(base, base, [], 0, false, Boot, {}, [], [], [], [], map[])];
    assert StepAt(c, base, tr, 0);
    tr := ExtendRun(c, base, tr, Advance);
    tr := ExtendRun(c, base, tr, Advance);
    tr := ExtendRun(c, base, tr, BeginOp(0));
    tr := ExtendRun(c, base, tr, BeginOp(1));
    tr := ExtendRun(c, base, tr, BeginOp(2));
  }

  /** Three operations that have logged n different blocks, ten each at most. */
  ghost predicate Filled(c: Config, s: State, n: nat) {
    && s.pc.Running? && s.outstanding == |s.active| == 3 && |s.lh| == n
    && (forall i :: 0 <= i < n ==> s.lh[i] == HomeBlock(c, i))
    && (forall k :: 0 <= k < 3 ==> |s.active[k].blocks| == Cap(n - MAXOPBLOCKS * k))
    && (forall k, b :: 0 <= k < 3 && b in s.active[k].blocks ==> b in s.lh)
  }

  lemma NextBlockNew(c: Config, s: State, n: nat)
    requires Filled(c, s, n)
    ensures HomeBlock(c, n) !in s.lh
  {
    forall i | 0 <= i < n ensures s.lh[i] != HomeBlock(c, n) {
    }
  }

  lemma FillStep(c: Config, s: State, n: nat, who: nat)
    requires Filled(c, s, n) && n < LOGSIZE && n < c.size - 1 && n + c.size < c.total && who == n / MAXOPBLOCKS
    ensures var a := LogWrite(who, HomeBlock(c, n), ZERO_BLOCK);
      Enabled(c, s, a) && Filled(c, Next(c, s, a), n + 1) && InBudget(Next(c, s, a))
  {
    var b := HomeBlock(c, n);
    NextBlockNew(c, s, n);
    var op := s.active[who];
    assert b !in op.blocks;
    assert |op.blocks + {b}| == |op.blocks| + 1;
    var s' := Next(c, s, LogWrite(who, b, ZERO_BLOCK));
    assert s'.lh == s.lh + [b];
    assert forall k :: 0 <= k < 3 && k != who ==> s'.active[k] == s.active[k];
  }

  lemma {:induction false} Fill(c: Config, base: seq<Block>, n: nat) returns (tr: seq<State>)
    requires c.Valid() && |base| == c.total && HeaderFits(base[c.start]) && Header(base[c.start]) == []
    requires n <= LOGSIZE && n <= c.size - 1 && n + c.size <= c.total
    ensures BudgetRun(c, base, tr) && Filled(c, tr[|tr| - 1], n)
  {
    if n == 0 {
      tr := ThreeOps(c, base);
    } else {
      tr := Fill(c, base, n - 1);
      var who := (n - 1) / MAXOPBLOCKS;
      FillStep(c, tr[|tr| - 1], n - 1, who);
      tr := ExtendRun(c, base, tr, LogWrite(who, HomeBlock(c, n - 1), ZERO_BLOCK));
    }
  }

  /** With a log region of LOGSIZE blocks or fewer, as mkfs makes it, some run within all
      budgets meets the panic on a new block: the condition of BigLogSuffices is exact. */
  lemma SmallLogPanics(c: Config, base: seq<Block>) returns (tr: seq<State>, who: nat, b: nat)
    requires c.Valid() && |base| == c.total && HeaderFits(base[c.start]) && Header(base[c.start]) == []
    requires c.size <= LOGSIZE && 2 * c.size <= c.total
    ensures BudgetRun(c, base, tr) && WithinBudget(c, tr[|tr| - 1], who, b) && !HasSpace(c, tr[|tr| - 1].lh)
  {
    var n := c.size - 1;
    tr := Fill(c, base, n);
    who, b := n / MAXOPBLOCKS, HomeBlock(c, n);
    var s := tr[|tr| - 1];
    NextBlockNew(c, s, n);
    assert |s.active[who].blocks + {b}| == |s.active[who].blocks| + 1;
  }

  /** How many blocks the log can list. */
  function Capacity(c: Config): nat
    requires c.size >= 1
  {
    if c.size - 1 < LOGSIZE then c.size - 1 else LOGSIZE
  }

  /** A full log panics even on a block it already lists, whatever the size of its region: that the
      operation has logged the block before does not help. */
  lemma FullLogPanicsOnAbsorption(c: Config, base: seq<Block>) returns (tr: seq<State>, b: nat)
    requires c.Valid() && |base| == c.total && HeaderFits(base[c.start]) && Header(base[c.start]) == []
    requires c.size >= 2 && Capacity(c) + c.size <= c.total
    ensures BudgetRun(c, base, tr) && var s := tr[|tr| - 1];
      |s.active| == 3 && !HasSpace(c, s.lh) && b in s.active[0].blocks && b in s.lh
  {
    tr := Fill(c, base, Capacity(c));
    var s := tr[|tr| - 1];
    assert s.active[0].blocks != {} by { assert |s.active[0].blocks| > 0; }
    b :| b in s.active[0].blocks;
  }
}
