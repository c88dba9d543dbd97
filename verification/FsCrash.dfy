/** The file system on the log: operations of fs.c between begin_op and end_op, and what a crash at
    any moment leaves of them. */
module FsCrash {
  import opened Common
  import opened Blocks
  import opened LogModel
  import opened LogProof
  import opened LogTheorems
  import opened LogCode
  import opened FsModel
  import opened FsLemmas
  import opened FsImage
  import opened FsCode
  import opened DirModel
  import opened DirCode

  /** Log and file system share a disk; the log lies before the inodes. */
  ghost predicate OneDisk(c: Config, sup: Super) {
    c.Valid() && Laid(sup) && c.total == sup.size && c.start + c.size <= sup.inodestart
  }

  /** What has been committed is a file system in order. */
  ghost predicate CommittedAt(sup: Super, base: seq<Block>, s: State) {
    Sound(sup, Apply(base, s.durable))
  }

  ghost predicate CommitsSound(sup: Super, base: seq<Block>, tr: seq<State>) {
    forall k {:trigger CommittedAt(sup, base, tr[k])} :: 0 <= k < |tr| ==> CommittedAt(sup, base, tr[k])
  }

  lemma HomeSound(c: Config, sup: Super, d: seq<Block>, e: seq<Block>)
    requires OneDisk(c, sup) && SameHome(c, d, e)
    ensures Bits(sup, d) == Bits(sup, e) && Inodes(sup, d) == Inodes(sup, e)
    ensures Sound(sup, d) <==> Sound(sup, e)
  {
    assert forall b :: sup.inodestart <= b < sup.size ==> c.Home(b);
    SameShown(sup, d, e);
    SameShown(sup, e, d);
  }

  lemma HomeShows(c: Config, sup: Super, d: seq<Block>, e: seq<Block>, s: Snapshot)
    requires OneDisk(c, sup) && SameHome(c, d, e) && Shows(sup, d, s)
    ensures Shows(sup, e, s)
  {
    HomeSound(c, sup, d, e);
    assert forall b :: sup.meta <= b < sup.size ==> c.Home(b);
  }

  /** Recovery from this disk leaves one whose bytes decode to a file system in order. */
  ghost predicate SafeAt(c: Config, sup: Super, s: State) {
    CanRecover(c, s.disk) && Sound(sup, RecoverDisk(c, s.disk))
  }

  /** That is so whatever moment of the run the machine stops at. */
  ghost predicate CrashSafe(c: Config, sup: Super, tr: seq<State>) {
    forall k {:trigger SafeAt(c, sup, tr[k])} :: 0 <= k < |tr| ==> SafeAt(c, sup, tr[k])
  }

  lemma SafeIff(c: Config, sup: Super, base: seq<Block>, tr: seq<State>, k: nat)
    requires OneDisk(c, sup) && Run(c, base, tr) && k < |tr|
    ensures SafeAt(c, sup, tr[k]) <==> CommittedAt(sup, base, tr[k])
  {
    RunPrefix(c, base, tr, k + 1);
    CrashAtomicity(c, base, tr[..k + 1]);
    HomeSound(c, sup, Apply(base, tr[k].durable), RecoverDisk(c, tr[k].disk));
  }

  /** Crash consistency: a run is safe at every moment if and only if all that it commits is in order. */
  lemma CrashConsistent(c: Config, sup: Super, base: seq<Block>, tr: seq<State>)
    requires OneDisk(c, sup) && Run(c, base, tr)
    ensures CrashSafe(c, sup, tr) <==> CommitsSound(sup, base, tr)
  {
    forall k | 0 <= k < |tr| ensures SafeAt(c, sup, tr[k]) <==> CommittedAt(sup, base, tr[k]) {
      SafeIff(c, sup, base, tr, k);
    }
  }

  // ---------------------------------------------------------------- what is committed while nothing is logged

  lemma {:induction false} IssuedGrows(c: Config, base: seq<Block>, tr: seq<State>, i: nat)
    requires Run(c, base, tr) && i < |tr|
    ensures tr[i].issued <= tr[|tr| - 1].issued
    decreases |tr|
  {
    if i < |tr| - 1 {
      var a := LastStep(c, base, tr);
      IssuedGrows(c, base, tr[..|tr| - 1], i);
    }
  }

  /** Between s and t nothing was logged: what s had pending has been committed as a whole, or not. */
  ghost predicate Held(s: State, t: State) {
    || (t.durable == s.durable && (t.pending == s.pending || t.pending == []))
    || (t.durable == s.durable + s.pending && t.pending == [])
  }

  lemma StepHeld(c: Config, s: State, t: State, a: Action)
    requires Held(s, t) && Enabled(c, t, a) && Next(c, t, a).issued == t.issued
    ensures Held(s, Next(c, t, a))
  {
    assert t.durable + [] == t.durable;
  }

  lemma {:induction false} RunHeld(c: Config, base: seq<Block>, tr: seq<State>, i: nat, k: nat)
    requires Run(c, base, tr) && i <= k < |tr| && tr[k].issued == tr[i].issued
    ensures Held(tr[i], tr[k])
    decreases k
  {
    if i < k {
      RunPrefix(c, base, tr, k + 1);
      var a := LastStep(c, base, tr[..k + 1]);
      RunPrefix(c, base, tr, k);
      IssuedGrows(c, base, tr[..k], i);
      IssuedGrows(c, base, tr[..k + 1], k - 1);
      RunHeld(c, base, tr, i, k - 1);
      StepHeld(c, tr[i], tr[k - 1], a);
    }
  }

  /** A stretch of a run that logs nothing commits what was pending at its start, or nothing. */
  lemma CommitsStaySound(c: Config, sup: Super, base: seq<Block>, tr: seq<State>, i: nat)
    requires Run(c, base, tr) && i < |tr| && tr[i].issued == tr[|tr| - 1].issued
    requires CommitsSound(sup, base, tr[..i + 1]) && Sound(sup, Apply(base, tr[i].durable + tr[i].pending))
    ensures CommitsSound(sup, base, tr)
  {
    assert CommittedAt(sup, base, tr[..i + 1][i]);
    forall k | 0 <= k < |tr| ensures CommittedAt(sup, base, tr[k]) {
      if k <= i {
        assert CommittedAt(sup, base, tr[..i + 1][k]);
      } else {
        RunPrefix(c, base, tr, k + 1);
        IssuedGrows(c, base, tr[..k + 1], i);
        IssuedGrows(c, base, tr, k);
        RunHeld(c, base, tr, i, k);
      }
    }
  }

  /** A stretch of a run that commits nothing. */
  lemma SafeUnchanged(c: Config, sup: Super, base: seq<Block>, tr: seq<State>, i: nat)
    requires OneDisk(c, sup) && Run(c, base, tr) && i < |tr| && tr[i].durable == tr[|tr| - 1].durable
    requires CrashSafe(c, sup, tr[..i + 1])
    ensures CrashSafe(c, sup, tr)
  {
    RunPrefix(c, base, tr, i + 1);
    CrashConsistent(c, sup, base, tr[..i + 1]);
    assert CommittedAt(sup, base, tr[..i + 1][i]);
    forall k | 0 <= k < |tr| ensures CommittedAt(sup, base, tr[k]) {
      if k <= i {
        assert CommittedAt(sup, base, tr[..i + 1][k]);
      } else {
        RunPrefix(c, base, tr, k + 1);
        DurableGrows(c, base, tr[..k + 1], i);
        DurableGrows(c, base, tr, k);
        assert tr[k].durable == tr[i].durable;
      }
    }
    CrashConsistent(c, sup, base, tr);
  }

  lemma SafeNext(c: Config, sup: Super, base: seq<Block>, tr: seq<State>, next: seq<State>)
    requires OneDisk(c, sup) && Run(c, base, next) && tr != [] && |next| == |tr| + 1 && next[..|tr|] == tr
    requires CrashSafe(c, sup, tr) && next[|tr|].durable == tr[|tr| - 1].durable
    ensures CrashSafe(c, sup, next)
  {
    assert next[|tr| - 1] == tr[|tr| - 1];
    SafeUnchanged(c, sup, base, next, |tr| - 1);
  }

  /** What a commit of everything that the cache shows leaves. */
  lemma GroupCommitted(c: Config, sup: Super, base: seq<Block>, tr: seq<State>, i: nat, t: Snapshot,
                       owner: map<nat, Slot>)
    requires OneDisk(c, sup) && Run(c, base, tr) && i < |tr| && CrashSafe(c, sup, tr[..i + 1])
    requires tr[i].pc.Running? && Shows(sup, tr[i].cache, t)
    requires Owned(sup, t.bitmap, t.blocks, t.dinodes, owner) && AllMapped(t.blocks, t.dinodes)
    requires tr[|tr| - 1].issued == tr[i].issued && tr[|tr| - 1].durable == tr[i].durable + tr[i].pending
    requires tr[|tr| - 1].pc.Running? && tr[|tr| - 1].lh == []
    ensures CrashSafe(c, sup, tr)
    ensures var e := tr[|tr| - 1];
      Shows(sup, e.cache, t) && Shows(sup, e.disk, t) && Shows(sup, Apply(base, e.durable), t)
  {
    var s, e := tr[i], tr[|tr| - 1];
    PendingShown(c, sup, base, tr, i, t);
    ShownSound(sup, Apply(base, e.durable), t, owner);
    RunPrefix(c, base, tr, i + 1);
    CrashConsistent(c, sup, base, tr[..i + 1]);
    CommitsStaySound(c, sup, base, tr, i);
    CrashConsistent(c, sup, base, tr);
    RunKeepsInv(c, base, tr);
    HomeShows(c, sup, Apply(base, e.durable), e.cache, t);
    HomeShows(c, sup, Apply(base, e.durable), e.disk, t);
  }

  /** What the cache shows is what a commit of everything pending would make durable. */
  lemma PendingShown(c: Config, sup: Super, base: seq<Block>, tr: seq<State>, i: nat, t: Snapshot)
    requires OneDisk(c, sup) && Run(c, base, tr) && i < |tr| && tr[i].pc.Running? && Shows(sup, tr[i].cache, t)
    ensures Shows(sup, Apply(base, tr[i].durable + tr[i].pending), t)
  {
    var s := tr[i];
    RunPrefix(c, base, tr, i + 1);
    RunKeepsInv(c, base, tr[..i + 1]);
    ApplyConcat(base, s.durable, s.pending);
    HomeShows(c, sup, s.cache, Apply(base, s.durable + s.pending), t);
  }

  /** The file system that a disk shows. */
  function AsShown(sup: Super, disk: seq<Block>): (s: Snapshot)
    requires Laid(sup) && |disk| == sup.size
  {
    Snapshot(Bits(sup, disk), disk, Inodes(sup, disk))
  }

  /** What the disk and the cache hold after recovery, and that it is in order. */
  lemma Recovered(c: Config, sup: Super, base: seq<Block>, tr: seq<State>) returns (owner: map<nat, Slot>)
    requires OneDisk(c, sup) && Run(c, base, tr) && CrashSafe(c, sup, tr)
    requires tr[|tr| - 1].pc.Running? && tr[|tr| - 1].lh == []
    ensures var e := tr[|tr| - 1]; |e.cache| == sup.size && SoundBy(sup, e.cache, owner)
    ensures var e := tr[|tr| - 1]; Shows(sup, e.cache, AsShown(sup, e.cache))
    ensures var e := tr[|tr| - 1]; Shows(sup, e.disk, AsShown(sup, e.cache))
  {
    var e := tr[|tr| - 1];
    CrashConsistent(c, sup, base, tr);
    assert CommittedAt(sup, base, e);
    RunKeepsInv(c, base, tr);
    HomeSound(c, sup, Apply(base, e.durable), e.cache);
    owner :| SoundBy(sup, e.cache, owner);
    HomeShows(c, sup, e.cache, e.disk, AsShown(sup, e.cache));
  }

  // ---------------------------------------------------------------- writing what was logged

  /** The blocks `done` are up to date, all others are as they were. */
  ghost predicate Replay(sup: Super, disk: seq<Block>, t: Snapshot, done: set<nat>, now: seq<Block>) {
    && |disk| == |now| == |t.blocks| == sup.size && AllStorable(t.dinodes)
    && forall b :: sup.inodestart <= b < sup.size ==>
         now[b] == if b in done then Updated(sup, disk[b], t, b) else disk[b]
  }

  lemma ReplayMore(sup: Super, disk: seq<Block>, t: Snapshot, done: set<nat>, now: seq<Block>, b: nat)
    requires Replay(sup, disk, t, done, now) && sup.inodestart <= b < sup.size
    ensures Replay(sup, disk, t, done + {b}, now[b := Updated(sup, disk[b], t, b)])
  {
  }

  /** What the file system code logs, the log takes. */
  lemma LoggableHome(c: Config, sup: Super, s: Snapshot, t: Snapshot, logged: set<nat>, b: nat)
    requires OneDisk(c, sup) && AllLogged(sup, s, t, logged) && |s.dinodes| == sup.ninodes && b in logged
    ensures c.Home(b) && sup.inodestart <= b < sup.size
  {
    assert Loggable(sup, |s.dinodes|, b);
  }

  /** The log takes these calls of log_write, one after the other: there is room before the last. */
  ghost predicate Takes(c: Config, lh: seq<nat>, calls: seq<nat>)
    requires c.size >= 1
  {
    calls == [] || |Members(lh) + Early(calls)| < Capacity(c)
  }

  lemma CallsMore(calls: seq<nat>, i: nat)
    requires i < |calls|
    ensures Members(calls[..i + 1]) == Members(calls[..i]) + {calls[i]} && Members(calls[..i]) <= Early(calls)
  {
  }

  /** Few blocks fit in any case. */
  lemma FewFit(c: Config, lh: seq<nat>, calls: seq<nat>, n: nat)
    requires c.size >= 1 && Distinct(lh) && |Early(calls)| < n
    ensures |lh| + n <= Capacity(c) ==> Takes(c, lh, calls)
  {
    ListSize(lh);
    UnionSize(Members(lh), Early(calls));
  }

  /** What logging these blocks in operation `who` makes of the log. */
  ghost predicate LoggedBy(s: State, t: State, who: nat, done: set<nat>) {
    && who < |s.active| && t.pc.Running? && t.outstanding == s.outstanding && t.durable == s.durable
    && t.active == s.active[who := s.active[who].(blocks := s.active[who].blocks + done)]
    && t.fate == s.fate && t.asleep == s.asleep && Members(t.lh) == Members(s.lh) + done
    && (Reserved(s) ==> Reserved(t))
  }

  lemma NothingLogged(s: State, who: nat)
    requires s.pc.Running? && who < |s.active|
    ensures LoggedBy(s, s, who, {})
  {
    assert s.active[who].(blocks := s.active[who].blocks + {}) == s.active[who];
  }

  lemma LoggedMore(c: Config, s: State, t: State, who: nat, done: set<nat>, b: nat, data: Block)
    requires LoggedBy(s, t, who, done) && Enabled(c, t, LogWrite(who, b, data))
    ensures LoggedBy(s, Next(c, t, LogWrite(who, b, data)), who, done + {b})
  {
    if Reserved(t) {
      LogWriteKeepsReserved(c, t, LogWrite(who, b, data));
    }
    assert s.active[who].blocks + done + {b} == s.active[who].blocks + (done + {b});
    assert Members(Absorb(t.lh, b)) == Members(t.lh) + {b};
  }

  /** The first i of these calls of log_write, in operation `who`, have taken the log from s to now. */
  ghost predicate CallsMade(c: Config, sup: Super, calls: seq<nat>, i: nat, s: State, now: State, t: Snapshot,
                            before: seq<Block>, who: nat) {
    && i <= |calls| && c.size >= 1 && Replay(sup, before, t, Members(calls[..i]), now.cache)
    && LoggedBy(s, now, who, Members(calls[..i]))
    && (i > 0 ==> |Members(s.lh) + Members(calls[..i - 1])| < Capacity(c))
  }

  lemma NoCallYet(c: Config, sup: Super, calls: seq<nat>, s: State, t: Snapshot, who: nat)
    requires s.pc.Running? && who < |s.active| && c.size >= 1
    requires |s.cache| == |t.blocks| == sup.size && AllStorable(t.dinodes)
    ensures CallsMade(c, sup, calls, 0, s, s, t, s.cache, who)
  {
    NothingLogged(s, who);
    assert Members(calls[..0]) == {};
  }

  /** One more call. */
  lemma NextCall(c: Config, sup: Super, calls: seq<nat>, i: nat, s: State, now: State, t: Snapshot,
                 before: seq<Block>, who: nat, data: Block)
    requires CallsMade(c, sup, calls, i, s, now, t, before, who) && i < |calls| && Distinct(now.lh)
    requires sup.inodestart <= calls[i] < sup.size && data == Updated(sup, before[calls[i]], t, calls[i])
    requires Enabled(c, now, LogWrite(who, calls[i], data))
    ensures CallsMade(c, sup, calls, i + 1, s, Next(c, now, LogWrite(who, calls[i], data)), t, before, who)
  {
    var next := Next(c, now, LogWrite(who, calls[i], data));
    ReplayMore(sup, before, t, Members(calls[..i]), now.cache, calls[i]);
    LoggedMore(c, s, now, who, Members(calls[..i]), calls[i], data);
    ListSize(now.lh);
    OneMoreMade(c, sup, calls, i, s, next, t, before, who);
  }

  lemma OneMoreMade(c: Config, sup: Super, calls: seq<nat>, i: nat, s: State, now: State, t: Snapshot,
                    before: seq<Block>, who: nat)
    requires i < |calls| && c.size >= 1 && |Members(s.lh) + Members(calls[..i])| < Capacity(c)
    requires Replay(sup, before, t, Members(calls[..i]) + {calls[i]}, now.cache)
    requires LoggedBy(s, now, who, Members(calls[..i]) + {calls[i]})
    ensures CallsMade(c, sup, calls, i + 1, s, now, t, before, who)
  {
    CallsMore(calls, i);
  }

  /** A call that finds the log full. */
  lemma NoMoreCalls(c: Config, sup: Super, calls: seq<nat>, i: nat, s: State, now: State, t: Snapshot,
                    before: seq<Block>, who: nat)
    requires CallsMade(c, sup, calls, i, s, now, t, before, who) && i < |calls| && Distinct(now.lh)
    requires !HasSpace(c, now.lh)
    ensures !Takes(c, s.lh, calls)
  {
    ListSize(now.lh);
    CallsMore(calls, i);
    SubsetSize(Members(s.lh) + Members(calls[..i]), Members(s.lh) + Early(calls));
  }

  lemma AllCallsMade(c: Config, sup: Super, calls: seq<nat>, logged: set<nat>, s: State, now: State, begun: Snapshot,
                     t: Snapshot, before: seq<Block>, who: nat)
    requires CallsMade(c, sup, calls, |calls|, s, now, t, before, who)
    requires Shows(sup, before, begun) && AllLogged(sup, begun, t, logged) && Recorded(calls, logged)
    ensures Shows(sup, now.cache, t) && LoggedBy(s, now, who, logged) && Takes(c, s.lh, calls)
  {
    assert calls[..|calls|] == calls && Members(calls) == logged;
    Replayed(sup, before, begun, t, logged, now.cache);
  }

  /** A log without an open operation is empty. */
  lemma QuietLog(c: Config, base: seq<Block>, tr: seq<State>)
    requires Run(c, base, tr)
    ensures var s := tr[|tr| - 1]; s.pc.Running? && s.active == [] ==> s.lh == []
  {
    CommitsAlone(c, base, tr);
    RunKeepsWaiters(c, base, tr);
  }

  /** begin_op keeps all within the reservation. */
  lemma BeginKeepsBudget(c: Config, base: seq<Block>, tr: seq<State>, a: Action)
    requires Run(c, base, tr) && Enabled(c, tr[|tr| - 1], a) && (a.BeginOp? || a.Sleep?)
    requires Reserved(tr[|tr| - 1]) && InBudget(tr[|tr| - 1])
    ensures Reserved(Next(c, tr[|tr| - 1], a)) && InBudget(Next(c, tr[|tr| - 1], a))
  {
    RunKeepsInv(c, base, tr);
    StepKeepsReserved(c, base, tr[|tr| - 1], a);
  }

  /** An operation that stays within MAXOPBLOCKS keeps all within the reservation. */
  lemma BudgetKept(s: State, t: State, who: nat, done: set<nat>)
    requires LoggedBy(s, t, who, done) && Reserved(s) && InBudget(s)
    requires |s.active[who].blocks| + |done| <= MAXOPBLOCKS
    ensures Reserved(t) && InBudget(t)
  {
    UnionSize(s.active[who].blocks, done);
  }

  /** An operation that has logged nothing yet finds room for MAXOPBLOCKS blocks, if the log has a slot
      for each block that it may list. */
  lemma FreshRoom(c: Config, s: State, who: nat)
    requires Reserved(s) && InBudget(s) && s.pc.Running? && who < |s.active| && s.active[who].blocks == {}
    requires c.size > LOGSIZE
    ensures |s.lh| + MAXOPBLOCKS <= Capacity(c)
  {
    RoomSplit(s.active, who);
    RoomAtLeast(s.active[..who]);
    RoomAtLeast(s.active[who + 1..]);
  }

  // ---------------------------------------------------------------- files, read off the disk

  /** The contents of file i, by the bytes of the disk alone. */
  function FileOn(sup: Super, disk: seq<Block>, i: nat): seq<byte>
    requires Laid(sup) && |disk| == sup.size && i < sup.ninodes
  {
    var ino := Inodes(sup, disk)[i];
    if ino.size <= MAXBYTES then Contents(disk, ino) else []
  }

  lemma FileShown(sup: Super, disk: seq<Block>, s: Snapshot, owner: map<nat, Slot>, i: nat)
    requires Shows(sup, disk, s) && Owned(sup, s.bitmap, s.blocks, s.dinodes, owner) && i < sup.ninodes
    requires s.dinodes[i].size <= MAXBYTES
    ensures FileOn(sup, disk, i) == Contents(s.blocks, s.dinodes[i])
  {
    SlotsShown(sup, s.bitmap, s.blocks, s.dinodes, owner, disk);
    var ino := s.dinodes[i];
    forall p | 0 <= p < ino.size ensures Contents(disk, ino)[p] == Contents(s.blocks, ino)[p] {
      BytesAt(disk, ino, ino.size, p);
      BytesAt(s.blocks, ino, ino.size, p);
      SlotInRange(sup, s.bitmap, s.blocks, s.dinodes, owner, i, SlotOf(BlockOf(p)));
    }
  }

  /** The files but i read the same on both disks. */
  ghost predicate OtherFiles(sup: Super, disk: seq<Block>, disk': seq<Block>, i: nat) {
    && Laid(sup) && |disk| == |disk'| == sup.size
    && forall j :: 0 <= j < sup.ninodes && j != i ==> FileOn(sup, disk', j) == FileOn(sup, disk, j)
  }

  lemma SomeKept(blocks: seq<Block>, inos: seq<Inode>, inos': seq<Inode>, i: nat)
    requires AllMapped(blocks, inos) && |inos'| == |inos|
    requires forall j :: 0 <= j < |inos| && j != i ==> inos'[j] == inos[j]
    ensures OthersKept(blocks, inos, blocks, inos', i)
  {
    forall j | 0 <= j < |inos| ensures inos[j].size <= MAXBYTES {
      assert NoHoles(blocks, inos[j]);
    }
  }

  lemma OthersShown(sup: Super, disk: seq<Block>, s: Snapshot, owner: map<nat, Slot>, disk': seq<Block>, t: Snapshot,
                    owner': map<nat, Slot>, i: nat)
    requires Shows(sup, disk, s) && Owned(sup, s.bitmap, s.blocks, s.dinodes, owner)
    requires Shows(sup, disk', t) && Owned(sup, t.bitmap, t.blocks, t.dinodes, owner')
    requires OthersKept(s.blocks, s.dinodes, t.blocks, t.dinodes, i)
    ensures OtherFiles(sup, disk, disk', i)
  {
    forall j | 0 <= j < sup.ninodes && j != i ensures FileOn(sup, disk', j) == FileOn(sup, disk, j) {
      FileShown(sup, disk, s, owner, j);
      FileShown(sup, disk', t, owner', j);
    }
  }

  /** All files read the same on both disks. */
  ghost predicate SameFiles(sup: Super, disk: seq<Block>, disk': seq<Block>) {
    && Laid(sup) && |disk| == |disk'| == sup.size
    && forall j :: 0 <= j < sup.ninodes ==> FileOn(sup, disk', j) == FileOn(sup, disk, j)
  }

  lemma FilesSame(sup: Super, disk: seq<Block>)
    requires Laid(sup) && |disk| == sup.size
    ensures SameFiles(sup, disk, disk)
  {
  }

  lemma FilesShown(sup: Super, disk: seq<Block>, disk': seq<Block>, s: Snapshot, owner: map<nat, Slot>)
    requires Shows(sup, disk, s) && Shows(sup, disk', s)
    requires Owned(sup, s.bitmap, s.blocks, s.dinodes, owner) && AllMapped(s.blocks, s.dinodes)
    ensures SameFiles(sup, disk, disk')
  {
    forall j | 0 <= j < sup.ninodes ensures FileOn(sup, disk', j) == FileOn(sup, disk, j) {
      assert NoHoles(s.blocks, s.dinodes[j]);
      FileShown(sup, disk, s, owner, j);
      FileShown(sup, disk', s, owner, j);
    }
  }

  /** Files on the disk before and after an operation on file i. */
  lemma DiskFollows(sup: Super, disk: seq<Block>, s: Snapshot, owner: map<nat, Slot>, disk': seq<Block>, t: Snapshot,
                    owner': map<nat, Slot>, i: nat)
    requires Shows(sup, disk, s) && Owned(sup, s.bitmap, s.blocks, s.dinodes, owner) && AllMapped(s.blocks, s.dinodes)
    requires Shows(sup, disk', t) && Owned(sup, t.bitmap, t.blocks, t.dinodes, owner') && AllMapped(t.blocks, t.dinodes)
    requires i < sup.ninodes
    ensures s.dinodes[i].size <= MAXBYTES && FileOn(sup, disk, i) == Contents(s.blocks, s.dinodes[i])
    ensures t.dinodes[i].size <= MAXBYTES && FileOn(sup, disk', i) == Contents(t.blocks, t.dinodes[i])
    ensures OthersKept(s.blocks, s.dinodes, t.blocks, t.dinodes, i) ==> OtherFiles(sup, disk, disk', i)
    ensures s == t ==> SameFiles(sup, disk, disk')
  {
    assert NoHoles(s.blocks, s.dinodes[i]) && NoHoles(t.blocks, t.dinodes[i]);
    FileShown(sup, disk, s, owner, i);
    FileShown(sup, disk', t, owner', i);
    if OthersKept(s.blocks, s.dinodes, t.blocks, t.dinodes, i) {
      OthersShown(sup, disk, s, owner, disk', t, owner', i);
    }
    if s == t {
      FilesShown(sup, disk, disk', s, owner);
    }
  }

  /** The log region holds no part of a file. */
  lemma HomeFiles(c: Config, sup: Super, disk: seq<Block>, disk': seq<Block>)
    requires OneDisk(c, sup) && SameHome(c, disk, disk') && Sound(sup, disk)
    ensures SameFiles(sup, disk, disk')
  {
    var owner :| SoundBy(sup, disk, owner);
    HomeShows(c, sup, disk, disk', AsShown(sup, disk));
    FilesShown(sup, disk, disk', AsShown(sup, disk), owner);
  }

  /** After a crash at this moment all files are those of `was`, or all are those of `now`. */
  ghost predicate AllOrNone(c: Config, sup: Super, s: State, was: seq<Block>, now: seq<Block>) {
    && CanRecover(c, s.disk)
    && (SameFiles(sup, was, RecoverDisk(c, s.disk)) || SameFiles(sup, now, RecoverDisk(c, s.disk)))
  }

  /** While a group commits, a crash brings back the files as they were before the group, or as all of
      its operations together left them. */
  lemma GroupAtomic(c: Config, sup: Super, base: seq<Block>, tr: seq<State>, i: nat, k: nat, t: Snapshot,
                    owner: map<nat, Slot>)
    requires OneDisk(c, sup) && Run(c, base, tr) && i <= k < |tr| && tr[k].issued == tr[i].issued
    requires CommittedAt(sup, base, tr[i]) && tr[i].pc.Running? && Shows(sup, tr[i].cache, t)
    requires Owned(sup, t.bitmap, t.blocks, t.dinodes, owner) && AllMapped(t.blocks, t.dinodes)
    ensures AllOrNone(c, sup, tr[k], Apply(base, tr[i].durable), tr[i].cache)
  {
    RunPrefix(c, base, tr, k + 1);
    CrashAtomicity(c, base, tr[..k + 1]);
    RunHeld(c, base, tr, i, k);
    var d := RecoverDisk(c, tr[k].disk);
    if tr[k].durable == tr[i].durable {
      HomeFiles(c, sup, Apply(base, tr[i].durable), d);
    } else {
      PendingShown(c, sup, base, tr, i, t);
      HomeShows(c, sup, Apply(base, tr[k].durable), d, t);
      FilesShown(sup, tr[i].cache, d, t, owner);
    }
  }

  /** So at every moment from the n-th on. */
  ghost predicate EachMoment(c: Config, sup: Super, tr: seq<State>, n: nat, was: seq<Block>, now: seq<Block>) {
    forall k {:trigger tr[k]} :: n <= k < |tr| ==> AllOrNone(c, sup, tr[k], was, now)
  }

  lemma MomentsAtomic(c: Config, sup: Super, base: seq<Block>, tr: seq<State>, i: nat, t: Snapshot,
                      owner: map<nat, Slot>)
    requires OneDisk(c, sup) && Run(c, base, tr) && i < |tr| && tr[|tr| - 1].issued == tr[i].issued
    requires CrashSafe(c, sup, tr[..i + 1]) && tr[i].pc.Running? && Shows(sup, tr[i].cache, t)
    requires Owned(sup, t.bitmap, t.blocks, t.dinodes, owner) && AllMapped(t.blocks, t.dinodes)
    ensures EachMoment(c, sup, tr, i, Apply(base, tr[i].durable), tr[i].cache)
  {
    RunPrefix(c, base, tr, i + 1);
    assert SafeAt(c, sup, tr[..i + 1][i]);
    SafeIff(c, sup, base, tr, i);
    forall k | i <= k < |tr| ensures AllOrNone(c, sup, tr[k], Apply(base, tr[i].durable), tr[i].cache) {
      RunPrefix(c, base, tr, k + 1);
      IssuedGrows(c, base, tr[..k + 1], i);
      IssuedGrows(c, base, tr, k);
      GroupAtomic(c, sup, base, tr, i, k, t, owner);
    }
  }

  /** The files when a group has been committed, and on the way there. */
  lemma GroupFiles(c: Config, sup: Super, base: seq<Block>, tr: seq<State>, i: nat, t: Snapshot,
                   owner: map<nat, Slot>)
    requires OneDisk(c, sup) && Run(c, base, tr) && i < |tr| && CrashSafe(c, sup, tr[..i + 1])
    requires tr[i].pc.Running? && Shows(sup, tr[i].cache, t)
    requires Owned(sup, t.bitmap, t.blocks, t.dinodes, owner) && AllMapped(t.blocks, t.dinodes)
    requires tr[|tr| - 1].issued == tr[i].issued && tr[|tr| - 1].durable == tr[i].durable + tr[i].pending
    requires tr[|tr| - 1].pc.Running? && tr[|tr| - 1].lh == []
    ensures CrashSafe(c, sup, tr) && Shows(sup, tr[|tr| - 1].cache, t)
    ensures var e := tr[|tr| - 1];
      && SameFiles(sup, tr[i].cache, e.cache) && SameFiles(sup, e.cache, e.disk)
      && SameFiles(sup, e.cache, Apply(base, e.durable))
    ensures EachMoment(c, sup, tr, i, Apply(base, tr[i].durable), tr[i].cache)
  {
    GroupCommitted(c, sup, base, tr, i, t, owner);
    MomentsAtomic(c, sup, base, tr, i, t, owner);
    var e := tr[|tr| - 1];
    FilesShown(sup, tr[i].cache, e.cache, t, owner);
    FilesShown(sup, e.cache, e.disk, t, owner);
    FilesShown(sup, e.cache, Apply(base, e.durable), t, owner);
  }

  /** What a machine that has just recovered holds. */
  lemma RecoveredFiles(c: Config, sup: Super, base: seq<Block>, tr: seq<State>)
    requires OneDisk(c, sup) && Run(c, base, tr) && CrashSafe(c, sup, tr)
    requires tr[|tr| - 1].pc.Running? && tr[|tr| - 1].lh == [] && tr[|tr| - 1].active == []
    ensures var e := tr[|tr| - 1];
      && SameFiles(sup, Apply(base, e.durable), e.disk) && SameFiles(sup, Apply(base, e.durable), e.cache)
      && Reserved(e) && InBudget(e)
  {
    var e := tr[|tr| - 1];
    assert SafeAt(c, sup, tr[|tr| - 1]);
    SafeIff(c, sup, base, tr, |tr| - 1);
    RunKeepsInv(c, base, tr);
    HomeFiles(c, sup, Apply(base, e.durable), e.disk);
    HomeFiles(c, sup, Apply(base, e.durable), e.cache);
  }

  /** File i on the second disk is that on the first with src written at off; the others are the same. */
  ghost predicate Wrote(sup: Super, disk: seq<Block>, disk': seq<Block>, i: nat, off: nat, src: seq<byte>) {
    && OtherFiles(sup, disk, disk', i) && i < sup.ninodes && off <= |FileOn(sup, disk, i)|
    && FileOn(sup, disk', i) == Overwrite(FileOn(sup, disk, i), off, src)
  }

  lemma FilesThrough(sup: Super, disk: seq<Block>, disk1: seq<Block>, disk2: seq<Block>, i: nat, off: nat,
                     src: seq<byte>)
    requires SameFiles(sup, disk1, disk2)
    ensures SameFiles(sup, disk, disk1) ==> SameFiles(sup, disk, disk2)
    ensures Wrote(sup, disk, disk1, i, off, src) ==> Wrote(sup, disk, disk2, i, off, src)
  {
  }

  // ---------------------------------------------------------------- the operations

  /** Why dirlink may panic: not a directory, a part of an entry at its end, or no place for an entry. */
  ghost predicate LinkFails(bitmap: seq<bool>, ty: nat, size: nat) {
    ty != T_DIR || size % 16 != 0 || size == MAXBYTES || Full(bitmap)
  }

  /** What emptying inode i logs is bounded by the bitmap blocks of the disk, and fits MAXOPBLOCKS exactly
      if its blocks lie in fewer bitmap blocks than that. */
  lemma ReleaseSize(sup: Super, bitmap: seq<bool>, blocks: seq<Block>, inos: seq<Inode>, owner: map<nat, Slot>, i: nat)
    requires Laid(sup) && Owned(sup, bitmap, blocks, inos, owner) && i < |inos| <= sup.ninodes
    ensures |ReleaseLogs(sup, owner, i)| == |MapsOf(sup, owner, i)| + 1 <= (sup.size - 1) / BPB + 2
    ensures |ReleaseLogs(sup, owner, i)| <= MAXOPBLOCKS <==> |MapsOf(sup, owner, i)| < MAXOPBLOCKS
  {
    var maps, last := MapsOf(sup, owner, i), sup.bmapstart + (sup.size - 1) / BPB + 1;
    forall x | x in maps ensures sup.bmapstart <= x < last {
      var b :| b in owner && owner[b].i == i && x == sup.BBlock(b);
      assert OwnerHolds(sup, blocks, inos, owner, b);
    }
    IntervalSize(sup.bmapstart, last);
    SubsetSize(maps, Interval(sup.bmapstart, last));
    assert sup.IBlock(i) < sup.bmapstart;
    DisjointSize(maps, {sup.IBlock(i)});
  }

  /** So on a disk with eleven bitmap blocks a file of ten blocks can take more than MAXOPBLOCKS. */
  lemma BigRelease() returns (sup: Super, bitmap: seq<bool>, blocks: seq<Block>, ino: Inode, owner: map<nat, Slot>)
    ensures Laid(sup) && Owned(sup, bitmap, blocks, [ino], owner) && NoHoles(blocks, ino) && ino.size == 10 * BSIZE
    ensures |ReleaseLogs(sup, owner, 0)| > MAXOPBLOCKS
  {
    sup := Super(11 * BPB, 1, 1, 2, 16);
    blocks := seq(sup.size, _ => ZERO_BLOCK);
    owner := map b: nat | b < 10 * BPB && b % BPB == 16 :: Slot(0, b / BPB);
    bitmap := seq(sup.size, b => b < 16 || b in owner);
    var addrs: seq<nat> := seq(13, k => if k < 10 then BPB * k + 16 else 0);
    assert |addrs| == NDIRECT + 1;
    ino := Inode(2, 0, 10 * BSIZE, addrs);
    forall k | 0 <= k < NSLOT ensures SlotOwns(blocks, [ino], owner, 0, k) {
    }
    forall b | b in owner ensures OwnerHolds(sup, blocks, [ino], owner, b) {
      assert b == BPB * (b / BPB) + 16;
    }
    forall x: nat | sup.bmapstart <= x < sup.bmapstart + 10 ensures x in MapsOf(sup, owner, 0) {
      var b := BPB * (x - 2) + 16;
      assert b in owner && sup.BBlock(b) == x;
    }
    ManyMaps(MapsOf(sup, owner, 0), sup.bmapstart, 10, sup.inodestart);
  }

  lemma ManyMaps(maps: set<nat>, lo: nat, n: nat, x: nat)
    requires x < lo && forall y: nat :: lo <= y < lo + n ==> y in maps
    ensures |maps + {x}| > n
  {
    IntervalSize(lo, lo + n);
    OneMore(Interval(lo, lo + n), maps + {x}, x);
  }

  lemma OneMore(some: set<nat>, all: set<nat>, x: nat)
    requires some <= all && x in all && x !in some
    ensures |some| < |all|
  {
    SubsetSize(some, all);
  }

  /** What emptying inode i logs: the bitmap blocks of its blocks, and its own block. */
  ghost function ReleaseLogs(sup: Super, owner: map<nat, Slot>, i: nat): set<nat> {
    MapsOf(sup, owner, i) + {sup.IBlock(i)}
  }

  class Volume {
    const log: Log
    const fs: FileSys

    /** Every crash, at any moment so far, recovers to a file system in order. */
    ghost predicate Safe()
      reads this, log
    {
      OneDisk(log.c, fs.sup) && log.Valid() && CrashSafe(log.c, fs.sup, log.trace)
    }

    /** The file system that the in-memory state stands for is in order. */
    ghost predicate InOrder()
      reads this, fs`bitmap, fs`blocks, fs`dinodes, fs`owner
    {
      Owned(fs.sup, fs.bitmap, fs.blocks, fs.dinodes, fs.owner) && AllMapped(fs.blocks, fs.dinodes)
    }

    /** Any number of operations may be open; the cache shows the file system. */
    ghost predicate Valid()
      reads this, log, fs
    {
      Safe() && InOrder() && log.Now().pc.Running? && Shows(fs.sup, log.cache, fs.Snap())
    }

    /** The operations that are open. */
    ghost function Ops(): seq<Op>
      reads log
      requires log.trace != []
    {
      log.Now().active
    }

    /** What has been committed, and is what a crash at this moment brings back. */
    ghost function Kept(): (d: seq<Block>)
      reads log
      requires log.trace != []
      ensures |d| == |log.base|
    {
      Apply(log.base, log.Now().durable)
    }

    /** The open operations are within MAXOPBLOCKS, and the log has room for what they may still log. */
    ghost predicate Budgeted()
      reads log
      requires log.trace != []
    {
      Reserved(log.Now()) && InBudget(log.Now())
    }

    /** A disk in order, with an empty log. */
    constructor (config: Config, super: Super, image: seq<Block>)
      requires OneDisk(config, super) && Sound(super, image)
      requires HeaderFits(image[config.start]) && Header(image[config.start]) == []
      ensures Valid() && log.c == config && fs.sup == super && Ops() == [] && Budgeted()
      ensures Kept() == image && SameFiles(super, image, log.cache)
    {
      var lg := new Log(config, image);
      ghost var tr := lg.trace;
      lg.RecoverFromLog();
      assert lg.trace[..1] == tr && lg.trace[0] == tr[0];
      CrashConsistent(config, super, image, tr);
      SafeUnchanged(config, super, image, lg.trace, 0);
      ghost var owner := Recovered(config, super, image, lg.trace);
      CommitsAlone(config, image, lg.trace);
      RecoveredFiles(config, super, image, lg.trace);
      log := lg;
      fs := new FileSys(super, Bits(super, lg.cache), lg.cache, Inodes(super, lg.cache), owner);
    }

    /** One turn of begin_op. */
    method Begin(p: nat, ghost id: OpId) returns (ok: bool)
      requires Valid() && id !in log.Now().fate && p !in log.asleep
      modifies log`outstanding, log`asleep, log`trace
      ensures Valid() && Kept() == old(Kept()) && (old(Budgeted()) ==> Budgeted())
      ensures ok <==> |log.lh| + (old(|Ops()|) + 1) * MAXOPBLOCKS <= LOGSIZE
      ensures Ops() == old(Ops()) + if ok then [Op(id, {})] else []
    {
      CommitsAlone(log.c, log.base, log.trace);
      ghost var tr := log.trace;
      ok := log.Begin(p, id);
      SafeNext(log.c, fs.sup, log.base, tr, log.trace);
      if old(Budgeted()) {
        BeginKeepsBudget(log.c, log.base, tr, if ok then BeginOp(id) else Sleep(p));
      }
    }

    /** The first i of the calls of log_write have been made. */
    ghost predicate Logging(s: State, t: Snapshot, before: seq<Block>, who: nat, i: nat)
      reads this, log, fs`calls
    {
      Safe() && CallsMade(log.c, fs.sup, fs.calls, i, s, log.Now(), t, before, who)
    }

    /** One log_write, of a block brought up to date. */
    method LogOne(t: Snapshot, before: seq<Block>, i: nat, ghost who: nat, ghost s: State) returns (ok: bool)
      requires Logging(s, t, before, who, i) && i < |fs.calls|
      requires log.c.Home(fs.calls[i]) && fs.sup.inodestart <= fs.calls[i] < fs.sup.size
      modifies log`cache, log`lh, log`trace
      ensures ok ==> Logging(s, t, before, who, i + 1)
      ensures !ok ==> Safe() && log.trace == old(log.trace) && !Takes(log.c, s.lh, fs.calls)
    {
      var b := fs.calls[i];
      ghost var tr := log.trace;
      RunKeepsInv(log.c, log.base, tr);
      var data := Updated(fs.sup, before[b], t, b);
      ok := log.Write(who, b, data);
      if ok {
        SafeNext(log.c, fs.sup, log.base, tr, log.trace);
        NextCall(log.c, fs.sup, fs.calls, i, s, tr[|tr| - 1], t, before, who, data);
      } else {
        NoMoreCalls(log.c, fs.sup, fs.calls, i, s, tr[|tr| - 1], t, before, who);
      }
    }

    /** The blocks that the operation has changed reach the cache and the log, call by call; false is the
        panic of log_write. */
    method LogAll(ghost who: nat) returns (ok: bool)
      requires Safe() && log.Now().pc.Running? && who < |Ops()| && Shows(fs.sup, log.cache, fs.begun) && fs.Tracked()
      modifies log`cache, log`lh, log`trace
      ensures Safe() && (ok <==> Takes(log.c, old(log.lh), fs.calls)) && Kept() == old(Kept())
      ensures ok ==> Shows(fs.sup, log.cache, fs.Snap()) && LoggedBy(old(log.Now()), log.Now(), who, fs.logged)
    {
      StillStorable(fs.sup, log.cache, fs.begun, fs.Snap(), fs.logged);
      ghost var s := log.Now();
      var before, t, i := log.cache, fs.Snap(), 0;
      NoCallYet(log.c, fs.sup, fs.calls, s, t, who);
      while i < |fs.calls|
        invariant 0 <= i <= |fs.calls| && Logging(s, t, before, who, i)
      {
        LoggableHome(log.c, fs.sup, fs.begun, t, fs.logged, fs.calls[i]);
        ok := LogOne(t, before, i, who, s);
        if !ok {
          return;
        }
        i := i + 1;
      }
      AllCallsMade(log.c, fs.sup, fs.calls, fs.logged, s, log.Now(), fs.begun, t, before, who);
      ok := true;
    }

    /** end_op. The last operation to end commits what all of the group have logged; a crash at any moment
        on the way brings back the files as they were before the group, or as the whole group left them. */
    method End(ghost who: nat)
      requires Valid() && who < |Ops()|
      modifies log
      ensures Valid() && Ops() == Without(old(Ops()), who) && log.asleep == {} && (old(Budgeted()) ==> Budgeted())
      ensures SameFiles(fs.sup, old(log.cache), log.cache) && old(log.trace) <= log.trace
      ensures if Ops() == [] then
          log.lh == [] && SameFiles(fs.sup, log.cache, log.disk) && SameFiles(fs.sup, log.cache, Kept())
        else log.lh == old(log.lh) && log.disk == old(log.disk) && Kept() == old(Kept())
      ensures EachMoment(log.c, fs.sup, log.trace, old(|log.trace|), old(Kept()), old(log.cache))
    {
      CommitsAlone(log.c, log.base, log.trace);
      if log.outstanding == 1 {
        EndLast(who);
      } else {
        EndOther(who);
      }
    }

    /** end_op while other operations are open. */
    method EndOther(ghost who: nat)
      requires Valid() && who < |Ops()| && |Ops()| != 1
      modifies log
      ensures Valid() && Ops() == Without(old(Ops()), who) && log.asleep == {} && (old(Budgeted()) ==> Budgeted())
      ensures log.cache == old(log.cache) && log.lh == old(log.lh) && log.disk == old(log.disk)
      ensures SameFiles(fs.sup, old(log.cache), log.cache) && old(log.trace) <= log.trace && Kept() == old(Kept())
      ensures EachMoment(log.c, fs.sup, log.trace, old(|log.trace|), old(Kept()), old(log.cache))
    {
      ghost var tr := log.trace;
      CommitsAlone(log.c, log.base, tr);
      log.EndOther(who);
      SafeNext(log.c, fs.sup, log.base, tr, log.trace);
      assert log.trace[|tr| - 1] == tr[|tr| - 1] && log.trace[..|tr|] == tr;
      MomentsAtomic(log.c, fs.sup, log.base, log.trace, |tr| - 1, fs.Snap(), fs.owner);
      FilesShown(fs.sup, log.cache, log.cache, fs.Snap(), fs.owner);
      if old(Budgeted()) {
        EndOpKeepsReserved(log.c, tr[|tr| - 1], EndOp(who));
      }
    }

    /** end_op of the last operation. */
    method EndLast(ghost who: nat)
      requires Valid() && who < |Ops()| && |Ops()| == 1
      modifies log
      ensures Valid() && Ops() == [] && log.lh == [] && log.asleep == {} && Budgeted()
      ensures SameFiles(fs.sup, old(log.cache), log.cache) && old(log.trace) <= log.trace
      ensures SameFiles(fs.sup, log.cache, log.disk) && SameFiles(fs.sup, log.cache, Kept())
      ensures EachMoment(log.c, fs.sup, log.trace, old(|log.trace|), old(Kept()), old(log.cache))
    {
      ghost var tr := log.trace;
      CommitsAlone(log.c, log.base, tr);
      log.EndLast(who);
      assert log.trace[|tr| - 1] == tr[|tr| - 1] && log.trace[..|tr|] == tr;
      GroupFiles(log.c, fs.sup, log.base, log.trace, |tr| - 1, fs.Snap(), fs.owner);
      CommitsAlone(log.c, log.base, log.trace);
    }

    /** A chunk of filewrite, without its begin_op and end_op. */
    method PutBytes(f: OpenFile, ip: InCore, src: seq<byte>) returns (r: Outcome<int>)
      requires InOrder() && fs.Tracked() && fs.Stored(ip) && ip.ty != T_DEV && f.off < UINT && |src| <= CHUNK
      modifies fs, ip, f
      ensures r.Panic? ==> Full(fs.bitmap)
      ensures r.Done? ==>
        && InOrder() && fs.Tracked() && fs.begun == old(fs.Snap()) && fs.Stored(ip)
        && |fs.logged| <= MAXOPBLOCKS && |Early(fs.calls)| < MAXOPBLOCKS
        && OthersKept(old(fs.blocks), old(fs.dinodes), fs.blocks, fs.dinodes, ip.inum)
      ensures WriteFails(old(ip.size), old(f.off), |src|) ==>
        r == Done(-1) && f.off == old(f.off) && fs.Snap() == old(fs.Snap()) && fs.calls == []
      ensures r.Done? && !WriteFails(old(ip.size), old(f.off), |src|) ==>
        && r.value == |src| && old(f.off) <= old(ip.size) <= MAXBYTES && ip.size <= MAXBYTES
        && f.off == old(f.off) + |src|
        && Contents(fs.blocks, ip.Value()) == Overwrite(old(Contents(fs.blocks, ip.Value())), old(f.off), src)
    {
      assert fs.Inos(ip) == fs.dinodes;
      r := fs.WriteOp(f, ip, src, 0);
      if r.Done? {
        assert fs.Inos(ip) == fs.dinodes;
        if !WriteFails(old(ip.size), old(f.off), |src|) {
          WrittenIs(old(Contents(fs.blocks, ip.Value())), old(f.off), src, |src|, Contents(fs.blocks, ip.Value()));
          assert src[..|src|] == src;
        }
      }
    }

    /** A chunk of filewrite in an open operation. A write that writei refuses changes no file; one that it
        does not refuse fails only if no block is free or the log is too full. */
    method Write(ghost who: nat, f: OpenFile, ip: InCore, src: seq<byte>) returns (r: Outcome<int>)
      requires Valid() && who < |Ops()| && fs.Stored(ip) && ip.ty != T_DEV && f.off < UINT && |src| <= CHUNK
      modifies log`cache, log`lh, log`trace, fs, ip, f
      ensures Safe() && Kept() == old(Kept()) && (r.Done? ==> Valid() && fs.Stored(ip))
      ensures r.Panic? ==> Full(fs.bitmap) || |old(log.lh)| + MAXOPBLOCKS > Capacity(log.c)
      ensures r.Done? ==> LoggedBy(old(log.Now()), log.Now(), who, fs.logged) && |fs.logged| <= MAXOPBLOCKS
      ensures WriteFails(old(ip.size), old(f.off), |src|) ==>
        r == Done(-1) && f.off == old(f.off) && SameFiles(fs.sup, old(log.cache), log.cache)
      ensures r.Done? && !WriteFails(old(ip.size), old(f.off), |src|) ==>
        && r.value == |src| && f.off == old(f.off) + |src|
        && Wrote(fs.sup, old(log.cache), log.cache, ip.inum, old(f.off), src)
    {
      ghost var cache, s, owner := log.cache, fs.Snap(), fs.owner;
      RunKeepsInv(log.c, log.base, log.trace);
      fs.BeginOp();
      r := PutBytes(f, ip, src);
      if r.Done? {
        FewFit(log.c, log.lh, fs.calls, MAXOPBLOCKS);
        var ok := LogAll(who);
        if !ok {
          return Panic;
        }
        DiskFollows(fs.sup, cache, s, owner, log.cache, fs.Snap(), fs.owner, ip.inum);
      }
    }

    /** One turn of filewrite's loop: begin_op, the write, end_op. In a volume within its budget whose log
        has more than LOGSIZE blocks it fails only if no block is free. With no other operation open the
        bytes are on the disk, and survive every crash, when it returns. */
    method WriteTurn(p: nat, ghost id: OpId, f: OpenFile, ip: InCore, src: seq<byte>)
      returns (sleeps: bool, r: Outcome<int>)
      requires Valid() && Budgeted() && id !in log.Now().fate && p !in log.asleep
      requires fs.Stored(ip) && ip.ty != T_DEV && f.off < UINT && |src| <= CHUNK
      modifies log, fs, ip, f
      ensures sleeps <==> |old(log.lh)| + (old(|Ops()|) + 1) * MAXOPBLOCKS > LOGSIZE
      ensures Safe() && (sleeps || r.Done? ==> Valid() && Budgeted() && fs.Stored(ip) && Ops() == old(Ops()))
      ensures sleeps || WriteFails(old(ip.size), old(f.off), |src|) ==> SameFiles(fs.sup, old(log.cache), log.cache)
      ensures !sleeps && r.Panic? ==>
        && !WriteFails(old(ip.size), old(f.off), |src|)
        && (Full(fs.bitmap) || (log.c.size <= LOGSIZE && |old(log.lh)| + MAXOPBLOCKS > Capacity(log.c)))
      ensures old(Ops()) == [] ==> !sleeps && (r.Panic? ==> Full(fs.bitmap) || log.c.size <= MAXOPBLOCKS)
      ensures !sleeps && r.Done? && !WriteFails(old(ip.size), old(f.off), |src|) ==>
        && r.value == |src| && Wrote(fs.sup, old(log.cache), log.cache, ip.inum, old(f.off), src)
      ensures !sleeps && r.Done? && Ops() == [] ==>
        SameFiles(fs.sup, log.cache, log.disk) && SameFiles(fs.sup, log.cache, Kept())
    {
      r := Panic;
      QuietLog(log.c, log.base, log.trace);
      var ok := Begin(p, id);
      sleeps := !ok;
      if sleeps {
        FilesSame(fs.sup, log.cache);
      } else {
        r := WriteAndEnd(|Ops()| - 1, f, ip, src);
      }
    }

    /** The write and the end_op of an operation that has logged nothing so far. */
    method WriteAndEnd(ghost who: nat, f: OpenFile, ip: InCore, src: seq<byte>) returns (r: Outcome<int>)
      requires Valid() && Budgeted() && who < |Ops()| && Ops()[who].blocks == {}
      requires fs.Stored(ip) && ip.ty != T_DEV && f.off < UINT && |src| <= CHUNK
      modifies log, fs, ip, f
      ensures Safe() && (r.Done? ==> Valid() && Budgeted() && fs.Stored(ip) && Ops() == Without(old(Ops()), who))
      ensures WriteFails(old(ip.size), old(f.off), |src|) ==>
        r == Done(-1) && SameFiles(fs.sup, old(log.cache), log.cache)
      ensures r.Panic? ==>
        Full(fs.bitmap) || (log.c.size <= LOGSIZE && |old(log.lh)| + MAXOPBLOCKS > Capacity(log.c))
      ensures r.Done? && !WriteFails(old(ip.size), old(f.off), |src|) ==>
        && r.value == |src| && Wrote(fs.sup, old(log.cache), log.cache, ip.inum, old(f.off), src)
      ensures r.Done? && Ops() == [] ==>
        SameFiles(fs.sup, log.cache, log.disk) && SameFiles(fs.sup, log.cache, Kept())
    {
      r := WriteFirst(who, f, ip, src);
      if r.Done? {
        ghost var cache := log.cache;
        End(who);
        FilesThrough(fs.sup, old(log.cache), cache, log.cache, ip.inum, old(f.off), src);
      }
    }

    /** The write of an operation that has logged nothing so far, within the budget. */
    method WriteFirst(ghost who: nat, f: OpenFile, ip: InCore, src: seq<byte>) returns (r: Outcome<int>)
      requires Valid() && Budgeted() && who < |Ops()| && Ops()[who].blocks == {}
      requires fs.Stored(ip) && ip.ty != T_DEV && f.off < UINT && |src| <= CHUNK
      modifies log`cache, log`lh, log`trace, fs, ip, f
      ensures Safe() && (r.Done? ==> Valid() && Budgeted() && fs.Stored(ip))
      ensures r.Done? ==> |Ops()| == |old(Ops())| && Without(Ops(), who) == Without(old(Ops()), who)
      ensures WriteFails(old(ip.size), old(f.off), |src|) ==>
        r == Done(-1) && SameFiles(fs.sup, old(log.cache), log.cache)
      ensures r.Panic? ==>
        Full(fs.bitmap) || (log.c.size <= LOGSIZE && |old(log.lh)| + MAXOPBLOCKS > Capacity(log.c))
      ensures r.Done? && !WriteFails(old(ip.size), old(f.off), |src|) ==>
        && r.value == |src| && Wrote(fs.sup, old(log.cache), log.cache, ip.inum, old(f.off), src)
    {
      ghost var s := log.Now();
      r := Write(who, f, ip, src);
      if log.c.size > LOGSIZE {
        FreshRoom(log.c, s, who);
      }
      if r.Done? {
        BudgetKept(s, log.Now(), who, fs.logged);
      }
    }

    /** dirlink, without begin_op and end_op. */
    method PutEntry(dp: InCore, name: Name, inum: nat) returns (r: Outcome<int>, ghost k: nat)
      requires InOrder() && fs.Tracked() && fs.calls == [] && fs.Stored(dp) && dp.size <= MAXBYTES && NoNul(name)
      modifies fs`bitmap, fs`blocks, fs`dinodes, fs`logged, fs`calls, fs`owner, dp
      ensures r.Panic? ==> LinkFails(fs.bitmap, dp.ty, old(dp.size))
      ensures r.Done? ==>
        && InOrder() && fs.Tracked() && fs.Stored(dp) && dp.size <= MAXBYTES && |fs.logged| <= ENTRY_BLOCKS
        && |Early(fs.calls)| < ENTRY_BLOCKS
      ensures r.Done? ==>
        var was, now := old(Contents(fs.blocks, dp.Value())), Contents(fs.blocks, dp.Value());
        if exists j: nat :: Binds(was, j, Trunc(name)) then r.value == -1 && fs.Snap() == old(fs.Snap())
        else
          && r.value == 0 && Links(was, now, k, name, inum)
          && OthersKept(old(fs.blocks), old(fs.dinodes), fs.blocks, fs.dinodes, dp.inum)
    {
      assert fs.Inos(dp) == fs.dinodes;
      assert fs.logged == {};
      r, k := Dirlink(fs, dp, name, inum);
      assert r.Done? ==> fs.Inos(dp) == fs.dinodes;
      assert fs.logged - {} == fs.logged && Early(fs.calls) - {} == Early(fs.calls);
    }

    /** dirlink in an open operation. */
    method Link(ghost who: nat, dp: InCore, name: Name, inum: nat) returns (r: Outcome<int>, ghost k: nat)
      requires Valid() && who < |Ops()| && fs.Stored(dp) && dp.size <= MAXBYTES && NoNul(name)
      modifies log`cache, log`lh, log`trace, fs, dp
      ensures Safe() && Kept() == old(Kept()) && (r.Done? ==> Valid() && fs.Stored(dp))
      ensures r.Panic? ==>
        LinkFails(fs.bitmap, dp.ty, old(dp.size)) || |old(log.lh)| + ENTRY_BLOCKS > Capacity(log.c)
      ensures r.Done? ==> LoggedBy(old(log.Now()), log.Now(), who, fs.logged) && |fs.logged| <= ENTRY_BLOCKS
      ensures r.Done? ==>
        var was, now := old(FileOn(fs.sup, log.cache, dp.inum)), FileOn(fs.sup, log.cache, dp.inum);
        if exists j: nat :: Binds(was, j, Trunc(name)) then
          r.value == -1 && SameFiles(fs.sup, old(log.cache), log.cache)
        else
          && r.value == 0 && Links(was, now, k, name, inum)
          && OtherFiles(fs.sup, old(log.cache), log.cache, dp.inum)
    {
      ghost var cache, s, owner := log.cache, fs.Snap(), fs.owner;
      RunKeepsInv(log.c, log.base, log.trace);
      fs.BeginOp();
      r, k := PutEntry(dp, name, inum);
      if r.Done? {
        FewFit(log.c, log.lh, fs.calls, ENTRY_BLOCKS);
        var ok := LogAll(who);
        if !ok {
          return Panic, k;
        }
        DiskFollows(fs.sup, cache, s, owner, log.cache, fs.Snap(), fs.owner, dp.inum);
      }
    }

    /** iput, without begin_op and end_op; says whether it emptied the file. */
    method Put(ip: InCore) returns (ghost gone: bool)
      requires InOrder() && fs.Tracked() && fs.calls == [] && ip.inum < |fs.dinodes| && (ip.valid ==> fs.Stored(ip))
      modifies fs`bitmap, fs`dinodes, fs`logged, fs`calls, fs`owner, ip
      ensures InOrder() && fs.Tracked() && gone == old(ip.valid && ip.nlink == 0 && ip.ref == 1)
      ensures OthersKept(fs.blocks, old(fs.dinodes), fs.blocks, fs.dinodes, ip.inum)
      ensures if gone then
          && fs.dinodes[ip.inum].size == 0
          && Early(fs.calls) == fs.logged == MapsOf(fs.sup, old(fs.owner), ip.inum) + {fs.sup.IBlock(ip.inum)}
        else fs.dinodes == old(fs.dinodes) && fs.calls == []
    {
      ghost var dinodes, valid := fs.dinodes, ip.valid;
      gone := ip.valid && ip.nlink == 0 && ip.ref == 1;
      assert valid ==> fs.Inos(ip) == fs.dinodes;
      assert fs.logged == {};
      fs.Iput(ip);
      assert valid ==> fs.Inos(ip) == fs.dinodes;
      SomeKept(fs.blocks, dinodes, fs.dinodes, ip.inum);
    }

    /** iput in an open operation: the last reference to an unlinked file empties it. It logs the bitmap
        blocks of the file's blocks and the block of the inode, that one twice, and panics exactly if the
        log has no room for the second time. */
    method Release(ghost who: nat, ip: InCore) returns (ok: bool, ghost gone: bool)
      requires Valid() && who < |Ops()| && ip.inum < |fs.dinodes| && (ip.valid ==> fs.Stored(ip))
      modifies log`cache, log`lh, log`trace, fs, ip
      ensures Safe() && Kept() == old(Kept()) && (ok ==> Valid())
      ensures gone == old(ip.valid && ip.nlink == 0 && ip.ref == 1)
      ensures ok <==> !gone || |Members(old(log.lh)) + ReleaseLogs(fs.sup, old(fs.owner), ip.inum)| < Capacity(log.c)
      ensures ok ==> LoggedBy(old(log.Now()), log.Now(), who, fs.logged)
      ensures ok ==> OtherFiles(fs.sup, old(log.cache), log.cache, ip.inum)
      ensures ok && gone ==>
        FileOn(fs.sup, log.cache, ip.inum) == [] && fs.logged == ReleaseLogs(fs.sup, old(fs.owner), ip.inum)
      ensures ok && !gone ==> FileOn(fs.sup, log.cache, ip.inum) == old(FileOn(fs.sup, log.cache, ip.inum))
    {
      ghost var cache, s, owner := log.cache, fs.Snap(), fs.owner;
      fs.BeginOp();
      gone := Put(ip);
      ok := LogAll(who);
      if ok {
        DiskFollows(fs.sup, cache, s, owner, log.cache, fs.Snap(), fs.owner, ip.inum);
      }
    }

    /** The machine stops between two steps of the file system code, whatever is open, and starts again.
        Its files are the committed ones. */
    method Reboot()
      requires Safe()
      modifies log, fs
      ensures Valid() && Ops() == [] && Budgeted() && Kept() == old(Kept())
      ensures log.Now().durable == old(log.Now().durable) && SameHome(log.c, log.disk, Kept())
      ensures SameFiles(fs.sup, Kept(), log.disk) && SameFiles(fs.sup, Kept(), log.cache)
    {
      ghost var tr := log.trace;
      log.PowerLoss();
      log.RecoverFromLog();
      assert log.trace[..|tr|] == tr && log.trace[|tr| - 1] == tr[|tr| - 1];
      SafeUnchanged(log.c, fs.sup, log.base, log.trace, |tr| - 1);
      ghost var owner := Recovered(log.c, fs.sup, log.base, log.trace);
      CommitsAlone(log.c, log.base, log.trace);
      RecoveredFiles(log.c, fs.sup, log.base, log.trace);
      fs.bitmap, fs.blocks, fs.dinodes := Bits(fs.sup, log.cache), log.cache, Inodes(fs.sup, log.cache);
      fs.owner := owner;
    }
  }
}
