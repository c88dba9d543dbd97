/** The redo log as a state machine: operations of many processes, the single
    block writes of commit and of recovery, and a crash possible after any of them. */
module LogModel {
  import opened Common
  import opened Blocks

  const BLOCK_LIMIT: nat := 0x8000_0000

  type OpId = nat

  /** Where the log lies on the disk: a header block and `size - 1` slots. */
  datatype Config = Config(start: nat, size: nat, total: nat) {
    ghost predicate Valid() {
      1 <= size && start + size <= total <= BLOCK_LIMIT
    }
    /** A block outside the log region. */
    predicate Home(b: nat) {
      b < total && !(start <= b < start + size)
    }
  }

  /** One block modified by one operation. */
  datatype Event = Event(id: OpId, block: nat, data: Block)

  /** An operation between begin_op and end_op, and the blocks it has logged. */
  datatype Op = Op(id: OpId, blocks: set<nat>)

  datatype Fate = Live | Committed | Lost

  /** What the log code does next. */
  datatype Pc = Running | WriteLog(tail: nat) | Install(tail: nat) | Finish | Boot | Recover(tail: nat) {
    predicate Commits() { WriteLog? || Install? || Finish? }
    predicate Recovers() { Boot? || Recover? }
  }

  /** `disk` survives a crash; `cache` is what reading a block returns; `asleep` are the processes
      that sleep on the log in begin_op. The last five fields are history that the code does not have. */
  datatype State = State(
    disk: seq<Block>, cache: seq<Block>, lh: seq<nat>, outstanding: int, committing: bool, pc: Pc, asleep: set<nat>,
    active: seq<Op>, issued: seq<Event>, pending: seq<Event>, durable: seq<Event>, fate: map<OpId, Fate>)

  // ----- header block -----

  predicate HeaderFits(blk: Block) {
    Word(blk, 0) <= LOGSIZE
  }

  /** The block numbers listed in a header block. */
  function Header(blk: Block): (h: seq<nat>)
    requires HeaderFits(blk)
    ensures |h| == Word(blk, 0)
  {
    seq(Word(blk, 0), i requires 0 <= i < LOGSIZE => Word(blk, i + 1))
  }

  predicate Entries(lh: seq<nat>) {
    |lh| <= LOGSIZE && forall i :: 0 <= i < |lh| ==> lh[i] < BLOCK_LIMIT
  }

  /** The header block after the count and the first k entries have been stored. */
  function PutHeader(blk: Block, lh: seq<nat>, k: nat): (r: Block)
    requires Entries(lh) && k <= |lh|
  {
    if k == 0 then SetWord(blk, 0, |lh|) else SetWord(PutHeader(blk, lh, k - 1), k, lh[k - 1])
  }

  lemma {:induction false} PutHeaderWords(blk: Block, lh: seq<nat>, k: nat)
    requires Entries(lh) && k <= |lh|
    ensures Word(PutHeader(blk, lh, k), 0) == |lh|
    ensures forall i :: 0 <= i < k ==> Word(PutHeader(blk, lh, k), i + 1) == lh[i]
  {
    if k == 0 {
      WordAfterSet(blk, 0, |lh|, 0);
    } else {
      PutHeaderWords(blk, lh, k - 1);
      var prev := PutHeader(blk, lh, k - 1);
      WordAfterSet(prev, k, lh[k - 1], 0);
      forall i | 0 <= i < k ensures Word(PutHeader(blk, lh, k), i + 1) == lh[i] {
        WordAfterSet(prev, k, lh[k - 1], i + 1);
      }
    }
  }

  /** Writing a header and reading it back gives the same list, whatever the block held. */
  lemma HeaderRoundTrip(blk: Block, lh: seq<nat>)
    requires Entries(lh)
    ensures HeaderFits(PutHeader(blk, lh, |lh|)) && Header(PutHeader(blk, lh, |lh|)) == lh
  {
    PutHeaderWords(blk, lh, |lh|);
  }

  // ----- events -----

  /** The disk contents after a sequence of writes. */
  function Apply(d: seq<Block>, events: seq<Event>): (r: seq<Block>)
    ensures |r| == |d|
  {
    if events == [] then d
    else
      var e := events[|events| - 1];
      var r := Apply(d, events[..|events| - 1]);
      if e.block < |d| then r[e.block := e.data] else r
  }

  lemma {:induction false} ApplyConcat(d: seq<Block>, a: seq<Event>, b: seq<Event>)
    ensures Apply(d, a + b) == Apply(Apply(d, a), b)
  {
    if b == [] {
      assert a + b == a;
    } else {
      ApplyConcat(d, a, b[..|b| - 1]);
      assert (a + b)[..|a + b| - 1] == a + b[..|b| - 1];
    }
  }

  /** The writes of one operation, in order. */
  function WritesOf(events: seq<Event>, id: OpId): (r: seq<Event>)
  {
    if events == [] then []
    else
      var e := events[|events| - 1];
      WritesOf(events[..|events| - 1], id) + if e.id == id then [e] else []
  }

  lemma {:induction false} WritesOfConcat(a: seq<Event>, b: seq<Event>, id: OpId)
    ensures WritesOf(a + b, id) == WritesOf(a, id) + WritesOf(b, id)
  {
    if b == [] {
      assert a + b == a;
    } else {
      WritesOfConcat(a, b[..|b| - 1], id);
      assert (a + b)[..|a + b| - 1] == a + b[..|b| - 1];
    }
  }

  // ----- steps -----

  datatype Action =
    | BeginOp(id: OpId)
    | LogWrite(who: nat, block: nat, data: Block)
    | EndOp(who: nat)
    | Sleep(p: nat)
    | Kill(p: nat)
    | Advance
    | Crash

  function Absorb(lh: seq<nat>, b: nat): (r: seq<nat>)
    ensures b in r && (forall x :: x in r <==> x in lh || x == b)
  {
    if b in lh then lh else lh + [b]
  }

  predicate HasSpace(c: Config, lh: seq<nat>) {
    |lh| < LOGSIZE && |lh| < c.size - 1
  }

  /** The two tests of begin_op that send the caller to sleep. */
  predicate MustWait(s: State) {
    s.committing || |s.lh| + (s.outstanding + 1) * MAXOPBLOCKS > LOGSIZE
  }

  predicate Enabled(c: Config, s: State, a: Action) {
    match a
    case BeginOp(id) =>
      s.pc.Running? && id !in s.fate && !MustWait(s)
    case LogWrite(who, b, _) =>
      who < |s.active| && c.Home(b) && HasSpace(c, s.lh) && s.outstanding >= 1
    case EndOp(who) => who < |s.active| && !s.committing
    case Sleep(p) => !s.pc.Recovers() && MustWait(s) && p !in s.asleep
    case Kill(_) => true
    case Advance => !s.pc.Running? && AdvanceOk(c, s)
    case Crash => true
  }

  /** The indexing that the commit and recovery code performs stays inside its arrays. */
  predicate AdvanceOk(c: Config, s: State) {
    && |s.disk| == |s.cache| == c.total && c.start + c.size <= c.total && c.size >= 1
    && |s.lh| <= LOGSIZE && |s.lh| <= c.size - 1
    && (forall i :: 0 <= i < |s.lh| ==> s.lh[i] < c.total && s.lh[i] < BLOCK_LIMIT)
    && (s.pc.Boot? ==> HeaderFits(s.disk[c.start]))
  }

  function Settle(f: map<OpId, Fate>, to: Fate): (r: map<OpId, Fate>) {
    map id | id in f :: if f[id].Live? then to else f[id]
  }

  function Put(d: seq<Block>, b: nat, data: Block): (r: seq<Block>)
    ensures |r| == |d|
  {
    if b < |d| then d[b := data] else d
  }

  function Next(c: Config, s: State, a: Action): (s': State)
    requires Enabled(c, s, a)
  {
    match a
    case BeginOp(id) =>
      s.(outstanding := s.outstanding + 1, active := s.active + [Op(id, {})], fate := s.fate[id := Live])
    case LogWrite(who, b, data) =>
      var op := s.active[who];
      var e := Event(op.id, b, data);
      s.(cache := Put(s.cache, b, data), lh := Absorb(s.lh, b),
         active := s.active[who := op.(blocks := op.blocks + {b})],
         issued := s.issued + [e], pending := s.pending + [e])
    case EndOp(who) =>
      var t := s.(outstanding := s.outstanding - 1, active := s.active[..who] + s.active[who + 1..]);
      if t.outstanding != 0 then t.(asleep := {})
      else if |s.lh| > 0 then t.(committing := true, pc := WriteLog(0))
      else t.(committing := true, pc := Finish, fate := Settle(s.fate, Committed))
    case Sleep(p) => s.(asleep := s.asleep + {p})
    case Kill(p) => s.(asleep := s.asleep - {p})
    case Advance => AdvanceStep(c, s)
    case Crash =>
      State(s.disk, s.disk, [], 0, false, Boot, {}, [], s.issued, [], s.durable, Settle(s.fate, Lost))
  }

  /** The next block write of write_log, write_head, install_trans or recovery. */
  function AdvanceStep(c: Config, s: State): (s': State)
    requires !s.pc.Running? && AdvanceOk(c, s)
  {
    match s.pc
    case WriteLog(t) =>
      if t < |s.lh| then
        var data := s.cache[s.lh[t]];
        s.(disk := Put(s.disk, c.start + t + 1, data), cache := Put(s.cache, c.start + t + 1, data),
           pc := WriteLog(t + 1))
      else
        var head := PutHeader(s.cache[c.start], s.lh, |s.lh|);
        s.(disk := Put(s.disk, c.start, head), cache := Put(s.cache, c.start, head), pc := Install(0),
           durable := s.durable + s.pending, pending := [], fate := Settle(s.fate, Committed))
    case Install(t) => InstallStep(c, s, t, Install(t + 1), Finish)
    case Recover(t) => InstallStep(c, s, t, Recover(t + 1), Running)
    case Finish => s.(committing := false, pc := Running, asleep := {})
    case Boot => s.(lh := Header(s.disk[c.start]), pc := Recover(0))
    case Running => s
  }

  function InstallStep(c: Config, s: State, t: nat, more: Pc, done: Pc): (s': State)
    requires AdvanceOk(c, s)
  {
    if t < |s.lh| then
      var data := s.cache[c.start + t + 1];
      s.(disk := Put(s.disk, s.lh[t], data), cache := Put(s.cache, s.lh[t], data), pc := more)
    else
      var head := PutHeader(s.cache[c.start], [], 0);
      s.(disk := Put(s.disk, c.start, head), cache := Put(s.cache, c.start, head), lh := [], pc := done)
  }

  ghost predicate Step(c: Config, s: State, s': State) {
    exists a :: Enabled(c, s, a) && s' == Next(c, s, a)
  }

  /** A machine about to boot from a disk whose log is empty; `base` is that disk. */
  ghost predicate Init(c: Config, base: seq<Block>, s: State) {
    && c.Valid() && |base| == c.total && HeaderFits(base[c.start]) && Header(base[c.start]) == []
    && s == State(base, base, [], 0, false, Boot, {}, [], [], [], [], map[])
  }

  /** State k of a run comes from state k - 1 by one step. */
  ghost predicate StepAt(c: Config, base: seq<Block>, tr: seq<State>, k: nat)
    requires k < |tr|
  {
    if k == 0 then Init(c, base, tr[0]) else Step(c, tr[k - 1], tr[k])
  }

  /** A finite run, given by the states it passes through. */
  ghost predicate Run(c: Config, base: seq<Block>, tr: seq<State>) {
    |tr| > 0 && forall k :: 0 <= k < |tr| ==> StepAt(c, base, tr, k)
  }

  lemma RunPrefix(c: Config, base: seq<Block>, tr: seq<State>, n: nat)
    requires Run(c, base, tr) && 0 < n <= |tr|
    ensures Run(c, base, tr[..n])
  {
    forall k | 0 <= k < n ensures StepAt(c, base, tr[..n], k) {
      assert StepAt(c, base, tr, k);
    }
  }

  lemma RunExtend(c: Config, base: seq<Block>, tr: seq<State>, s: State)
    requires Run(c, base, tr) && Step(c, tr[|tr| - 1], s)
    ensures Run(c, base, tr + [s])
  {
    forall k | 0 <= k < |tr| + 1 ensures StepAt(c, base, tr + [s], k) {
      if k < |tr| {
        assert StepAt(c, base, tr, k);
      }
    }
  }

  /** The last step of a run. */
  lemma LastStep(c: Config, base: seq<Block>, tr: seq<State>) returns (a: Action)
    requires Run(c, base, tr) && |tr| > 1
    ensures Run(c, base, tr[..|tr| - 1])
    ensures Enabled(c, tr[|tr| - 2], a) && tr[|tr| - 1] == Next(c, tr[|tr| - 2], a)
  {
    RunPrefix(c, base, tr, |tr| - 1);
    assert StepAt(c, base, tr, |tr| - 1);
    a :| Enabled(c, tr[|tr| - 2], a) && tr[|tr| - 1] == Next(c, tr[|tr| - 2], a);
  }
}
