/** What every run of the log keeps: crash atomicity, all-or-nothing operations, durability. */
module LogProof {
  import opened Common
  import opened Blocks
  import opened LogModel

  /** The disk contents that the committed writes describe. */
  ghost function Durable(base: seq<Block>, s: State): (d: seq<Block>)
    ensures |d| == |base|
  {
    Apply(base, s.durable)
  }

  ghost predicate Listed(c: Config, h: seq<nat>) {
    && |h| <= LOGSIZE && |h| <= c.size - 1 && Distinct(h)
    && forall i :: 0 <= i < |h| ==> c.Home(h[i])
  }

  /** Two disks agree outside the log region. */
  ghost predicate SameHome(c: Config, d: seq<Block>, e: seq<Block>) {
    && |d| == |e| == c.total
    && forall b: nat :: c.Home(b) ==> d[b] == e[b]
  }

  /** Home blocks agree except possibly those listed. */
  ghost predicate SameHomeBut(c: Config, d: seq<Block>, e: seq<Block>, h: seq<nat>) {
    && |d| == |e| == c.total
    && forall b: nat :: c.Home(b) && b !in h ==> d[b] == e[b]
  }

  /** The slots hold the contents that d gives to the listed blocks. */
  ghost predicate Slots(c: Config, disk: seq<Block>, d: seq<Block>, h: seq<nat>, n: nat)
    requires c.Valid() && |disk| == |d| == c.total && Listed(c, h) && n <= |h|
  {
    forall i :: 0 <= i < n ==> disk[c.start + 1 + i] == d[h[i]]
  }

  ghost predicate HeaderIs(c: Config, disk: seq<Block>, h: seq<nat>)
    requires c.Valid() && |disk| == c.total
  {
    HeaderFits(disk[c.start]) && Header(disk[c.start]) == h
  }

  /** The disk, header included, stands for the contents d: what the header lists is in the
      slots, and everything else is in place. */
  ghost predicate StandsFor(c: Config, disk: seq<Block>, d: seq<Block>, h: seq<nat>)
    requires c.Valid()
  {
    && |disk| == |d| == c.total && Listed(c, h)
    && HeaderIs(c, disk, h) && Slots(c, disk, d, h, |h|) && SameHomeBut(c, disk, d, h)
  }

  /** Whatever its header lists, the disk stands for the contents d. */
  ghost predicate Recoverable(c: Config, disk: seq<Block>, d: seq<Block>)
    requires c.Valid()
  {
    |disk| == c.total && HeaderFits(disk[c.start]) && StandsFor(c, disk, d, Header(disk[c.start]))
  }

  /** The blocks up to the t-th listed one have been copied home. */
  ghost predicate Copied(c: Config, disk: seq<Block>, d: seq<Block>, h: seq<nat>, t: nat)
    requires c.Valid() && |disk| == |d| == c.total && Listed(c, h) && t <= |h|
  {
    forall i :: 0 <= i < t ==> disk[h[i]] == d[h[i]]
  }

  ghost predicate Shape(c: Config, base: seq<Block>, s: State) {
    && c.Valid() && |base| == |s.disk| == |s.cache| == c.total && Listed(c, s.lh)
    && s.outstanding == |s.active|
    && (s.committing <==> s.pc.Commits())
    && (!s.pc.Running? ==> s.active == [])
    && (forall b: nat :: c.start <= b < c.start + c.size ==> s.cache[b] == s.disk[b])
  }

  ghost predicate Data(c: Config, base: seq<Block>, s: State)
    requires Shape(c, base, s)
  {
    var d := Durable(base, s);
    match s.pc
    case Running =>
      && StandsFor(c, s.disk, d, []) && SameHome(c, s.cache, Apply(d, s.pending))
      && SameHomeBut(c, s.cache, d, s.lh) && (s.lh == [] ==> s.pending == [])
    case WriteLog(t) =>
      && StandsFor(c, s.disk, d, []) && SameHome(c, s.cache, Apply(d, s.pending))
      && SameHomeBut(c, s.cache, d, s.lh) && t <= |s.lh| && Slots(c, s.disk, s.cache, s.lh, t)
    case Install(t) =>
      && StandsFor(c, s.disk, d, s.lh) && SameHome(c, s.cache, d)
      && s.pending == [] && t <= |s.lh| && Copied(c, s.disk, d, s.lh, t)
    case Finish =>
      StandsFor(c, s.disk, d, []) && SameHome(c, s.cache, d) && s.pending == [] && s.lh == []
    case Boot =>
      s.cache == s.disk && s.pending == [] && s.lh == [] && Recoverable(c, s.disk, d)
    case Recover(t) =>
      && StandsFor(c, s.disk, d, s.lh) && SameHome(c, s.cache, s.disk)
      && s.pending == [] && t <= |s.lh| && Copied(c, s.disk, d, s.lh, t)
  }

  /** Where the writes of an operation are, by its fate. */
  ghost predicate Placed(issued: seq<Event>, pending: seq<Event>, durable: seq<Event>, fate: map<OpId, Fate>,
                         id: OpId) {
    var all, volatile, kept := WritesOf(issued, id), WritesOf(pending, id), WritesOf(durable, id);
    if id !in fate then all == volatile == kept == []
    else if fate[id].Live? then kept == [] && volatile == all
    else if fate[id].Committed? then kept == all && volatile == []
    else kept == [] && volatile == []
  }

  ghost predicate FateOk(s: State, id: OpId) {
    Placed(s.issued, s.pending, s.durable, s.fate, id)
  }

  ghost predicate Fates(s: State) {
    (forall id: OpId :: FateOk(s, id)) && ActiveLive(s) && (!s.pc.Running? && !s.pc.WriteLog? ==> NoneLive(s.fate))
  }

  /** Open operations are neither committed nor lost. */
  ghost predicate ActiveLive(s: State) {
    forall i :: 0 <= i < |s.active| ==> s.active[i].id in s.fate && s.fate[s.active[i].id].Live?
  }

  ghost predicate NoneLive(fate: map<OpId, Fate>) {
    forall id :: id in fate ==> !fate[id].Live?
  }

  ghost predicate Inv(c: Config, base: seq<Block>, s: State) {
    Shape(c, base, s) && Data(c, base, s) && Fates(s)
  }

  // ----- data -----

  lemma BeginKeepsData(c: Config, base: seq<Block>, s: State, a: Action)
    requires Shape(c, base, s) && Data(c, base, s) && a.BeginOp? && Enabled(c, s, a)
    ensures Shape(c, base, Next(c, s, a)) && Data(c, base, Next(c, s, a))
  {
  }

  lemma AbsorbListed(c: Config, h: seq<nat>, b: nat)
    requires Listed(c, h) && c.Home(b) && HasSpace(c, h)
    ensures Listed(c, Absorb(h, b))
  {
  }

  lemma LogWriteKeepsData(c: Config, base: seq<Block>, s: State, a: Action)
    requires Shape(c, base, s) && Data(c, base, s) && a.LogWrite? && Enabled(c, s, a)
    ensures Shape(c, base, Next(c, s, a)) && Data(c, base, Next(c, s, a))
  {
    var s' := Next(c, s, a);
    AbsorbListed(c, s.lh, a.block);
    assert s'.pending[..|s'.pending| - 1] == s.pending;
  }

  lemma EndKeepsData(c: Config, base: seq<Block>, s: State, a: Action)
    requires Shape(c, base, s) && Data(c, base, s) && a.EndOp? && Enabled(c, s, a)
    ensures Shape(c, base, Next(c, s, a)) && Data(c, base, Next(c, s, a))
  {
  }

  lemma SlotWriteKeepsData(c: Config, base: seq<Block>, s: State)
    requires Shape(c, base, s) && Data(c, base, s) && s.pc.WriteLog? && s.pc.tail < |s.lh| && AdvanceOk(c, s)
    ensures Shape(c, base, AdvanceStep(c, s)) && Data(c, base, AdvanceStep(c, s))
  {
  }

  lemma HeadStandsFor(c: Config, disk: seq<Block>, cache: seq<Block>, d: seq<Block>, h: seq<nat>, head: Block)
    requires c.Valid() && |disk| == |cache| == |d| == c.total && Listed(c, h)
    requires Slots(c, disk, cache, h, |h|) && SameHome(c, cache, d) && SameHomeBut(c, disk, cache, h)
    requires HeaderFits(head) && Header(head) == h
    ensures StandsFor(c, disk[c.start := head], d, h)
  {
  }

  /** Writing the header moves the disk from the old contents to the new in one step. */
  lemma HeadWriteKeepsData(c: Config, base: seq<Block>, s: State)
    requires Shape(c, base, s) && Data(c, base, s) && s.pc.WriteLog? && s.pc.tail == |s.lh| && AdvanceOk(c, s)
    ensures Shape(c, base, AdvanceStep(c, s)) && Data(c, base, AdvanceStep(c, s))
  {
    var s', head := AdvanceStep(c, s), PutHeader(s.cache[c.start], s.lh, |s.lh|);
    HeaderRoundTrip(s.cache[c.start], s.lh);
    ApplyConcat(base, s.durable, s.pending);
    assert s'.disk == s.disk[c.start := head] && s'.cache == s.cache[c.start := head];
    HeadStandsFor(c, s.disk, s.cache, Durable(base, s'), s.lh, head);
    HeadSameHome(c, s.cache, Durable(base, s'), head);
  }

  lemma HeadSameHome(c: Config, cache: seq<Block>, d: seq<Block>, head: Block)
    requires c.Valid() && SameHome(c, cache, d)
    ensures SameHome(c, cache[c.start := head], d)
  {
  }

  lemma CopyStandsFor(c: Config, disk: seq<Block>, d: seq<Block>, h: seq<nat>, t: nat)
    requires c.Valid() && StandsFor(c, disk, d, h) && t < |h|
    ensures StandsFor(c, disk[h[t] := d[h[t]]], d, h)
  {
  }

  lemma CopyCopied(c: Config, disk: seq<Block>, d: seq<Block>, h: seq<nat>, t: nat)
    requires c.Valid() && |disk| == |d| == c.total && Listed(c, h) && t < |h| && Copied(c, disk, d, h, t)
    ensures Copied(c, disk[h[t] := d[h[t]]], d, h, t + 1)
  {
  }

  lemma InstallKeepsData(c: Config, base: seq<Block>, s: State)
    requires Shape(c, base, s) && Data(c, base, s) && (s.pc.Install? || s.pc.Recover?) && AdvanceOk(c, s)
    requires s.pc.tail < |s.lh|
    ensures Shape(c, base, AdvanceStep(c, s)) && Data(c, base, AdvanceStep(c, s))
  {
    var t, d, s' := s.pc.tail, Durable(base, s), AdvanceStep(c, s);
    assert c.start <= c.start + 1 + t < c.start + c.size;
    assert s.cache[c.start + t + 1] == d[s.lh[t]];
    assert s'.disk == s.disk[s.lh[t] := d[s.lh[t]]];
    CopyStandsFor(c, s.disk, d, s.lh, t);
    CopyCopied(c, s.disk, d, s.lh, t);
  }

  /** Once everything listed is home, clearing the header changes nothing the disk stands for. */
  lemma ClearKeepsData(c: Config, base: seq<Block>, s: State)
    requires Shape(c, base, s) && Data(c, base, s) && (s.pc.Install? || s.pc.Recover?) && AdvanceOk(c, s)
    requires s.pc.tail == |s.lh|
    ensures Shape(c, base, AdvanceStep(c, s)) && Data(c, base, AdvanceStep(c, s))
  {
    var s' := AdvanceStep(c, s);
    HeaderRoundTrip(s.cache[c.start], []);
    assert SameHomeBut(c, s'.disk, Durable(base, s), []);
  }

  lemma BootKeepsData(c: Config, base: seq<Block>, s: State)
    requires Shape(c, base, s) && Data(c, base, s) && s.pc.Boot? && AdvanceOk(c, s)
    ensures Shape(c, base, AdvanceStep(c, s)) && Data(c, base, AdvanceStep(c, s))
  {
  }

  lemma DataRecoverable(c: Config, base: seq<Block>, s: State)
    requires Shape(c, base, s) && Data(c, base, s)
    ensures Recoverable(c, s.disk, Durable(base, s))
  {
    match s.pc
    case Running => assert StandsFor(c, s.disk, Durable(base, s), []);
    case WriteLog(_) => assert StandsFor(c, s.disk, Durable(base, s), []);
    case Install(_) => assert StandsFor(c, s.disk, Durable(base, s), s.lh);
    case Finish => assert StandsFor(c, s.disk, Durable(base, s), []);
    case Boot =>
    case Recover(_) => assert StandsFor(c, s.disk, Durable(base, s), s.lh);
  }

  lemma CrashKeepsData(c: Config, base: seq<Block>, s: State)
    requires Shape(c, base, s) && Data(c, base, s)
    ensures Shape(c, base, Next(c, s, Crash)) && Data(c, base, Next(c, s, Crash))
  {
    DataRecoverable(c, base, s);
  }

  lemma AdvanceKeepsData(c: Config, base: seq<Block>, s: State)
    requires Shape(c, base, s) && Data(c, base, s) && Enabled(c, s, Advance)
    ensures Shape(c, base, AdvanceStep(c, s)) && Data(c, base, AdvanceStep(c, s))
  {
    match s.pc {
      case WriteLog(t) => if t < |s.lh| { SlotWriteKeepsData(c, base, s); } else { HeadWriteKeepsData(c, base, s); }
      case Install(t) => if t < |s.lh| { InstallKeepsData(c, base, s); } else { ClearKeepsData(c, base, s); }
      case Recover(t) => if t < |s.lh| { InstallKeepsData(c, base, s); } else { ClearKeepsData(c, base, s); }
      case Boot => BootKeepsData(c, base, s);
      case Finish =>
    }
  }

  lemma WaitKeepsData(c: Config, base: seq<Block>, s: State, a: Action)
    requires Shape(c, base, s) && Data(c, base, s) && (a.Sleep? || a.Kill?) && Enabled(c, s, a)
    ensures Shape(c, base, Next(c, s, a)) && Data(c, base, Next(c, s, a))
  {
  }

  lemma StepKeepsData(c: Config, base: seq<Block>, s: State, a: Action)
    requires Shape(c, base, s) && Data(c, base, s) && Enabled(c, s, a)
    ensures Shape(c, base, Next(c, s, a)) && Data(c, base, Next(c, s, a))
  {
    match a
    case BeginOp(_) => BeginKeepsData(c, base, s, a);
    case LogWrite(_, _, _) => LogWriteKeepsData(c, base, s, a);
    case EndOp(_) => EndKeepsData(c, base, s, a);
    case Sleep(_) => WaitKeepsData(c, base, s, a);
    case Kill(_) => WaitKeepsData(c, base, s, a);
    case Crash => CrashKeepsData(c, base, s);
    case Advance => AdvanceKeepsData(c, base, s);
  }

  // ----- fates -----

  lemma LogWriteFate(c: Config, s: State, a: Action, id: OpId)
    requires FateOk(s, id) && a.LogWrite? && Enabled(c, s, a)
    requires s.active[a.who].id in s.fate && s.fate[s.active[a.who].id].Live?
    ensures FateOk(Next(c, s, a), id)
  {
    var s' := Next(c, s, a);
    assert s'.pending[..|s'.pending| - 1] == s.pending && s'.issued[..|s'.issued| - 1] == s.issued;
  }

  lemma CommitPlaced(issued: seq<Event>, pending: seq<Event>, durable: seq<Event>, fate: map<OpId, Fate>, id: OpId)
    requires Placed(issued, pending, durable, fate, id)
    ensures Placed(issued, [], durable + pending, Settle(fate, Committed), id)
  {
    WritesOfConcat(durable, pending, id);
  }

  lemma AdvanceFate(c: Config, s: State, id: OpId)
    requires FateOk(s, id) && Enabled(c, s, Advance)
    ensures FateOk(AdvanceStep(c, s), id)
  {
    if s.pc.WriteLog? && s.pc.tail >= |s.lh| {
      CommitPlaced(s.issued, s.pending, s.durable, s.fate, id);
    } else {
      var s' := AdvanceStep(c, s);
      assert s'.issued == s.issued && s'.pending == s.pending && s'.durable == s.durable && s'.fate == s.fate;
    }
  }

  lemma EndFate(c: Config, s: State, a: Action, id: OpId)
    requires FateOk(s, id) && a.EndOp? && Enabled(c, s, a) && (s.lh == [] ==> s.pending == [])
    ensures FateOk(Next(c, s, a), id)
  {
    CommitPlaced(s.issued, s.pending, s.durable, s.fate, id);
    assert s.lh == [] ==> s.durable + s.pending == s.durable;
  }

  lemma StepFate(c: Config, s: State, a: Action, id: OpId)
    requires FateOk(s, id) && Enabled(c, s, a)
    requires a.EndOp? ==> s.lh == [] ==> s.pending == []
    requires a.LogWrite? ==> s.active[a.who].id in s.fate && s.fate[s.active[a.who].id].Live?
    ensures FateOk(Next(c, s, a), id)
  {
    match a
    case LogWrite(_, _, _) => LogWriteFate(c, s, a, id);
    case Advance => AdvanceFate(c, s, id);
    case EndOp(_) => EndFate(c, s, a, id);
    case _ =>
  }

  lemma EndActive(c: Config, s: State, a: Action)
    requires ActiveLive(s) && a.EndOp? && Enabled(c, s, a) && |s.active| == s.outstanding
    ensures ActiveLive(Next(c, s, a))
  {
    var s' := Next(c, s, a);
    forall i | 0 <= i < |s'.active| ensures s'.active[i].id in s'.fate && s'.fate[s'.active[i].id].Live? {
      assert s'.active[i] == s.active[if i < a.who then i else i + 1];
    }
  }

  lemma StepActive(c: Config, s: State, a: Action)
    requires ActiveLive(s) && Enabled(c, s, a) && (s.active != [] ==> s.pc.Running?) && |s.active| == s.outstanding
    ensures ActiveLive(Next(c, s, a))
  {
    match a
    case EndOp(_) => EndActive(c, s, a);
    case Advance => assert AdvanceStep(c, s).active == [];
    case _ =>
  }

  lemma StepNoneLive(c: Config, s: State, a: Action)
    requires Enabled(c, s, a) && (!s.pc.Running? && !s.pc.WriteLog? ==> NoneLive(s.fate))
    ensures var s' := Next(c, s, a); !s'.pc.Running? && !s'.pc.WriteLog? ==> NoneLive(s'.fate)
  {
  }

  lemma StepKeepsFates(c: Config, base: seq<Block>, s: State, a: Action)
    requires Fates(s) && Enabled(c, s, a)
    requires a.EndOp? ==> s.lh == [] ==> s.pending == []
    requires s.active != [] ==> s.pc.Running?
    requires |s.active| == s.outstanding
    ensures Fates(Next(c, s, a))
  {
    StepActive(c, s, a);
    StepNoneLive(c, s, a);
    forall id: OpId ensures FateOk(Next(c, s, a), id) {
      assert FateOk(s, id);
      StepFate(c, s, a, id);
    }
  }

  lemma {:induction false} RunKeepsInv(c: Config, base: seq<Block>, tr: seq<State>)
    requires Run(c, base, tr)
    ensures Inv(c, base, tr[|tr| - 1])
    decreases |tr|
  {
    if |tr| == 1 {
      assert StepAt(c, base, tr, 0);
      assert StandsFor(c, base, Apply(base, []), []);
    } else {
      var s := tr[|tr| - 2];
      var a := LastStep(c, base, tr);
      RunKeepsInv(c, base, tr[..|tr| - 1]);
      StepKeepsData(c, base, s, a);
      StepKeepsFates(c, base, s, a);
    }
  }
}
