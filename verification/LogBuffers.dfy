/** The log over the buffer cache: bread, log_write, commit and recovery on the thirty buffers of bio.c
    are the steps of the machine in LogModel, as long as a buffer is left. */
module LogBuffers {
  import opened Common
  import opened Blocks
  import opened CacheView
  import opened CacheCode
  import opened CachePins
  import opened LogModel
  import opened LogProof
  import opened LogTheorems
  import opened LogCode

  /** The blocks that are pinned while the log is in this state. */
  ghost function PinnedIn(s: State): set<nat> {
    match s.pc
    case Running => Members(s.lh)
    case WriteLog(_) => Members(s.lh)
    case Install(t) => if t <= |s.lh| then Members(s.lh[t..]) else {}
    case Finish => {}
    case Boot => {}
    case Recover(_) => {}
  }

  lemma InstallUnpins(h: seq<nat>, t: nat)
    requires Distinct(h) && t < |h|
    ensures h[t] in Members(h[t..]) && Members(h[t..]) - {h[t]} == Members(h[t + 1..])
    ensures |Members(h[t..])| == |h| - t
  {
    assert Distinct(h[t..]);
    ListSize(h[t..]);
    assert h[t..] == [h[t]] + h[t + 1..];
  }

  /** The list of a log is in order, at every moment of a run. */
  lemma AlwaysListed(c: Config, base: seq<Block>, tr: seq<State>)
    requires Run(c, base, tr)
    ensures Listed(c, tr[|tr| - 1].lh) && AdvanceOk(c, tr[|tr| - 1])
  {
    RunKeepsInv(c, base, tr);
    AdvanceAlwaysOk(c, base, tr);
  }

  /** The slot and the home block of turn t. */
  lemma SlotAndHome(c: Config, s: State, t: nat)
    requires Listed(c, s.lh) && AdvanceOk(c, s) && t < |s.lh|
    ensures var slot, home := c.start + t + 1, s.lh[t];
      slot < |s.disk| && home < |s.disk| && slot != home && slot !in s.lh && |Members(s.lh)| == |s.lh|
  {
    assert c.Home(s.lh[t]);
    ListSize(s.lh);
  }

  /** What a turn of write_log does to the machine. */
  lemma WriteStepIs(c: Config, s: State, t: nat)
    requires Listed(c, s.lh) && AdvanceOk(c, s) && s.pc == WriteLog(t) && t < |s.lh|
    ensures var slot, home := c.start + t + 1, s.lh[t];
      && slot < |s.disk| && home < |s.disk| && slot != home && slot !in s.lh
      && |Members(s.lh)| == |s.lh| && Members(s.lh) - {slot} == Members(s.lh)
      && Next(c, s, Advance) ==
         s.(disk := s.disk[slot := s.cache[home]], cache := s.cache[slot := s.cache[home]], pc := WriteLog(t + 1))
  {
    SlotAndHome(c, s, t);
  }

  /** What a turn of install_trans does to the machine. */
  lemma InstallStepIs(c: Config, s: State, t: nat)
    requires Listed(c, s.lh) && AdvanceOk(c, s) && t < |s.lh| && (s.pc == Install(t) || s.pc == Recover(t))
    ensures var slot, home := c.start + t + 1, s.lh[t];
      && slot < |s.disk| && home < |s.disk| && slot != home && slot !in s.lh
      && Next(c, s, Advance) ==
         s.(disk := s.disk[home := s.cache[slot]], cache := s.cache[home := s.cache[slot]],
            pc := if s.pc.Install? then Install(t + 1) else Recover(t + 1))
  {
    SlotAndHome(c, s, t);
  }

  /** It unpins the home block. */
  lemma InstallPins(s: State, e: State, t: nat)
    requires Distinct(s.lh) && t < |s.lh| && e.lh == s.lh
    requires (s.pc == Install(t) && e.pc == Install(t + 1)) || (s.pc == Recover(t) && e.pc == Recover(t + 1))
    ensures PinnedIn(s) <= Members(s.lh) && |PinnedIn(s)| <= |s.lh|
    ensures (s.lh[t] in PinnedIn(s) || PinnedIn(s) == {}) && PinnedIn(e) == PinnedIn(s) - {s.lh[t]}
  {
    InstallUnpins(s.lh, t);
  }

  /** The same, of the last state of a run. */
  lemma WriteTurnIs(c: Config, base: seq<Block>, tr: seq<State>, t: nat)
    requires Run(c, base, tr) && var s := tr[|tr| - 1]; s.pc == WriteLog(t) && t < |s.lh|
    ensures var s := tr[|tr| - 1]; var slot, home := c.start + t + 1, s.lh[t];
      && slot < |s.disk| == |s.cache| && home < |s.disk| && slot != home && slot !in s.lh && Enabled(c, s, Advance)
      && |Members(s.lh)| == |s.lh| && Members(s.lh) - {slot} == Members(s.lh)
      && Next(c, s, Advance) ==
         s.(disk := s.disk[slot := s.cache[home]], cache := s.cache[slot := s.cache[home]], pc := WriteLog(t + 1))
  {
    AlwaysListed(c, base, tr);
    WriteStepIs(c, tr[|tr| - 1], t);
  }

  lemma InstallTurnIs(c: Config, base: seq<Block>, tr: seq<State>, t: nat)
    requires Run(c, base, tr)
    requires var s := tr[|tr| - 1]; (s.pc == Install(t) || s.pc == Recover(t)) && t < |s.lh|
    ensures var s := tr[|tr| - 1]; var slot, home := c.start + t + 1, s.lh[t];
      && slot < |s.disk| == |s.cache| && home < |s.disk| && slot != home && slot !in PinnedIn(s)
      && (home in PinnedIn(s) || PinnedIn(s) == {}) && |PinnedIn(s)| <= |s.lh| && Enabled(c, s, Advance)
      && PinnedIn(Next(c, s, Advance)) == PinnedIn(s) - {home}
      && Next(c, s, Advance) ==
         s.(disk := s.disk[home := s.cache[slot]], cache := s.cache[home := s.cache[slot]],
            pc := if s.pc.Install? then Install(t + 1) else Recover(t + 1))
  {
    AlwaysListed(c, base, tr);
    InstallStepIs(c, tr[|tr| - 1], t);
    InstallPins(tr[|tr| - 1], Next(c, tr[|tr| - 1], Advance), t);
  }

  /** The header write of a commit. */
  lemma HeadTurnIs(c: Config, base: seq<Block>, tr: seq<State>)
    requires Run(c, base, tr) && tr[|tr| - 1].pc == WriteLog(|tr[|tr| - 1].lh|)
    ensures var s := tr[|tr| - 1];
      && c.start < |s.disk| == |s.cache| && Entries(s.lh) && c.start !in s.lh && Enabled(c, s, Advance)
      && |Members(s.lh)| == |s.lh| && Members(s.lh) - {c.start} == Members(s.lh)
      && var head, e := PutHeader(s.cache[c.start], s.lh, |s.lh|), Next(c, s, Advance);
         && e.disk == s.disk[c.start := head] && e.cache == s.cache[c.start := head] && e.lh == s.lh
         && PinnedIn(e) == Members(s.lh)
  {
    AlwaysListed(c, base, tr);
    var s := tr[|tr| - 1];
    ListSize(s.lh);
    assert s.lh[0..] == s.lh;
  }

  /** The write of an empty header. */
  lemma ClearTurnIs(c: Config, base: seq<Block>, tr: seq<State>)
    requires Run(c, base, tr)
    requires var s := tr[|tr| - 1]; s.pc == Install(|s.lh|) || s.pc == Recover(|s.lh|)
    ensures var s := tr[|tr| - 1];
      && c.start < |s.disk| == |s.cache| && Enabled(c, s, Advance) && PinnedIn(s) == {}
      && var head, e := PutHeader(s.cache[c.start], [], 0), Next(c, s, Advance);
         && e.disk == s.disk[c.start := head] && e.cache == s.cache[c.start := head] && e.lh == [] && PinnedIn(e) == {}
  {
    AlwaysListed(c, base, tr);
  }

  /** A log region of no more blocks than there are buffers leaves a buffer at every moment of every run. */
  lemma BuffersSuffice(c: Config, base: seq<Block>, tr: seq<State>)
    requires Run(c, base, tr) && c.size <= NBUF
    ensures |tr[|tr| - 1].lh| < NBUF
  {
    AlwaysListed(c, base, tr);
  }

  /** With a larger region, operations that stay within their budgets can pin all of them. */
  lemma BuffersRunOut(c: Config, base: seq<Block>) returns (tr: seq<State>)
    requires c.Valid() && |base| == c.total && HeaderFits(base[c.start]) && Header(base[c.start]) == []
    requires c.size > NBUF && NBUF + c.size <= c.total
    ensures BudgetRun(c, base, tr) && |tr[|tr| - 1].lh| == NBUF
  {
    tr := Fill(c, base, NBUF);
  }

  class BufferedLog {
    const log: Log
    var bc: Cache

    ghost predicate Valid()
      reads this, log, bc
    {
      && log.Valid() && Quiet(bc, PinnedIn(log.Now())) && bc.disk == log.disk && bc.latest == log.cache
    }

    /** A machine that has just been switched on. */
    constructor (config: Config, image: seq<Block>)
      requires config.Valid() && |image| == config.total
      requires HeaderFits(image[config.start]) && Header(image[config.start]) == []
      ensures Valid() && log.c == config && log.Now().pc.Boot? && fresh(log) && fresh(bc)
    {
      log := new Log(config, image);
      bc := new Cache(image);
      new;
      BootCache(log.c, log.base, log.trace);
      NothingPinned(bc);
    }

    /** bread, by the file system code: the latest contents, unless all buffers are pinned for other blocks. */
    method Read(n: nat) returns (r: Outcome<Block>)
      requires Valid() && log.Now().pc.Running? && n < log.c.total
      modifies bc
      ensures r.Panic? <==> |log.lh| == NBUF && n !in log.lh
      ensures r.Done? ==> Valid() && n < |log.cache| && r.value == log.cache[n]
    {
      AlwaysListed(log.c, log.base, log.trace);
      ListSize(log.lh);
      r := ReadBlock(bc, n, Members(log.lh));
    }

    /** bread, a change of the data, log_write and brelse: a step of the machine. It panics exactly if the log
        is full; if the buffers are all pinned, the log is full too. */
    method Write(ghost who: nat, b: nat, data: Block) returns (r: Outcome<()>)
      requires Valid() && who < |log.Now().active| && log.c.Home(b)
      modifies log`cache, log`lh, log`trace, bc
      ensures r.Panic? <==> !HasSpace(log.c, old(log.lh))
      ensures r.Done? ==> var a := LogWrite(who, b, data);
        Valid() && Enabled(log.c, old(log.Now()), a) && log.Now() == Next(log.c, old(log.Now()), a)
    {
      CommitsAlone(log.c, log.base, log.trace);
      AlwaysListed(log.c, log.base, log.trace);
      ghost var p := Members(log.lh);
      ListSize(log.lh);
      var ok := log.Write(who, b, data);
      if !ok {
        return Panic;
      }
      r := PinBlock(bc, b, data, p);
      assert Members(log.lh) == p + {b};
    }

    /** write_log: it needs one buffer besides the pinned ones. */
    method WriteLogBlocks() returns (r: Outcome<()>)
      requires Valid() && log.Now().pc == WriteLog(0) && |log.lh| > 0
      modifies log`disk, log`cache, log`trace, bc
      ensures r.Panic? <==> |log.lh| == NBUF
      ensures r.Done? ==> Valid() && log.Now().pc == WriteLog(|log.lh|)
    {
      var tail := 0;
      while tail < |log.lh|
        invariant 0 <= tail <= |log.lh| && Valid() && log.Now().pc == WriteLog(tail)
        invariant tail > 0 ==> |log.lh| != NBUF
      {
        r := WriteSlot(tail);
        if r.Panic? {
          return;
        }
        tail := tail + 1;
      }
      r := Done(());
    }

    /** One turn of write_log's loop. */
    method WriteSlot(tail: nat) returns (r: Outcome<()>)
      requires Valid() && log.Now().pc == WriteLog(tail) && tail < |log.lh|
      modifies log`disk, log`cache, log`trace, bc
      ensures r.Panic? <==> |log.lh| == NBUF
      ensures r.Done? ==> Valid() && log.Now().pc == WriteLog(tail + 1)
    {
      WriteTurnIs(log.c, log.base, log.trace, tail);
      ghost var p := Members(log.lh);
      r := CopyBlock(bc, log.c.start + tail + 1, log.lh[tail], true, p);
      if r.Done? {
        log.WriteSlot(tail);
      }
    }

    /** install_trans, in a commit or in recovery; the buffers are there. */
    method InstallTrans()
      requires Valid() && (log.Now().pc == Install(0) || log.Now().pc == Recover(0))
      requires log.Now().pc.Install? ==> |log.lh| < NBUF
      modifies log`disk, log`cache, log`trace, bc
      ensures Valid()
      ensures log.Now().pc == if old(log.Now()).pc.Install? then Install(|log.lh|) else Recover(|log.lh|)
    {
      var tail := 0;
      while tail < |log.lh|
        invariant 0 <= tail <= |log.lh| && Valid()
        invariant log.Now().pc == if old(log.Now()).pc.Install? then Install(tail) else Recover(tail)
      {
        InstallSlot(tail);
        tail := tail + 1;
      }
    }

    /** One turn of install_trans's loop. */
    method InstallSlot(tail: nat)
      requires Valid() && (log.Now().pc == Install(tail) || log.Now().pc == Recover(tail))
      requires tail < |log.lh| && (log.Now().pc.Install? ==> |log.lh| < NBUF)
      modifies log`disk, log`cache, log`trace, bc
      ensures Valid()
      ensures log.Now().pc == if old(log.Now()).pc.Install? then Install(tail + 1) else Recover(tail + 1)
    {
      InstallTurnIs(log.c, log.base, log.trace, tail);
      ghost var p, q := PinnedIn(log.Now()), PinnedIn(Next(log.c, log.Now(), Advance));
      var done := CopyBlock(bc, log.c.start + tail + 1, log.lh[tail], false, p);
      assert Quiet(bc, q);
      log.InstallSlot(tail);
    }

    /** write_head at the commit point. */
    method CommitHead()
      requires Valid() && log.Now().pc == WriteLog(|log.lh|) && |log.lh| < NBUF
      modifies log`disk, log`cache, log`trace, bc
      ensures Valid() && log.Now().pc == Install(0)
    {
      HeadTurnIs(log.c, log.base, log.trace);
      var done := WriteHeader(bc, log.c.start, log.lh, Members(log.lh));
      log.CommitHead();
    }

    /** write_head of an empty header. */
    method ClearLog()
      requires Valid() && (log.Now().pc == Install(|log.lh|) || log.Now().pc == Recover(|log.lh|))
      modifies log`disk, log`cache, log`lh, log`trace, bc
      ensures Valid() && log.lh == [] && log.Now().pc == if old(log.Now()).pc.Install? then Finish else Running
    {
      ClearTurnIs(log.c, log.base, log.trace);
      ghost var none: set<nat> := {};
      assert none - {log.c.start} == none;
      var done := WriteHeader(bc, log.c.start, [], {});
      log.ClearLog();
    }

    /** commit, on buffers: every disk write is that of the machine, and it panics exactly if the blocks
        listed have all the buffers pinned. */
    method Commit() returns (r: Outcome<()>)
      requires Valid() && log.Now().pc == (if |log.lh| > 0 then WriteLog(0) else Finish)
      modifies log`disk, log`cache, log`lh, log`trace, bc
      ensures r.Panic? <==> |old(log.lh)| == NBUF
      ensures r.Done? ==> Valid() && log.Now().pc.Finish? && log.lh == []
    {
      r := Done(());
      if |log.lh| > 0 {
        AlwaysListed(log.c, log.base, log.trace);
        r := WriteLogBlocks();
        if r.Done? {
          CommitHead();
          InstallTrans();
          ClearLog();
        }
      }
    }

    /** recover_from_log, on buffers. */
    method RecoverFromLog()
      requires Valid() && log.Now().pc.Boot?
      modifies log`disk, log`cache, log`lh, log`trace, bc
      ensures Valid() && log.Now().pc.Running? && log.lh == []
    {
      AlwaysListed(log.c, log.base, log.trace);
      var head := ReadBlock(bc, log.c.start, {});
      assert head.value == log.cache[log.c.start];
      log.StartRecovery();
      InstallTrans();
      ClearLog();
    }

    /** The machine stops and starts again, with empty buffers. */
    method PowerLoss()
      requires Valid()
      modifies this, log`cache, log`lh, log`outstanding, log`committing, log`asleep, log`trace
      ensures Valid() && log.Now().pc.Boot? && fresh(bc)
      ensures log.trace == old(log.trace + [Next(log.c, log.Now(), Crash)])
    {
      log.PowerLoss();
      bc := new Cache(log.disk);
      NothingPinned(bc);
    }
  }
}
