/** The logging code itself, working in place on the log fields, the cache and the disk.
    Every disk write it makes is one step of the machine in LogModel. */
module LogCode {
  import opened Common
  import opened Blocks
  import opened LogModel
  import opened LogProof
  import opened LogTheorems

  class Log {
    const c: Config
    var disk: seq<Block>
    var cache: seq<Block>
    var lh: seq<nat>
    var outstanding: int
    var committing: bool
    var asleep: set<nat>          // processes asleep on the log

    ghost const base: seq<Block>
    ghost var trace: seq<State>   // the run so far

    ghost function Now(): (s: State)
      reads this
      requires trace != []
    {
      trace[|trace| - 1]
    }

    ghost predicate Synced()
      reads this
    {
      && trace != [] && Now().disk == disk && Now().cache == cache && Now().lh == lh
      && Now().outstanding == outstanding && Now().committing == committing && Now().asleep == asleep
    }

    ghost predicate Valid()
      reads this
    {
      Run(c, base, trace) && Synced()
    }

    /** Records one step of the machine in the run. */
    ghost method Take(a: Action)
      requires Run(c, base, trace) && Enabled(c, Now(), a)
      modifies this`trace
      ensures Run(c, base, trace) && trace == old(trace) + [Next(c, old(Now()), a)]
    {
      assert Step(c, Now(), Next(c, Now(), a));
      RunExtend(c, base, trace, Next(c, Now(), a));
      trace := trace + [Next(c, Now(), a)];
    }

    /** A machine whose disk holds `image`, with an empty log, before recovery has run. */
    constructor (config: Config, image: seq<Block>)
      requires config.Valid() && |image| == config.total
      requires HeaderFits(image[config.start]) && Header(image[config.start]) == []
      ensures Valid() && c == config && base == image && |trace| == 1 && Now().pc.Boot? && Now().durable == []
      ensures outstanding == 0 && disk == image
    {
      c, disk, cache, lh, outstanding, committing, asleep := config, image, image, [], 0, false, {};
      base := image;
      trace := [State(image, image, [], 0, false, Boot, {}, [], [], [], [], map[])];
      new;
      assert StepAt(c, base, trace, 0);
    }

    /** write_head: the header block is filled word by word and written once. */
    method WriteHead()
      requires c.start < |disk| == |cache| && Entries(lh)
      modifies `disk, `cache
      ensures disk == Put(old(disk), c.start, PutHeader(old(cache[c.start]), lh, |lh|))
      ensures cache == Put(old(cache), c.start, PutHeader(old(cache[c.start]), lh, |lh|))
    {
      var hb := SetWord(cache[c.start], 0, |lh|);
      var i := 0;
      while i < |lh|
        invariant 0 <= i <= |lh|
        invariant hb == PutHeader(cache[c.start], lh, i)
      {
        hb := SetWord(hb, i + 1, lh[i]);
        i := i + 1;
      }
      cache := cache[c.start := hb];
      disk := disk[c.start := hb];
    }

    /** write_log: copies the modified blocks from the cache to the log slots. */
    method WriteLogBlocks()
      requires Valid() && Now().pc == WriteLog(0)
      modifies `disk, `cache, `trace
      ensures Valid() && Now().pc == WriteLog(|lh|) && old(trace) <= trace
      ensures Now() == old(Now()).(disk := disk, cache := cache, pc := WriteLog(|lh|))
    {
      var tail := 0;
      while tail < |lh|
        invariant 0 <= tail <= |lh|
        invariant Valid() && Now().pc == WriteLog(tail) && old(trace) <= trace
        invariant Now() == old(Now()).(disk := disk, cache := cache, pc := WriteLog(tail))
      {
        WriteSlot(tail);
        tail := tail + 1;
      }
    }

    /** One turn of write_log's loop. */
    method WriteSlot(tail: nat)
      requires Valid() && Now().pc == WriteLog(tail) && tail < |lh|
      modifies `disk, `cache, `trace
      ensures Valid() && Enabled(c, old(Now()), Advance) && trace == old(trace) + [Next(c, old(Now()), Advance)]
    {
      AdvanceAlwaysOk(c, base, trace);
      var from := cache[lh[tail]];
      cache := cache[c.start + tail + 1 := from];
      disk := disk[c.start + tail + 1 := from];
      Take(Advance);
    }

    /** install_trans: copies the log slots to the blocks they belong to. */
    method InstallTrans(recovering: bool)
      requires Valid() && Now().pc == (if recovering then Recover(0) else Install(0))
      modifies `disk, `cache, `trace
      ensures Valid() && old(trace) <= trace
      ensures Now() ==
        old(Now()).(disk := disk, cache := cache, pc := if recovering then Recover(|lh|) else Install(|lh|))
    {
      var tail := 0;
      while tail < |lh|
        invariant 0 <= tail <= |lh|
        invariant Valid() && old(trace) <= trace
        invariant Now() ==
          old(Now()).(disk := disk, cache := cache, pc := if recovering then Recover(tail) else Install(tail))
      {
        InstallSlot(tail);
        tail := tail + 1;
      }
    }

    /** One turn of install_trans's loop. */
    method InstallSlot(tail: nat)
      requires Valid() && (Now().pc == Install(tail) || Now().pc == Recover(tail)) && tail < |lh|
      modifies `disk, `cache, `trace
      ensures Valid() && Enabled(c, old(Now()), Advance) && trace == old(trace) + [Next(c, old(Now()), Advance)]
    {
      AdvanceAlwaysOk(c, base, trace);
      var lbuf := cache[c.start + tail + 1];
      cache := cache[lh[tail] := lbuf];
      disk := disk[lh[tail] := lbuf];
      Take(Advance);
    }

    /** Empties the in-memory header and writes it: the last write of commit and of recovery. */
    method ClearLog()
      requires Valid() && (Now().pc == Install(|lh|) || Now().pc == Recover(|lh|))
      modifies `disk, `cache, `lh, `trace
      ensures Valid() && Enabled(c, old(Now()), Advance) && trace == old(trace) + [Next(c, old(Now()), Advance)]
      ensures lh == []
      ensures Now() == old(Now()).(disk := disk, cache := cache, lh := [],
                                   pc := if old(Now()).pc.Install? then Finish else Running)
    {
      AdvanceAlwaysOk(c, base, trace);
      lh := [];
      WriteHead();
      Take(Advance);
    }

    /** commit: log the blocks, write the header, install, clear. */
    method Commit()
      requires Valid() && Now().pc == (if |lh| > 0 then WriteLog(0) else Finish)
      modifies `disk, `cache, `lh, `trace
      ensures Valid() && old(trace) <= trace && Now().pc.Finish? && lh == []
      ensures Now().issued == old(Now().issued) && Now().durable == old(Now().durable + Now().pending)
      ensures SameHome(c, disk, Apply(base, Now().durable))
    {
      if |lh| > 0 {
        WriteLogBlocks();
        CommitHead();
        InstallTrans(false);
        ClearLog();
      }
      RunKeepsInv(c, base, trace);
      assert old(|lh|) == 0 ==> old(Now().durable + Now().pending) == old(Now().durable);
    }

    /** The commit point. */
    method CommitHead()
      requires Valid() && Now().pc == WriteLog(|lh|)
      modifies `disk, `cache, `trace
      ensures Valid() && Enabled(c, old(Now()), Advance) && trace == old(trace) + [Next(c, old(Now()), Advance)]
      ensures Now().pc == Install(0) && Now().issued == old(Now().issued)
      ensures Now().durable == old(Now().durable + Now().pending) && Now().pending == []
    {
      AdvanceAlwaysOk(c, base, trace);
      WriteHead();
      Take(Advance);
    }

    /** One turn of begin_op's loop: process p takes a place in the log, or goes to sleep on it. */
    method Begin(p: nat, ghost id: OpId) returns (ok: bool)
      requires Valid() && !Now().pc.Recovers() && id !in Now().fate && p !in asleep
      modifies `outstanding, `asleep, `trace
      ensures Valid()
      ensures ok <==> !old(committing) && |lh| + (old(outstanding) + 1) * MAXOPBLOCKS <= LOGSIZE
      ensures var a := if ok then BeginOp(id) else Sleep(p);
        Enabled(c, old(Now()), a) && trace == old(trace) + [Next(c, old(Now()), a)]
    {
      CommitsAlone(c, base, trace);
      if committing {
        asleep := asleep + {p};
        Take(Sleep(p));
        return false;
      } else if |lh| + (outstanding + 1) * MAXOPBLOCKS > LOGSIZE {
        asleep := asleep + {p};
        Take(Sleep(p));
        return false;
      }
      outstanding := outstanding + 1;
      Take(BeginOp(id));
      return true;
    }

    /** log_write, with the modification of the buffer it reports; false is the panic. */
    method Write(ghost who: nat, b: nat, data: Block) returns (ok: bool)
      requires Valid() && who < |Now().active| && c.Home(b)
      modifies `cache, `lh, `trace
      ensures Valid()
      ensures ok <==> HasSpace(c, old(lh))
      ensures ok ==>
        && Enabled(c, old(Now()), LogWrite(who, b, data))
        && trace == old(trace) + [Next(c, old(Now()), LogWrite(who, b, data))]
      ensures !ok ==> trace == old(trace)
      ensures ok <==> |old(lh)| < 30 && |old(lh)| < c.size - 1
      ensures ok ==>
        && b < |old(cache)| && cache == old(cache)[b := data]
        && lh == if b in old(lh) then old(lh) else old(lh) + [b]
    {
      CommitsAlone(c, base, trace);
      AdvanceAlwaysOk(c, base, trace);
      if |lh| >= LOGSIZE || |lh| >= c.size - 1 {
        return false;
      }
      if outstanding < 1 {
        return false;
      }
      var i := 0;
      while i < |lh| && lh[i] != b
        invariant 0 <= i <= |lh|
        invariant forall k :: 0 <= k < i ==> lh[k] != b
      {
        i := i + 1;
      }
      if i == |lh| {
        lh := lh + [b];
      } else {
        lh := lh[i := b];
        assert lh == old(lh);
      }
      cache := cache[b := data];
      Take(LogWrite(who, b, data));
      return true;
    }

    /** The part of end_op that the last operation runs. */
    method CommitGroup()
      requires Valid() && Now().pc == (if |lh| > 0 then WriteLog(0) else Finish)
      modifies `disk, `cache, `lh, `committing, `asleep, `trace
      ensures Valid() && old(trace) <= trace && !committing && lh == [] && asleep == {} && Now().pc.Running?
      ensures Now().issued == old(Now().issued) && Now().durable == old(Now().durable + Now().pending)
      ensures SameHome(c, disk, Apply(base, Now().durable))
    {
      Commit();
      AdvanceAlwaysOk(c, base, trace);
      committing := false;
      asleep := {};
      Take(Advance);
    }

    /** end_op: the last operation to end commits the group. When it returns with no operation
        open, everything issued before is durable. */
    method End(ghost who: nat)
      requires Valid() && who < |Now().active|
      modifies `disk, `cache, `lh, `outstanding, `committing, `asleep, `trace
      ensures Valid() && old(trace) <= trace && !committing && outstanding == old(outstanding) - 1 && asleep == {}
      ensures Now().pc.Running?
      ensures Now().issued == old(Now().issued)
      ensures Enabled(c, old(Now()), EndOp(who))
      ensures outstanding > 0 ==> Now() == Next(c, old(Now()), EndOp(who))
      ensures outstanding == 0 ==>
        && Now().durable == old(Now().durable + Now().pending) && lh == []
        && SameHome(c, disk, Apply(base, Now().durable))
    {
      CommitsAlone(c, base, trace);
      if outstanding == 1 {
        EndLast(who);
      } else {
        EndOther(who);
      }
    }

    /** end_op of the last operation. */
    method EndLast(ghost who: nat)
      requires Valid() && who < |Now().active| && outstanding == 1
      modifies `disk, `cache, `lh, `outstanding, `committing, `asleep, `trace
      ensures Valid() && old(trace) <= trace && !committing && outstanding == 0 && asleep == {} && lh == []
      ensures Now().pc.Running? && Now().issued == old(Now().issued)
      ensures Now().durable == old(Now().durable + Now().pending) && SameHome(c, disk, Apply(base, Now().durable))
    {
      CommitsAlone(c, base, trace);
      outstanding := outstanding - 1;
      assert !committing;   // the "log.committing" panic cannot happen
      committing := true;
      Take(EndOp(who));
      CommitGroup();
    }

    /** end_op while other operations are open. */
    method EndOther(ghost who: nat)
      requires Valid() && who < |Now().active| && outstanding != 1
      modifies `outstanding, `asleep, `trace
      ensures Valid() && asleep == {} && outstanding == old(outstanding) - 1 && outstanding > 0 && !committing
      ensures Now().pc.Running? && Enabled(c, old(Now()), EndOp(who))
      ensures trace == old(trace) + [Next(c, old(Now()), EndOp(who))]
    {
      CommitsAlone(c, base, trace);
      outstanding := outstanding - 1;
      assert !committing;
      asleep := {};
      Take(EndOp(who));
    }

    /** The machine stops and starts again: the disk is all that is left. */
    method PowerLoss()
      requires Valid()
      modifies `cache, `lh, `outstanding, `committing, `asleep, `trace
      ensures Valid() && trace == old(trace) + [Next(c, old(Now()), Crash)]
    {
      cache, lh, outstanding, committing, asleep := disk, [], 0, false, {};
      Take(Crash);
    }

    /** recover_from_log on a machine that has just booted. */
    method RecoverFromLog()
      requires Valid() && Now().pc.Boot?
      modifies `disk, `cache, `lh, `trace
      ensures Valid() && old(trace) <= trace && Now().pc.Running? && lh == []
      ensures Now().durable == old(Now().durable)
      ensures SameHome(c, disk, Apply(base, Now().durable))
    {
      StartRecovery();
      InstallTrans(true);
      ClearLog();
      RunKeepsInv(c, base, trace);
    }

    /** The first step of recovery: the header is read. */
    method StartRecovery()
      requires Valid() && Now().pc.Boot?
      modifies `lh, `trace
      ensures Valid() && Enabled(c, old(Now()), Advance) && trace == old(trace) + [Next(c, old(Now()), Advance)]
    {
      AdvanceAlwaysOk(c, base, trace);
      BootCache(c, base, trace);
      ReadHead();
      Take(Advance);
    }

    /** read_head: the count, then that many entries. */
    method ReadHead()
      requires c.start < |cache| && HeaderFits(cache[c.start])
      modifies `lh
      ensures lh == Header(cache[c.start])
    {
      var n := Word(cache[c.start], 0);
      lh := [];
      while |lh| < n
        invariant |lh| <= n && lh == Header(cache[c.start])[..|lh|]
      {
        lh := lh + [Word(cache[c.start], |lh| + 1)];
      }
    }
  }
}
