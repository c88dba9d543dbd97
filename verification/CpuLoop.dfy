/**
  A processor's turn through the queues: the do-while loop of scheduler and the clock ticks that
  _should_yield counts (proc.c). The loop is a machine because between picking a process and the
  return to the loop the process runs for as long as it likes.
*/
module CpuLoop {
  import opened Common
  import Queues
  import Sjf

  const NQUEUE := 3
  const RR_TIMEQ := 5

  /** time_slice * queue_weights[q]. */
  function Slice(q: int): int {
    if q == 0 then 30 else if q == 1 then 20 else 10
  }

  /** A processor: its queue and counter, whether a process runs on it, the consecutive_runs of that process,
      and whether it is inside the loop. The history is the queues picked from in this pass, the ticks spent
      in each queue, whether some process was moved to another queue while it ran, how many ticks the process
      picked last has run for, and whether it was in queue 0 in all of them. */
  datatype Cpu = Cpu(
    queue: int, counter: int, running: bool, runs: nat, inPass: bool,
    served: seq<int>, spent: Ticks, moved: bool, stint: nat, first: bool)

  datatype Ticks = Ticks(t0: int, t1: int, t2: int) {
    function In(q: int): int {
      if q == 0 then t0 else if q == 1 then t1 else t2
    }
    function More(q: int): Ticks {
      if q == 0 then Ticks(t0 + 1, t1, t2) else if q == 1 then Ticks(t0, t1 + 1, t2) else Ticks(t0, t1, t2 + 1)
    }
  }

  datatype Event =
    | Pick(empty: bool, runs: nat)   // one turn of the loop: the queue has nobody, or its choice runs on
    | Tick(q: int)                   // a clock tick while the process is in queue q
    | Leave                          // the process sleeps or exits

  /** mpmain. */
  const START := Cpu(2, 0, false, 0, false, [], Ticks(0, 0, 0), false, 0, true)

  predicate Enabled(c: Cpu, e: Event) {
    match e
    case Pick(_, _) => !c.running
    case Tick(q) => c.running && 0 <= q < NQUEUE
    case Leave => c.running
  }

  /** The loop condition: back to the top of the loop, or out and in again as a new pass. */
  function Back(c: Cpu): Cpu {
    c.(running := false, inPass := c.counter != 0 || c.queue != NQUEUE - 1)
  }

  function DoPick(c: Cpu, empty: bool, runs: nat): Cpu {
    var q := if c.counter == 0 then (c.queue + 1) % 3 else c.queue;
    var d := c.(queue := q, inPass := true,
                served := if c.inPass then c.served + [q] else [q],
                spent := if c.inPass then c.spent else Ticks(0, 0, 0),
                moved := c.inPass && c.moved, stint := 0, first := true);
    if empty then d.(counter := 0, inPass := q != NQUEUE - 1) else d.(running := true, runs := runs)
  }

  /** _should_yield: the slice is used up, or the quantum of queue 0. */
  function Yields(counter: int, q: int, runs: int): bool {
    counter + 1 >= Slice(q) || (q == 0 && runs >= RR_TIMEQ)
  }

  function DoTick(c: Cpu, q: int): Cpu {
    var d := c.(counter := if c.counter + 1 >= Slice(q) then 0 else c.counter + 1, runs := c.runs + 1,
                spent := c.spent.More(c.queue), moved := c.moved || q != c.queue,
                stint := c.stint + 1, first := c.first && q == 0);
    if Yields(c.counter, q, c.runs + 1) then Back(d) else d
  }

  function Next(c: Cpu, e: Event): Cpu {
    match e
    case Pick(empty, runs) => DoPick(c, empty, runs)
    case Tick(q) => DoTick(c, q)
    case Leave => Back(c)
  }

  // ---------------------------------------------------------------- what every run keeps

  /** Queues in order: from 0 on, each followed by itself or the next. */
  ghost predicate InOrder(served: seq<int>) {
    && (served != [] ==> served[0] == 0)
    && forall k {:trigger served[k]} ::
       0 <= k < |served| - 1 ==> served[k + 1] == served[k] || served[k + 1] == served[k] + 1
  }

  /** Ticks spent in queue q in this pass: at most its slice if no process was moved while it ran,
      and none before its turn. */
  predicate SpentOk(c: Cpu, q: int) {
    && 0 <= c.spent.In(q) <= 30
    && (!c.moved ==> c.spent.In(q) <= Slice(q))
    && (c.inPass && c.queue < q ==> c.spent.In(q) == 0)
  }

  predicate CountOk(c: Cpu) {
    && 0 <= c.queue < NQUEUE && 0 <= c.counter < 30
    && SpentOk(c, 0) && SpentOk(c, 1) && SpentOk(c, 2)
    && (!c.moved ==> c.counter < Slice(c.queue))
    && (c.running ==> c.inPass)
    && (c.inPass && (c.counter != 0 || c.running) ==> c.spent.In(c.queue) == c.counter)
    && (c.inPass && !c.running ==> c.counter != 0 || c.queue != 2)
    && (!c.inPass ==> c.queue == 2 && c.counter == 0)
  }

  ghost predicate ServedOk(c: Cpu) {
    && InOrder(c.served) && (c.inPass ==> c.served != [])
    && (c.served != [] ==> c.served[|c.served| - 1] == c.queue)
  }

  /** While a process that has been in queue 0 for all its ticks runs, it is below its quantum. */
  predicate StintOk(c: Cpu) {
    && (c.running ==> c.stint <= c.runs && (c.first && c.stint > 0 ==> c.runs < RR_TIMEQ))
    && (c.first ==> c.stint <= RR_TIMEQ)
  }

  ghost predicate Inv(c: Cpu) {
    CountOk(c) && ServedOk(c) && StintOk(c)
  }

  lemma PickKeeps(c: Cpu, empty: bool, runs: nat)
    requires Inv(c) && !c.running
    ensures Inv(DoPick(c, empty, runs))
  {
    var d := DoPick(c, empty, runs);
    assert CountOk(d);
    if c.inPass {
      assert d.served == c.served + [d.queue];
      forall k | 0 <= k < |d.served| - 1 ensures d.served[k + 1] == d.served[k] || d.served[k + 1] == d.served[k] + 1 {
        assert k < |c.served| - 1 ==> c.served[k + 1] == c.served[k] || c.served[k + 1] == c.served[k] + 1;
      }
    }
  }

  lemma TickKeeps(c: Cpu, q: int)
    requires Inv(c) && Enabled(c, Tick(q))
    ensures Inv(DoTick(c, q))
  {
  }

  lemma StepKeepsInv(c: Cpu, e: Event)
    requires Inv(c) && Enabled(c, e)
    ensures Inv(Next(c, e))
  {
    match e
    case Pick(empty, runs) => PickKeeps(c, empty, runs);
    case Tick(q) => TickKeeps(c, q);
    case Leave =>
  }

  ghost function After(es: seq<Event>): Cpu {
    if es == [] then START else Next(After(es[..|es| - 1]), es[|es| - 1])
  }

  /** A history of a processor since mpmain. */
  ghost predicate History(es: seq<Event>) {
    es == [] || (History(es[..|es| - 1]) && Enabled(After(es[..|es| - 1]), es[|es| - 1]))
  }

  lemma {:induction false} HistoryInv(es: seq<Event>)
    requires History(es)
    ensures Inv(After(es))
  {
    if es != [] {
      HistoryInv(es[..|es| - 1]);
      StepKeepsInv(After(es[..|es| - 1]), es[|es| - 1]);
    }
  }

  /** Every pass starts and ends at (queue 2, counter 0), and picks from the queues in order: first
      from queue 0, then from each queue again or from the next one, and at its end all three have
      had their turn. */
  lemma PassesInOrder(es: seq<Event>)
    requires History(es)
    ensures var c := After(es);
      && InOrder(c.served)
      && (!c.inPass ==> c.queue == 2 && c.counter == 0)
      && (!c.inPass && c.served != [] ==> 0 in c.served && 1 in c.served && 2 in c.served)
      && (c.inPass ==> c.served != [] && c.served[|c.served| - 1] == c.queue)
  {
    HistoryInv(es);
    var c := After(es);
    if !c.inPass && c.served != [] {
      Climbs(c.served, 1);
    }
  }

  /** An orderly climb from 0 meets everything up to its end. */
  lemma {:induction false} Climbs(served: seq<int>, q: int)
    requires InOrder(served) && served != [] && 0 <= q <= served[|served| - 1]
    ensures q in served
  {
    var n := |served| - 1;
    if served[n] != q {
      assert n > 0;
      assert served[n - 1 + 1] == served[n - 1] || served[n - 1 + 1] == served[n - 1] + 1;
      Climbs(served[..n], q);
    }
  }

  /** No queue keeps a processor longer than its slice in a pass in which no process is moved while
      it runs, and never longer than the longest slice. */
  lemma SlicesKept(es: seq<Event>, q: int)
    requires History(es) && 0 <= q < NQUEUE
    ensures After(es).spent.In(q) <= 30 && (!After(es).moved ==> After(es).spent.In(q) <= Slice(q))
  {
    HistoryInv(es);
  }

  /** A process that stays in queue 0 runs at most RR_TIMEQ ticks in a row. */
  lemma QuantumKept(es: seq<Event>)
    requires History(es)
    ensures After(es).first ==> After(es).stint <= 5
  {
    HistoryInv(es);
  }

  /** The clock takes the processor away exactly when the ticks in a row of the queue reach 30, 20 or 10, by the
      queue the process is in, or those of a process in queue 0 reach 5. */
  lemma TakenAwayIff(es: seq<Event>, q: int)
    requires History(es) && Enabled(After(es), Tick(q))
    ensures var c := After(es);
      !After(es + [Tick(q)]).running <==> c.counter + 1 >= 10 * (3 - q) || (q == 0 && c.runs + 1 >= 5)
  {
    assert (es + [Tick(q)])[..|es|] == es;
  }

  // ---------------------------------------------------------------- the code

  class Processor {
    var queue: int
    var counter: int

    ghost predicate Is(c: Cpu)
      reads this
    {
      c.queue == queue && c.counter == counter
    }

    /** One turn of scheduler's loop up to the switch: the slot chosen from the queue whose turn it
        is, or -1 exactly when the machine's queue is empty. */
    method Choose(t: Queues.Table, j: Sjf.Queue1, ticks: seq<nat>, ghost c: Cpu, ghost runs: nat)
      returns (r: int, ghost d: Cpu, ghost l: seq<int>, ghost k: nat)
      requires t.Valid() && |ticks| == NPROC && Inv(c) && !c.running && Is(c)
      requires (if counter == 0 then (queue + 1) % 3 else queue) == 1 ==> Sjf.Sortable(t.ps)
      modifies this, t`index, j
      ensures t.Valid() && d == DoPick(c, r == -1, runs) && Is(d) && Inv(d)
      ensures queue == if old(counter) == 0 then (old(queue) + 1) % 3 else old(queue)
      ensures counter == if r == -1 then 0 else old(counter)
      ensures r != -1 ==> Queues.Ready(t.ps, queue, r)
      ensures r == -1 ==> forall i :: Queues.Ready(t.ps, queue, i) ==> queue == 2 && t.ps[i].arrival >= 1_000_000_000
      ensures queue == 0 ==> Queues.Turn(t.ps, old(t.index), r, t.index)
      ensures queue == 1 && r != -1 ==>
        && Sjf.StableSort(t.ps, l) && |l| <= NPROC && k < |l| && r == l[k]
        && (Sjf.Wins(t.ps, old(j.seed), ticks, l, k) || k == |l| - 1)
        && forall i :: 0 <= i < k ==> 0 <= l[i] < NPROC && !Sjf.Wins(t.ps, old(j.seed), ticks, l, i)
      ensures queue == 2 && r != -1 ==> forall i :: Queues.Ready(t.ps, 2, i) ==>
        t.ps[r].arrival < t.ps[i].arrival || (t.ps[r].arrival == t.ps[i].arrival && r <= i)
    {
      if counter == 0 {
        queue := (queue + 1) % 3;
      }
      l, k := [], 0;
      if queue == 1 {
        r, l, k := j.ShortestJob(t.ps, ticks);
      } else if queue == 2 {
        r := t.FirstCome();
      } else {
        r := t.RoundRobin();
      }
      if r == -1 {
        counter := 0;
      }
      d := DoPick(c, r == -1, runs);
      PickKeeps(c, r == -1, runs);
    }

    /** _should_yield, for a process of queue q in its runs-th tick in a row. */
    method ShouldYield(q: int, runs: int, ghost c: Cpu) returns (r: bool, ghost d: Cpu)
      requires 0 <= q < NQUEUE && Inv(c) && c.running && Is(c) && runs == c.runs + 1
      modifies `counter
      ensures d == DoTick(c, q) && Is(d) && Inv(d) && (r <==> !d.running)
      ensures r <==> old(counter) + 1 >= 10 * (3 - q) || (q == 0 && runs >= 5)
      ensures counter == if old(counter) + 1 >= 10 * (3 - q) then 0 else old(counter) + 1
    {
      d := DoTick(c, q);
      TickKeeps(c, q);
      var slice := if q == 0 then 30 else if q == 1 then 20 else 10;
      counter := counter + 1;
      if counter >= slice {
        counter := 0;
        return true, d;
      }
      return q == 0 && runs >= RR_TIMEQ, d;
    }
  }
}
