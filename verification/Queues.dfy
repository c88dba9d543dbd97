/** Queue 0 (round robin), queue 2 (first come, first served) and aging between the queues (proc.c). */
module Queues {
  import opened Common

  const MAX_WAIT_TIME := 800

  /** The fields of a process table slot that scheduling looks at. */
  datatype Task = Task(runnable: bool, queue: int, wait: int, confidence: int, burst: int, arrival: int)

  predicate Ready(ps: seq<Task>, q: int, i: int) {
    0 <= i < |ps| && ps[i].runnable && ps[i].queue == q
  }

  // ---------------------------------------------------------------- round robin

  /** How many steps lead from slot a to slot b around the table, 64 if they are the same. */
  function Dist(a: int, b: int): int {
    if a < b then b - a else b - a + 64
  }

  function Around(a: int, d: int): int {
    if a + d < 64 then a + d else a + d - 64
  }

  /** One call: the first ready slot behind the index, or none and the index where it was. */
  ghost predicate Turn(ps: seq<Task>, before: int, r: int, after: int) {
    && |ps| == NPROC && 0 <= before < NPROC
    && (r == -1 ==> after == before && forall i :: !Ready(ps, 0, i))
    && (r != -1 ==> after == r && Ready(ps, 0, r))
    && (r != -1 ==> forall d :: 1 <= d < Dist(before, r) ==> !Ready(ps, 0, Around(before, d)))
  }

  /** The slots between the index and the choice, going up and around. */
  lemma Skipped(ps: seq<Task>, before: int, r: int)
    requires |ps| == NPROC && 0 <= before < NPROC && 0 <= r < NPROC
    requires forall d :: 1 <= d < Dist(before, r) ==> !Ready(ps, 0, Around(before, d))
    ensures forall j :: 0 <= j < NPROC && ps[j].runnable && ps[j].queue == 0 ==>
      if before < r then j <= before || r <= j else r <= j <= before
  {
    forall j | 0 <= j < NPROC && ps[j].runnable && ps[j].queue == 0
      ensures if before < r then j <= before || r <= j else r <= j <= before
    {
      assert Around(before, Dist(before, j)) == j;
    }
  }

  datatype Call = Call(ps: seq<Task>, before: int, r: int, after: int)

  ghost predicate Calls(cs: seq<Call>) {
    && (forall k :: 0 <= k < |cs| ==> Turn(cs[k].ps, cs[k].before, cs[k].r, cs[k].after))
    && (forall k {:trigger cs[k].after} :: 0 <= k < |cs| - 1 ==> cs[k + 1].before == cs[k].after)
  }

  /** Each call that passes slot i over leaves the index closer to it. */
  lemma {:induction false} CloserEachCall(cs: seq<Call>, i: int, k: nat)
    requires Calls(cs) && k < |cs| && 0 <= i < NPROC
    requires forall j :: 0 <= j < |cs| ==> Ready(cs[j].ps, 0, i) && cs[j].r != i
    ensures Dist(cs[k].after, i) <= 63 - k
  {
    var c := cs[k];
    if k > 0 {
      CloserEachCall(cs, i, k - 1);
      assert c.before == cs[k - 1].after;
    }
    var d := Dist(c.before, i);
    assert Around(c.before, d) == i;
    assert Dist(c.before, c.r) < d;
  }

  /** A slot that stays ready in queue 0 is returned within NPROC successive calls, whatever
      happens to the other slots between them. */
  lemma RoundRobinFair(cs: seq<Call>, i: int)
    requires Calls(cs) && |cs| == NPROC && 0 <= i < NPROC
    requires forall k :: 0 <= k < |cs| ==> Ready(cs[k].ps, 0, i)
    ensures exists k :: 0 <= k < |cs| && cs[k].r == i
  {
    if forall k :: 0 <= k < |cs| ==> cs[k].r != i {
      CloserEachCall(cs, i, NPROC - 1);
    }
  }

  // ---------------------------------------------------------------- aging

  /** What one pass of _aging does to a slot. */
  function Aged(p: Task, ticks: int): Task {
    if !p.runnable then p
    else if p.wait + 1 >= MAX_WAIT_TIME && p.queue != 0 then p.(wait := 0, queue := p.queue - 1, arrival := ticks)
    else p.(wait := p.wait + 1)
  }

  /** A slot after agings at the given times, with nothing else happening to it. */
  function AgedBy(p: Task, times: seq<int>): Task {
    if times == [] then p else Aged(AgedBy(p, times[..|times| - 1]), times[|times| - 1])
  }

  /** Where n agings take a waiting slot: one queue up for every MAX_WAIT_TIME. */
  lemma {:induction false} AgingExact(p: Task, times: seq<int>)
    requires p.runnable && p.queue >= 0 && 0 <= p.wait < 800
    ensures var r := AgedBy(p, times); var ups := (|times| + p.wait) / 800;
      && r.runnable && r.queue == (if ups < p.queue then p.queue - ups else 0)
      && r.burst == p.burst && r.confidence == p.confidence && (ups == 0 ==> r.arrival == p.arrival)
      && (r.queue > 0 ==> r.wait == (|times| + p.wait) % 800)
  {
    if times != [] {
      AgingExact(p, times[..|times| - 1]);
      OneMore(|times| - 1 + p.wait);
    }
  }

  /** Aging passes over a slot that is not runnable. */
  lemma {:induction false} OthersDoNotAge(p: Task, times: seq<int>)
    requires !p.runnable
    ensures AgedBy(p, times) == p
  {
    if times != [] {
      OthersDoNotAge(p, times[..|times| - 1]);
    }
  }

  lemma OneMore(x: nat)
    ensures if x % 800 == 799 then (x + 1) / 800 == x / 800 + 1 && (x + 1) % 800 == 0
            else (x + 1) / 800 == x / 800 && (x + 1) % 800 == x % 800 + 1
  {
  }

  /** A slot that stays runnable, undispatched and where it is reaches queue 0 within
      queue * MAX_WAIT_TIME agings, even with a longer wait behind it. */
  lemma {:induction false} NoStarvation(p: Task, times: seq<int>)
    requires p.runnable && p.queue >= 0 && p.wait >= 0 && |times| >= p.queue * 800
    ensures AgedBy(p, times).queue == 0 && AgedBy(p, times).runnable
  {
    if p.queue == 0 {
      StaysFirst(p, times);
    } else if p.wait < 800 {
      AgingExact(p, times);
    } else {
      var q := Aged(p, times[0]);
      FirstApart(p, times);
      AgingExact(q, times[1..]);
    }
  }

  lemma {:induction false} StaysFirst(p: Task, times: seq<int>)
    requires p.runnable && p.queue == 0
    ensures AgedBy(p, times).queue == 0 && AgedBy(p, times).runnable
  {
    if times != [] {
      StaysFirst(p, times[..|times| - 1]);
    }
  }

  lemma {:induction false} FirstApart(p: Task, times: seq<int>)
    requires times != []
    ensures AgedBy(p, times) == AgedBy(Aged(p, times[0]), times[1..])
  {
    var last := |times| - 1;
    if last == 0 {
      assert AgedBy(p, times[..0]) == p;
    } else {
      FirstApart(p, times[..last]);
      assert times[..last][1..] == times[1..][..last - 1];
    }
  }

  // ---------------------------------------------------------------- the code

  class Table {
    var ps: seq<Task>
    var index: int     // the static index of _RR_scheduler

    predicate Valid()
      reads this
    {
      |ps| == NPROC && 0 <= index < NPROC
    }

    method RoundRobin() returns (r: int)
      requires Valid()
      modifies `index
      ensures Valid() && Turn(ps, old(index), r, index)
      ensures r != -1 ==> forall j :: 0 <= j < NPROC && ps[j].runnable && ps[j].queue == 0 ==>
        if old(index) < r then j <= old(index) || r <= j else r <= j <= old(index)
    {
      var i := 0;
      while i < NPROC
        invariant 0 <= i <= NPROC && Valid() && index == if i == 0 then old(index) else Around(old(index), i)
        invariant forall d :: 1 <= d <= i ==> !Ready(ps, 0, Around(old(index), d))
      {
        index := (index + 1) % 64;
        i := i + 1;
        if ps[index].runnable && ps[index].queue == 0 {
          Skipped(ps, old(index), index);
          return index;
        }
      }
      forall j ensures !Ready(ps, 0, j) {
        if 0 <= j < NPROC {
          assert Around(old(index), Dist(old(index), j)) == j;
        }
      }
      return -1;
    }

    method Aging(ticks: int)
      requires Valid()
      modifies `ps
      ensures Valid() && forall i :: 0 <= i < NPROC ==> ps[i] == Aged(old(ps)[i], ticks)
      ensures forall i :: 0 <= i < NPROC ==> var x := old(ps)[i];
        && (!x.runnable ==> ps[i] == x)
        && (x.runnable && x.wait >= 799 && x.queue != 0 ==>
              ps[i] == x.(queue := x.queue - 1, arrival := ticks, wait := 0))
        && (x.runnable && (x.wait < 799 || x.queue == 0) ==> ps[i] == x.(wait := x.wait + 1))
    {
      var i := 0;
      while i < NPROC
        invariant 0 <= i <= NPROC && Valid()
        invariant forall j :: 0 <= j < NPROC ==> ps[j] == if j < i then Aged(old(ps)[j], ticks) else old(ps)[j]
      {
        if ps[i].runnable {
          ps := ps[i := ps[i].(wait := ps[i].wait + 1)];
          if ps[i].wait >= MAX_WAIT_TIME && ps[i].queue != 0 {
            ps := ps[i := ps[i].(queue := ps[i].queue - 1, arrival := ticks, wait := 0)];
          }
        }
        i := i + 1;
      }
    }

    /** The earliest arrival in queue 2 and the lowest slot among equals. Arrivals from 10^9 on are
        never chosen. */
    method FirstCome() returns (r: int)
      requires Valid()
      ensures r == -1 <==> forall i :: Ready(ps, 2, i) ==> ps[i].arrival >= 1_000_000_000
      ensures r != -1 ==> Ready(ps, 2, r) && ps[r].arrival < 1_000_000_000
      ensures r != -1 ==> forall i :: Ready(ps, 2, i) ==>
        ps[r].arrival < ps[i].arrival || (ps[r].arrival == ps[i].arrival && r <= i)
    {
      var minVal := 1_000_000_000;
      r := -1;
      var i := 0;
      while i < NPROC
        invariant 0 <= i <= NPROC && -1 <= r < i && minVal <= 1_000_000_000
        invariant r == -1 ==> minVal == 1_000_000_000
        invariant r != -1 ==> Ready(ps, 2, r) && ps[r].arrival == minVal < 1_000_000_000
        invariant forall j :: 0 <= j < i && Ready(ps, 2, j) ==>
          minVal < ps[j].arrival || (minVal == ps[j].arrival && r <= j)
      {
        if ps[i].runnable && ps[i].queue == 2 {
          if minVal > ps[i].arrival {
            minVal := ps[i].arrival;
            r := i;
          }
        }
        i := i + 1;
      }
    }
  }
}
